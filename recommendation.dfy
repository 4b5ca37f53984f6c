/**
 * Skill matching: the percentage score of a candidate against a job's
 * required skills, the loop that keeps the records at or above a threshold,
 * and the stable descending sort by score that orders them.
 */
module Recommendation {
  import opened Wrappers
  import opened Documents

  /** The distinct elements of a list, as Python's set(list). */
  function Distinct(s: seq<string>): set<string> {
    set x | x in s
  }

  /** A list has at least as many entries as distinct elements, and exactly as many when it has no repeats. */
  lemma {:induction false} DistinctCard(s: seq<string>)
    ensures |Distinct(s)| <= |s|
    ensures |Distinct(s)| == |s| <==> NoRepeats(s)
  {
    if s != [] {
      var t := s[1..];
      DistinctCard(t);
      assert Distinct(s) == Distinct(t) + {s[0]};
      if s[0] in Distinct(t) {
        assert Distinct(s) == Distinct(t);
        assert !NoRepeats(s) by {
          var j :| 0 <= j < |t| && t[j] == s[0];
          assert s[0] == s[j + 1];
        }
      } else {
        assert |Distinct(s)| == |Distinct(t)| + 1;
        if NoRepeats(t) {
          forall i, j | 0 <= i < j < |s| ensures s[i] != s[j] {
            if i == 0 {
              assert s[j] == t[j - 1];
            } else {
              assert s[i] == t[i - 1] && s[j] == t[j - 1];
            }
          }
        }
        if NoRepeats(s) {
          forall i, j | 0 <= i < j < |t| ensures t[i] != t[j] {
            assert t[i] == s[i + 1] && t[j] == s[j + 1];
          }
        }
      }
    }
  }

  predicate NoRepeats(s: seq<string>) {
    forall i, j :: 0 <= i < j < |s| ==> s[i] != s[j]
  }

  /**
   * calculate_match_score: no required skills score 0; otherwise the
   * share of the required list (counting its repeats) covered by the
   * distinct skills the candidate shares with it, as a truncated percentage.
   * A missing candidate list counts as empty.
   */
  function MatchScore(candidate: Option<seq<string>>, required: Option<seq<string>>): (score: int)
    ensures 0 <= score <= 100
    ensures required.None? || required.value == [] ==> score == 0
  {
    if required.None? || required.value == [] then 0
    else
      var req := required.value;
      var common := Distinct(candidate.GetOr([])) * Distinct(req);
      DistinctCard(req);
      assert |common| <= |Distinct(req)| by {
        SubsetCard(common, Distinct(req));
      }
      Percent(|common|, |req|)
  }

  /** int((k / n) * 100) computed exactly: the truncated percentage. */
  function Percent(k: nat, n: nat): (p: nat)
    requires 0 < n && k <= n
    ensures p <= 100 && (p == 100 <==> k == n)
    ensures p * n <= 100 * k < (p + 1) * n
  {
    PercentBounds(k, n);
    (100 * k) / n
  }

  lemma PercentBounds(k: nat, n: nat)
    requires 0 < n && k <= n
    ensures var p := (100 * k) / n;
      p <= 100 && (p == 100 <==> k == n) && p * n <= 100 * k < (p + 1) * n
  {
    DivBounds(100 * k, n);
    var p := (100 * k) / n;
    MulMonotone(k, n, 100);
    MulStrict(p, 101, n);
    if k == n {
      MulDiv(100, n);
    }
    if p == 100 {
      MulStrict(n, k + 1, 100);
    }
  }

  lemma DivBounds(a: nat, n: nat)
    requires 0 < n
    ensures (a / n) * n <= a < (a / n + 1) * n
  {
  }

  lemma MulMonotone(a: nat, b: nat, n: nat)
    requires a <= b
    ensures a * n <= b * n
  {
  }

  lemma MulStrict(a: nat, b: nat, n: nat)
    requires 0 < n && a * n < b * n
    ensures a < b
  {
  }

  lemma MulDiv(c: nat, n: nat)
    requires 0 < n
    ensures (c * n) / n == c
  {
    var q := (c * n) / n;
    DivBounds(c * n, n);
    assert (c + 1) * n == c * n + n;
    MulStrict(q, c + 1, n);
    MulStrict(c, q + 1, n);
  }

  lemma SubsetCard(a: set<string>, b: set<string>)
    requires a <= b
    ensures |a| <= |b|
  {
    assert b == a + (b - a);
  }

  /** A candidate holding every skill of a repeat-free required list scores 100. */
  lemma FullCoverage(candidate: seq<string>, required: seq<string>)
    requires required != [] && NoRepeats(required)
    requires forall s :: s in required ==> s in candidate
    ensures MatchScore(Some(candidate), Some(required)) == 100
  {
    DistinctCard(required);
    assert Distinct(candidate) * Distinct(required) == Distinct(required);
  }

  /** With a repeated required skill, no candidate reaches 100. */
  lemma RepeatsLowerCeiling(candidate: Option<seq<string>>, required: seq<string>)
    requires !NoRepeats(required)
    ensures MatchScore(candidate, Some(required)) < 100
  {
    DistinctCard(required);
    var common := Distinct(candidate.GetOr([])) * Distinct(required);
    SubsetCard(common, Distinct(required));
  }

  /** Gaining skills never lowers a candidate's score. */
  lemma MoreSkillsNoLower(fewer: seq<string>, more: seq<string>, required: Option<seq<string>>)
    requires forall s :: s in fewer ==> s in more
    ensures MatchScore(Some(fewer), required) <= MatchScore(Some(more), required)
  {
    if required.Some? && required.value != [] {
      var req := required.value;
      var a := Distinct(fewer) * Distinct(req);
      var b := Distinct(more) * Distinct(req);
      SubsetCard(a, b);
      DistinctCard(req);
      SubsetCard(b, Distinct(req));
      PercentMonotone(|a|, |b|, |req|);
    }
  }

  lemma PercentMonotone(j: nat, k: nat, n: nat)
    requires 0 < n && j <= k <= n
    ensures Percent(j, n) <= Percent(k, n)
  {
    MulStrict(Percent(j, n), Percent(k, n) + 1, n);
  }

  /** A missing candidate list scores like an empty one, and an empty one scores 0. */
  lemma NoSkillsScoresZero(required: Option<seq<string>>)
    ensures MatchScore(None, required) == MatchScore(Some([]), required) == 0
  {
    if required.Some? && required.value != [] {
      assert Distinct([]) == {};
    }
  }

  // ---------------------------------------------------------------------------
  // Keeping and ordering the matches

  /** A record together with the score attached to it. */
  datatype Scored = Scored(doc: Doc, score: int)

  /** The records scoring at least the threshold, each with its score, in the given order. */
  function Matched(docs: seq<Doc>, scoreOf: Doc -> int, threshold: int): (r: seq<Scored>)
    ensures |r| <= |docs|
    ensures forall x :: x in r ==> x.doc in docs && x.score == scoreOf(x.doc) && x.score >= threshold
  {
    if docs == [] then []
    else
      var last := docs[|docs| - 1];
      var init := Matched(docs[..|docs| - 1], scoreOf, threshold);
      init + if scoreOf(last) >= threshold then [Scored(last, scoreOf(last))] else []
  }

  /** Matching keeps the given order: the matches of a concatenation are the matches of each part, in turn. */
  lemma {:induction false} MatchedAppend(a: seq<Doc>, b: seq<Doc>, scoreOf: Doc -> int, threshold: int)
    ensures Matched(a + b, scoreOf, threshold) == Matched(a, scoreOf, threshold) + Matched(b, scoreOf, threshold)
  {
    if b == [] {
      assert a + b == a;
    } else {
      var init := b[..|b| - 1];
      assert (a + b)[..|a + b| - 1] == a + init;
      assert (a + b)[|a + b| - 1] == b[|b| - 1];
      MatchedAppend(a, init, scoreOf, threshold);
    }
  }

  /** Every record scoring at least the threshold is kept. */
  lemma {:induction false} MatchedComplete(docs: seq<Doc>, scoreOf: Doc -> int, threshold: int, d: Doc)
    requires d in docs && scoreOf(d) >= threshold
    ensures Scored(d, scoreOf(d)) in Matched(docs, scoreOf, threshold)
  {
    var init := docs[..|docs| - 1];
    if d != docs[|docs| - 1] {
      assert d in init;
      MatchedComplete(init, scoreOf, threshold, d);
    }
  }

  /**
   * The loop of the resolvers: walk the records in order, and append each
   * one whose score reaches the threshold, with its score attached.
   */
  method CollectMatches(docs: seq<Doc>, scoreOf: Doc -> int, threshold: int) returns (matched: seq<Scored>)
    ensures matched == Matched(docs, scoreOf, threshold)
  {
    matched := [];
    var i := 0;
    while i < |docs|
      invariant 0 <= i <= |docs|
      invariant matched == Matched(docs[..i], scoreOf, threshold)
    {
      var d := docs[i];
      var score := scoreOf(d);
      if score >= threshold {
        matched := matched + [Scored(d, score)];
      }
      assert docs[..i + 1][..i] == docs[..i];
      i := i + 1;
    }
    assert docs[..|docs|] == docs;
  }

  /** Place a record after every entry scoring at least as much: the insertion step of a stable sort. */
  function InsertDesc(x: Scored, ys: seq<Scored>): seq<Scored> {
    if ys == [] then [x]
    else if ys[0].score >= x.score then [ys[0]] + InsertDesc(x, ys[1..])
    else [x] + ys
  }

  /** list.sort(key=score, reverse=True): descending by score, stable for equal scores. */
  function SortDesc(xs: seq<Scored>): seq<Scored> {
    if xs == [] then [] else InsertDesc(xs[|xs| - 1], SortDesc(xs[..|xs| - 1]))
  }

  predicate Descending(ys: seq<Scored>) {
    forall i, j :: 0 <= i < j < |ys| ==> ys[i].score >= ys[j].score
  }

  /** The entries with a given score, in order. */
  function WithScore(xs: seq<Scored>, k: int): seq<Scored> {
    if xs == [] then []
    else (if xs[0].score == k then [xs[0]] else []) + WithScore(xs[1..], k)
  }

  lemma {:induction false} WithScoreAppend(xs: seq<Scored>, ys: seq<Scored>, k: int)
    ensures WithScore(xs + ys, k) == WithScore(xs, k) + WithScore(ys, k)
  {
    if xs != [] {
      assert (xs + ys)[1..] == xs[1..] + ys;
      WithScoreAppend(xs[1..], ys, k);
    } else {
      assert xs + ys == ys;
    }
  }

  /** Inserting into a descending list keeps it descending. */
  lemma {:induction false} InsertDescSorted(x: Scored, ys: seq<Scored>)
    requires Descending(ys)
    ensures Descending(InsertDesc(x, ys))
  {
    if ys != [] && ys[0].score >= x.score {
      var rest := InsertDesc(x, ys[1..]);
      InsertDescSorted(x, ys[1..]);
      InsertDescCount(x, ys[1..]);
      var r := [ys[0]] + rest;
      forall i, j | 0 <= i < j < |r| ensures r[i].score >= r[j].score {
        if i == 0 {
          assert r[j] in multiset(rest);
          assert r[j] in ys[1..] || r[j] == x;
        }
      }
    } else if ys != [] {
      var r := [x] + ys;
      forall i, j | 0 <= i < j < |r| ensures r[i].score >= r[j].score {
        if i == 0 {
          assert r[j] == ys[j - 1];
        } else {
          assert r[i] == ys[i - 1] && r[j] == ys[j - 1];
        }
      }
    }
  }

  /** Inserting adds exactly the one entry. */
  lemma {:induction false} InsertDescCount(x: Scored, ys: seq<Scored>)
    ensures multiset(InsertDesc(x, ys)) == multiset(ys) + multiset{x}
  {
    if ys != [] && ys[0].score >= x.score {
      InsertDescCount(x, ys[1..]);
      assert ys == [ys[0]] + ys[1..];
    }
  }

  /** Inserting puts the entry after every entry of equal score. */
  lemma {:induction false} InsertDescStable(x: Scored, ys: seq<Scored>, k: int)
    requires Descending(ys)
    ensures WithScore(InsertDesc(x, ys), k) == WithScore(ys, k) + WithScore([x], k)
  {
    if ys == [] {
    } else if ys[0].score >= x.score {
      var rest := InsertDesc(x, ys[1..]);
      InsertDescStable(x, ys[1..], k);
      WithScoreCons(ys[0], rest, k);
      AppendAssoc(if ys[0].score == k then [ys[0]] else [], WithScore(ys[1..], k), WithScore([x], k));
    } else {
      WithScoreCons(x, ys, k);
      if x.score == k {
        NoneWithScore(ys, k);
      }
    }
  }

  lemma WithScoreCons(h: Scored, t: seq<Scored>, k: int)
    ensures WithScore([h] + t, k) == (if h.score == k then [h] else []) + WithScore(t, k)
  {
    assert ([h] + t)[1..] == t;
  }

  lemma AppendAssoc<T>(a: seq<T>, b: seq<T>, c: seq<T>)
    ensures a + (b + c) == (a + b) + c
  {
  }

  /** In a descending list whose head scores below k, nothing scores k. */
  lemma {:induction false} NoneWithScore(ys: seq<Scored>, k: int)
    requires Descending(ys) && (ys != [] ==> ys[0].score < k)
    ensures WithScore(ys, k) == []
  {
    if ys != [] {
      NoneWithScore(ys[1..], k);
    }
  }

  /**
   * The sort returns the same entries, in descending order of score, and
   * entries with equal scores keep their relative order.
   */
  lemma {:induction false} SortDescProps(xs: seq<Scored>)
    ensures Descending(SortDesc(xs))
    ensures multiset(SortDesc(xs)) == multiset(xs)
    ensures forall k :: WithScore(SortDesc(xs), k) == WithScore(xs, k)
  {
    if xs != [] {
      var init := xs[..|xs| - 1];
      var x := xs[|xs| - 1];
      SortDescProps(init);
      InsertDescSorted(x, SortDesc(init));
      InsertDescCount(x, SortDesc(init));
      assert xs == init + [x];
      forall k ensures WithScore(SortDesc(xs), k) == WithScore(xs, k) {
        InsertDescStable(x, SortDesc(init), k);
        WithScoreAppend(init, [x], k);
      }
    }
  }

  /**
   * The ordered matches: a record is listed exactly when it scores at least
   * the threshold, with its score, from the highest score down.
   */
  lemma RankedMatches(docs: seq<Doc>, scoreOf: Doc -> int, threshold: int)
    ensures var r := SortDesc(Matched(docs, scoreOf, threshold));
      Descending(r) &&
      (forall x :: x in r ==> x.doc in docs && x.score == scoreOf(x.doc) && x.score >= threshold) &&
      (forall d :: d in docs && scoreOf(d) >= threshold ==> Scored(d, scoreOf(d)) in r)
  {
    var m := Matched(docs, scoreOf, threshold);
    SortDescProps(m);
    forall x | x in SortDesc(m) ensures x in m {
      assert x in multiset(SortDesc(m));
    }
    forall d | d in docs && scoreOf(d) >= threshold ensures Scored(d, scoreOf(d)) in SortDesc(m) {
      MatchedComplete(docs, scoreOf, threshold, d);
      assert Scored(d, scoreOf(d)) in multiset(m);
    }
  }
}
