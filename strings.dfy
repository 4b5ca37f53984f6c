/**
 * The string primitives the Python backend and the React frontend rely on:
 * strip/trim, substring search, str.split(sep), str.split(), str.splitlines(),
 * str.join, ASCII case mapping and integer formatting. Everything is restricted
 * to ASCII text.
 */
module Strings {
  import opened Wrappers

  /** Whose notion of whitespace: Python's str.isspace() or JavaScript's String.prototype.trim(). */
  datatype Runtime = Python | JavaScript

  /** ASCII whitespace: space, \t \n \v \f \r, and for Python also the separators \x1c..\x1f. */
  predicate IsSpace(c: char, rt: Runtime) {
    c == ' ' || 9 <= c as int <= 13 || (rt == Python && 28 <= c as int <= 31)
  }

  predicate AllSpace(s: string, rt: Runtime) {
    forall i :: 0 <= i < |s| ==> IsSpace(s[i], rt)
  }

  /** Neither end of `s` is whitespace. */
  predicate IsStripped(s: string, rt: Runtime) {
    s == [] || (!IsSpace(s[0], rt) && !IsSpace(s[|s| - 1], rt))
  }

  /** The string without its leading whitespace. */
  function TrimStart(s: string, rt: Runtime): string
    decreases |s|
  {
    if s != [] && IsSpace(s[0], rt) then TrimStart(s[1..], rt) else s
  }

  /** The string without its trailing whitespace. */
  function TrimEnd(s: string, rt: Runtime): string
    decreases |s|
  {
    if s != [] && IsSpace(s[|s| - 1], rt) then TrimEnd(s[..|s| - 1], rt) else s
  }

  /** TrimStart removes an all-whitespace prefix and stops at the first other character. */
  lemma {:induction false} TrimStartSpec(s: string, rt: Runtime)
    ensures var r := TrimStart(s, rt);
      |r| <= |s| && r == s[|s| - |r|..] && AllSpace(s[..|s| - |r|], rt) && (r == [] || !IsSpace(r[0], rt))
    decreases |s|
  {
    if s != [] && IsSpace(s[0], rt) {
      TrimStartSpec(s[1..], rt);
      var r := TrimStart(s[1..], rt);
      assert s[..|s| - |r|] == [s[0]] + s[1..][..|s| - 1 - |r|];
    }
  }

  /** TrimEnd removes an all-whitespace suffix and stops at the last other character. */
  lemma {:induction false} TrimEndSpec(s: string, rt: Runtime)
    ensures var r := TrimEnd(s, rt);
      |r| <= |s| && r == s[..|r|] && AllSpace(s[|r|..], rt) && (r == [] || !IsSpace(r[|r| - 1], rt))
    decreases |s|
  {
    if s != [] && IsSpace(s[|s| - 1], rt) {
      TrimEndSpec(s[..|s| - 1], rt);
      var r := TrimEnd(s[..|s| - 1], rt);
      assert s[|r|..] == s[..|s| - 1][|r|..] + [s[|s| - 1]];
    }
  }

  /** Python's str.strip() (rt == Python) and JavaScript's trim() (rt == JavaScript). */
  function Strip(s: string, rt: Runtime): (r: string)
    ensures IsStripped(r, rt)
    ensures |r| <= |s|
  {
    TrimStartSpec(s, rt);
    TrimEndSpec(TrimStart(s, rt), rt);
    TrimEnd(TrimStart(s, rt), rt)
  }

  /** The stripped string is the middle of `s` between two all-whitespace ends. */
  lemma StripSpan(s: string, rt: Runtime) returns (a: nat, b: nat)
    ensures a <= b <= |s| && Strip(s, rt) == s[a..b]
    ensures AllSpace(s[..a], rt) && AllSpace(s[b..], rt)
  {
    var t := TrimStart(s, rt);
    var r := TrimEnd(t, rt);
    TrimStartSpec(s, rt);
    TrimEndSpec(t, rt);
    a := |s| - |t|;
    b := a + |r|;
    assert t == s[a..];
    assert r == t[..|r|];
    assert r == s[a..b];
    assert s[b..] == t[|r|..];
  }

  lemma StrippedIsFixed(s: string, rt: Runtime)
    requires IsStripped(s, rt)
    ensures Strip(s, rt) == s
  {
  }

  lemma StripIdempotent(s: string, rt: Runtime)
    ensures Strip(Strip(s, rt), rt) == Strip(s, rt)
  {
    StrippedIsFixed(Strip(s, rt), rt);
  }

  /** Stripping leaves nothing exactly when the string is blank. */
  lemma StripEmptyIffBlank(s: string, rt: Runtime)
    ensures Strip(s, rt) == [] <==> AllSpace(s, rt)
  {
    var a, b := StripSpan(s, rt);
    if Strip(s, rt) == [] {
      assert a == b;
      assert s == s[..a] + s[b..];
    } else {
      assert !IsSpace(s[a], rt);
    }
  }

  lemma {:induction false} TrimStartSpacePrefix(l: string, s: string, rt: Runtime)
    requires AllSpace(l, rt)
    ensures TrimStart(l + s, rt) == TrimStart(s, rt)
    decreases |l|
  {
    if l != [] {
      assert (l + s)[1..] == l[1..] + s;
      TrimStartSpacePrefix(l[1..], s, rt);
    } else {
      assert l + s == s;
    }
  }

  lemma {:induction false} TrimEndSpaceSuffix(s: string, r: string, rt: Runtime)
    requires AllSpace(r, rt)
    ensures TrimEnd(s + r, rt) == TrimEnd(s, rt)
    decreases |r|
  {
    if r != [] {
      assert (s + r)[..|s + r| - 1] == s + r[..|r| - 1];
      TrimEndSpaceSuffix(s, r[..|r| - 1], rt);
    } else {
      assert s + r == s;
    }
  }

  lemma {:induction false} TrimStartAppend(s: string, t: string, rt: Runtime)
    ensures AllSpace(s, rt) ==> TrimStart(s + t, rt) == TrimStart(t, rt)
    ensures !AllSpace(s, rt) ==> TrimStart(s + t, rt) == TrimStart(s, rt) + t
    decreases |s|
  {
    if s == [] {
      assert s + t == t;
      assert AllSpace(s, rt);
    } else if IsSpace(s[0], rt) {
      assert (s + t)[0] == s[0];
      assert (s + t)[1..] == s[1..] + t;
      assert TrimStart(s + t, rt) == TrimStart(s[1..] + t, rt);
      assert TrimStart(s, rt) == TrimStart(s[1..], rt);
      TrimStartAppend(s[1..], t, rt);
      assert AllSpace(s, rt) <==> AllSpace(s[1..], rt) by {
        if AllSpace(s[1..], rt) {
          forall i | 0 <= i < |s| ensures IsSpace(s[i], rt) {
            if i > 0 { assert s[i] == s[1..][i - 1]; }
          }
        }
      }
    } else {
      assert (s + t)[0] == s[0];
      assert !AllSpace(s, rt);
      assert TrimStart(s + t, rt) == s + t;
    }
  }

  /** Whitespace added around a string does not change what strip() returns. */
  lemma StripPadded(l: string, s: string, r: string, rt: Runtime)
    requires AllSpace(l, rt) && AllSpace(r, rt)
    ensures Strip(l + s + r, rt) == Strip(s, rt)
  {
    assert l + s + r == l + (s + r);
    TrimStartSpacePrefix(l, s + r, rt);
    TrimStartAppend(s, r, rt);
    if AllSpace(s, rt) {
      TrimStartAppend(r, [], rt);
      assert r + [] == r;
      StripEmptyIffBlank(s, rt);
      StripEmptyIffBlank(r, rt);
    } else {
      TrimEndSpaceSuffix(TrimStart(s, rt), r, rt);
    }
  }

  // ---------------------------------------------------------------------------
  // Substring search

  /** `p` occurs in `s` at position `i`. */
  predicate Occurs(s: string, p: string, i: int) {
    0 <= i && i + |p| <= |s| && s[i..i + |p|] == p
  }

  /** Python's `p in s`. */
  predicate Contains(s: string, p: string) {
    exists i :: 0 <= i <= |s| && Occurs(s, p, i)
  }

  predicate StartsWith(s: string, p: string) {
    |p| <= |s| && s[..|p|] == p
  }

  predicate EndsWith(s: string, p: string) {
    |p| <= |s| && s[|s| - |p|..] == p
  }

  /** The three pieces of a concatenation sit where they are expected. */
  lemma Layout(a: string, b: string, c: string)
    ensures StartsWith(a + b + c, a) && Occurs(a + b + c, b, |a|) && EndsWith(a + b + c, c)
  {
    assert (a + b + c)[..|a|] == a;
    assert (a + b + c)[|a|..|a| + |b|] == b;
    assert (a + b + c)[|a| + |b|..] == c;
  }

  lemma EndsWithTrans(s: string, t: string, u: string)
    requires EndsWith(s, t) && EndsWith(t, u)
    ensures EndsWith(s, u)
  {
    assert s[|s| - |u|..] == s[|s| - |t|..][|t| - |u|..];
  }

  /** An occurrence survives text added on either side, shifted by what is added in front. */
  lemma OccursExtend(x: string, y: string, p: string, k: int)
    requires Occurs(x, p, k)
    ensures Occurs(x + y, p, k) && Occurs(y + x, p, |y| + k)
  {
    assert (x + y)[k..k + |p|] == x[k..k + |p|];
    assert (y + x)[|y| + k..|y| + k + |p|] == x[k..k + |p|];
  }

  /** Every character after position k of a string with an all-whitespace suffix from k is whitespace. */
  lemma AllSpaceSuffix(s: string, k: nat, rt: Runtime)
    requires k <= |s| && AllSpace(s[k..], rt)
    ensures forall j :: k <= j < |s| ==> IsSpace(s[j], rt)
  {
    forall j | k <= j < |s| ensures IsSpace(s[j], rt) {
      assert s[k..][j - k] == s[j];
    }
  }

  /** Every character before position k of a string with an all-whitespace prefix up to k is whitespace. */
  lemma AllSpacePrefix(s: string, k: nat, rt: Runtime)
    requires k <= |s| && AllSpace(s[..k], rt)
    ensures forall j :: 0 <= j < k ==> IsSpace(s[j], rt)
  {
    forall j | 0 <= j < k ensures IsSpace(s[j], rt) {
      assert s[..k][j] == s[j];
    }
  }

  /** `p` placed between `a` and `b` occurs right after `a`. */
  lemma OccursBetween(a: string, p: string, b: string)
    ensures Occurs(a + p + b, p, |a|) && Contains(a + p + b, p)
  {
    assert (a + p + b)[|a|..|a| + |p|] == p;
    assert Occurs(a + p + b, p, |a|);
  }

  /** The first position at or after `from` where `p` occurs, as str.find(p, from). */
  function IndexFrom(s: string, p: string, from: nat): (r: Option<nat>)
    ensures r.Some? ==> from <= r.value && Occurs(s, p, r.value)
    ensures forall j :: from <= j && (r.None? || j < r.value) ==> !Occurs(s, p, j)
    decreases |s| - from
  {
    if from + |p| > |s| then None
    else if s[from..from + |p|] == p then Some(from)
    else IndexFrom(s, p, from + 1)
  }

  lemma IndexFromZero(s: string, p: string)
    ensures IndexFrom(s, p, 0).Some? <==> Contains(s, p)
  {
  }

  /** An occurrence inside a slice is an occurrence in the whole string. */
  lemma OccursInSlice(s: string, p: string, a: nat, b: nat, j: int)
    requires a <= b <= |s|
    requires Occurs(s[a..b], p, j)
    ensures Occurs(s, p, a + j)
  {
    var t := s[a..b];
    assert t[j..j + |p|] == p;
    forall k | 0 <= k < |p| ensures s[a + j..a + j + |p|][k] == p[k] {
      assert t[j..j + |p|][k] == t[j + k] == s[a + j + k];
    }
  }

  /** An occurrence that lies inside a slice is an occurrence in the slice. */
  lemma OccursWithin(s: string, p: string, a: nat, b: nat, j: int)
    requires a <= j && j + |p| <= b <= |s| && Occurs(s, p, j)
    ensures Occurs(s[a..b], p, j - a)
  {
    var t := s[a..b];
    var u, v := t[j - a..j - a + |p|], s[j..j + |p|];
    forall k | 0 <= k < |p| ensures u[k] == v[k] {
      assert u[k] == t[j - a + k] == s[j + k];
    }
    assert u == v;
  }

  lemma SliceAbsent(s: string, p: string, a: nat, b: nat)
    requires a <= b <= |s| && !Contains(s, p)
    ensures !Contains(s[a..b], p)
  {
    if Contains(s[a..b], p) {
      var j :| 0 <= j <= |s[a..b]| && Occurs(s[a..b], p, j);
      OccursInSlice(s, p, a, b, j);
    }
  }

  /** Stripping cuts a slice out of `s`, so it cannot create an occurrence of `p`. */
  lemma StripAbsent(s: string, p: string, rt: Runtime)
    requires !Contains(s, p)
    ensures !Contains(Strip(s, rt), p)
  {
    var a, b := StripSpan(s, rt);
    SliceAbsent(s, p, a, b);
  }

  /** Gluing two strings that lack `p` with one character foreign to `p` creates no occurrence of `p`. */
  lemma GlueAbsent(x: string, c: char, y: string, p: string)
    requires !Contains(x, p) && !Contains(y, p) && c !in p
    ensures !Contains(x + [c] + y, p)
  {
    var s := x + [c] + y;
    forall j | 0 <= j <= |s| ensures !Occurs(s, p, j) {
      if j + |p| <= |s| {
        if j + |p| <= |x| {
          assert s[j..j + |p|] == x[j..j + |p|];
          assert !Occurs(x, p, j);
        } else if j > |x| {
          assert s[j..j + |p|] == y[j - |x| - 1..j - |x| - 1 + |p|];
          assert !Occurs(y, p, j - |x| - 1);
        } else {
          assert s[j..j + |p|][|x| - j] == c;
        }
      }
    }
  }

  /** A prefix without `p`'s first character cannot hold the start of an occurrence. */
  lemma OccursShiftPrefix(l: string, s: string, p: string, j: int)
    requires |p| > 0 && p[0] !in l
    ensures Occurs(l + s, p, j) <==> j >= |l| && Occurs(s, p, j - |l|)
  {
    if 0 <= j < |l| && j + |p| <= |l + s| {
      assert (l + s)[j..j + |p|][0] == l[j];
    }
    if j >= |l| && j + |p| <= |l + s| {
      assert (l + s)[j..j + |p|] == s[j - |l|..j - |l| + |p|];
    }
  }

  /** No character of `r` belongs to `p`: an occurrence in `s + r` lies within `s`. */
  lemma OccursShiftSuffix(s: string, r: string, p: string, j: int)
    requires |p| > 0 && forall c :: c in r ==> c !in p
    ensures Occurs(s + r, p, j) <==> Occurs(s, p, j)
  {
    if 0 <= j && |s| < j + |p| <= |s + r| {
      var m := if j >= |s| then j else |s|;
      assert (s + r)[j..j + |p|][m - j] == r[m - |s|];
      assert r[m - |s|] in r;
    }
    if 0 <= j && j + |p| <= |s| {
      assert (s + r)[j..j + |p|] == s[j..j + |p|];
    }
  }

  // ---------------------------------------------------------------------------
  // str.split(sep) and str.join

  /** `sep.join(parts)`. */
  function Join(sep: string, parts: seq<string>): string
    decreases |parts|
  {
    if |parts| == 0 then ""
    else if |parts| == 1 then parts[0]
    else parts[0] + sep + Join(sep, parts[1..])
  }

  /** Python's `s.split(sep)` for a non-empty separator. */
  function SplitOn(s: string, sep: string): (parts: seq<string>)
    requires |sep| > 0
    ensures |parts| >= 1
    decreases |s|
  {
    match IndexFrom(s, sep, 0)
    case None => [s]
    case Some(i) => [s[..i]] + SplitOn(s[i + |sep|..], sep)
  }

  lemma SplitNone(s: string, sep: string)
    requires |sep| > 0 && IndexFrom(s, sep, 0).None?
    ensures SplitOn(s, sep) == [s]
  {
  }

  /** One step of a split: the text before the first separator, then the split of the rest. */
  lemma SplitStep(s: string, sep: string, i: nat)
    requires |sep| > 0 && IndexFrom(s, sep, 0) == Some(i)
    ensures SplitOn(s, sep) == [s[..i]] + SplitOn(s[i + |sep|..], sep)
  {
  }

  /** A split step with its two pieces named. */
  lemma SplitStepAs(s: string, sep: string, i: nat, head: string, rest: string)
    requires |sep| > 0 && IndexFrom(s, sep, 0) == Some(i)
    requires head == s[..i] && rest == s[i + |sep|..]
    ensures SplitOn(s, sep) == [head] + SplitOn(rest, sep)
  {
    SplitStep(s, sep, i);
  }

  /** No part of a split holds the separator. */
  lemma {:induction false} SplitPartsAbsent(s: string, sep: string)
    requires |sep| > 0
    ensures forall k :: 0 <= k < |SplitOn(s, sep)| ==> !Contains(SplitOn(s, sep)[k], sep)
    decreases |s|
  {
    match IndexFrom(s, sep, 0)
    case None =>
      IndexFromZero(s, sep);
    case Some(i) =>
      var head := s[..i];
      forall j | 0 <= j <= |head| ensures !Occurs(head, sep, j) {
        if Occurs(head, sep, j) {
          OccursInSlice(s, sep, 0, i, j);
        }
      }
      SplitPartsAbsent(s[i + |sep|..], sep);
  }

  /** Splitting and joining with the same separator gives back the string. */
  lemma {:induction false} SplitJoin(s: string, sep: string)
    requires |sep| > 0
    ensures Join(sep, SplitOn(s, sep)) == s
    decreases |s|
  {
    match IndexFrom(s, sep, 0)
    case None =>
    case Some(i) =>
      var rest := SplitOn(s[i + |sep|..], sep);
      var parts := [s[..i]] + rest;
      assert SplitOn(s, sep) == parts;
      assert parts[1..] == rest;
      assert Join(sep, parts) == s[..i] + sep + Join(sep, rest);
      SplitJoin(s[i + |sep|..], sep);
      assert s[i..i + |sep|] == sep;
      assert s == s[..i] + s[i..i + |sep|] + s[i + |sep|..];
  }

  /** A string without the separator splits into itself alone. */
  lemma SplitAbsent(s: string, sep: string)
    requires |sep| > 0 && !Contains(s, sep)
    ensures SplitOn(s, sep) == [s]
  {
    IndexFromZero(s, sep);
  }

  /** A prefix lacking `p`'s first character shifts the first occurrence by its length. */
  lemma IndexShiftPrefix(l: string, s: string, p: string) returns (k: Option<nat>)
    requires |p| > 0 && p[0] !in l
    ensures k == IndexFrom(l + s, p, 0)
    ensures k.None? <==> IndexFrom(s, p, 0).None?
    ensures k.Some? ==> k.value == |l| + IndexFrom(s, p, 0).value
  {
    k := IndexFrom(l + s, p, 0);
    var i := IndexFrom(s, p, 0);
    if i.Some? {
      var n := |l| + i.value;
      OccursShiftPrefix(l, s, p, n);
      assert Occurs(l + s, p, n);
      assert k.Some? && k.value <= n;
      OccursShiftPrefix(l, s, p, k.value);
      assert Occurs(s, p, k.value - |l|);
    } else if k.Some? {
      OccursShiftPrefix(l, s, p, k.value);
    }
  }

  /** A prefix lacking the separator's first character only lengthens the first part. */
  lemma SplitPrefix(l: string, s: string, sep: string)
    requires |sep| > 0 && sep[0] !in l
    ensures SplitOn(l + s, sep) == [l + SplitOn(s, sep)[0]] + SplitOn(s, sep)[1..]
  {
    var k := IndexShiftPrefix(l, s, sep);
    match IndexFrom(s, sep, 0)
    case None =>
      SplitNone(s, sep);
      SplitNone(l + s, sep);
      FirstPartPrepend(l, s, []);
    case Some(i) =>
      SplitPrefixAt(l, s, sep, i);
  }

  lemma SplitPrefixAt(l: string, s: string, sep: string, i: nat)
    requires |sep| > 0 && IndexFrom(s, sep, 0) == Some(i) && IndexFrom(l + s, sep, 0) == Some(|l| + i)
    ensures SplitOn(l + s, sep) == [l + SplitOn(s, sep)[0]] + SplitOn(s, sep)[1..]
  {
    var rest := s[i + |sep|..];
    SplitStep(s, sep, i);
    PrefixSlices(l, s, i, |sep|);
    SplitStepAs(l + s, sep, |l| + i, l + s[..i], rest);
    FirstPartPrepend(l, s[..i], SplitOn(rest, sep));
  }

  lemma PrefixSlices(l: string, s: string, i: nat, w: nat)
    requires i + w <= |s|
    ensures (l + s)[..|l| + i] == l + s[..i] && (l + s)[|l| + i + w..] == s[i + w..]
  {
  }

  /** Lengthening the first part of `[h] + tail`. */
  lemma FirstPartPrepend(l: string, h: string, tail: seq<string>)
    ensures var parts := [h] + tail;
      [l + h] + tail == [l + parts[0]] + parts[1..]
  {
    var parts := [h] + tail;
    assert parts[1..] == tail;
  }

  /** A suffix sharing no character with `p` leaves the first occurrence of `p` where it was. */
  lemma IndexShiftSuffix(s: string, r: string, p: string)
    requires |p| > 0 && forall c :: c in r ==> c !in p
    ensures IndexFrom(s + r, p, 0) == IndexFrom(s, p, 0)
  {
    var k := IndexFrom(s + r, p, 0);
    var i := IndexFrom(s, p, 0);
    if i.Some? {
      OccursShiftSuffix(s, r, p, i.value);
      OccursShiftSuffix(s, r, p, k.value);
    } else if k.Some? {
      OccursShiftSuffix(s, r, p, k.value);
    }
  }

  /** Lengthening the last part of `[h] + tail` lengthens the last part of `tail`. */
  lemma LastPartAppend(h: string, tail: seq<string>, r: string)
    requires |tail| >= 1
    ensures var parts := [h] + tail;
      [h] + (tail[..|tail| - 1] + [tail[|tail| - 1] + r]) == parts[..|parts| - 1] + [parts[|parts| - 1] + r]
  {
    var parts := [h] + tail;
    assert parts[..|parts| - 1] == [h] + tail[..|tail| - 1];
  }

  /** A suffix sharing no character with the separator only lengthens the last part. */
  lemma {:induction false} SplitSuffix(s: string, r: string, sep: string)
    requires |sep| > 0 && forall c :: c in r ==> c !in sep
    ensures var parts := SplitOn(s, sep);
      SplitOn(s + r, sep) == parts[..|parts| - 1] + [parts[|parts| - 1] + r]
    decreases |s|
  {
    IndexShiftSuffix(s, r, sep);
    match IndexFrom(s, sep, 0)
    case None =>
      SplitNone(s, sep);
      SplitNone(s + r, sep);
    case Some(i) =>
      var rest := s[i + |sep|..];
      SplitStepAs(s, sep, i, s[..i], rest);
      SuffixSlices(s, r, i, |sep|);
      SplitStepAs(s + r, sep, i, s[..i], rest + r);
      SplitSuffix(rest, r, sep);
      LastPartAppend(s[..i], SplitOn(rest, sep), r);
  }

  lemma SuffixSlices(s: string, r: string, i: nat, w: nat)
    requires i + w <= |s|
    ensures (s + r)[..i] == s[..i] && (s + r)[i + w..] == s[i + w..] + r
  {
  }


  // ---------------------------------------------------------------------------
  // str.splitlines()

  /** The ASCII line boundaries of str.splitlines(): \n \r \v \f \x1c \x1d \x1e (and \r\n as one). */
  predicate IsLineBreak(c: char) {
    c == '\n' || c == '\r' || c as int == 11 || c as int == 12 || 28 <= c as int <= 30
  }

  /** The first line boundary at or after `from`, or |s|. */
  function LineEnd(s: string, from: nat): (i: nat)
    requires from <= |s|
    ensures from <= i <= |s| && (i < |s| ==> IsLineBreak(s[i]))
    ensures forall j :: from <= j < i ==> !IsLineBreak(s[j])
    decreases |s| - from
  {
    if from == |s| || IsLineBreak(s[from]) then from else LineEnd(s, from + 1)
  }

  /** Python's `s.splitlines()`: a final line break does not start an empty line. */
  function SplitLines(s: string): (lines: seq<string>)
    decreases |s|
  {
    if s == [] then []
    else
      var i := LineEnd(s, 0);
      if i == |s| then [s]
      else
        var w := if s[i] == '\r' && i + 1 < |s| && s[i + 1] == '\n' then 2 else 1;
        [s[..i]] + SplitLines(s[i + w..])
  }

  /** Lines are pieces of the text, so they inherit the absence of a pattern. */
  lemma {:induction false} SplitLinesAbsent(s: string, p: string)
    requires !Contains(s, p)
    ensures forall k :: 0 <= k < |SplitLines(s)| ==> !Contains(SplitLines(s)[k], p)
    decreases |s|
  {
    if s != [] {
      var i := LineEnd(s, 0);
      if i < |s| {
        var w := if s[i] == '\r' && i + 1 < |s| && s[i + 1] == '\n' then 2 else 1;
        SliceAbsent(s, p, 0, i);
        SliceAbsent(s, p, i + w, |s|);
        assert s[..i] == s[0..i];
        assert s[i + w..] == s[i + w..|s|];
        SplitLinesAbsent(s[i + w..], p);
      } else {
        assert s == s[0..|s|];
      }
    }
  }

  /** Joining pieces that lack `p` with a separator character foreign to `p` creates no occurrence. */
  lemma {:induction false} JoinAbsent(c: char, parts: seq<string>, p: string)
    requires |p| > 0 && c !in p
    requires forall k :: 0 <= k < |parts| ==> !Contains(parts[k], p)
    ensures !Contains(Join([c], parts), p)
    decreases |parts|
  {
    if |parts| > 1 {
      JoinAbsent(c, parts[1..], p);
      GlueAbsent(parts[0], c, Join([c], parts[1..]), p);
      assert parts[0] + [c] + Join([c], parts[1..]) == Join([c], parts);
    }
  }

  /** A line without a line boundary: the lines of `"\n".join(ls) + "\n"` are `ls` again. */
  predicate NoLineBreak(s: string) {
    forall i :: 0 <= i < |s| ==> !IsLineBreak(s[i])
  }

  /** A line without a boundary, then "\n", then the rest: the line comes first. */
  lemma SplitLinesCons(a: string, b: string)
    requires NoLineBreak(a)
    ensures SplitLines(a + "\n" + b) == [a] + SplitLines(b)
  {
    var s := a + "\n" + b;
    forall j | 0 <= j < |a| ensures !IsLineBreak(s[j]) {
      assert s[j] == a[j];
    }
    assert s[|a|] == '\n';
    assert LineEnd(s, 0) == |a|;
    assert s[..|a|] == a;
    assert s[|a| + 1..] == b;
  }

  lemma NoLineBreakConcat(a: string, b: string)
    requires NoLineBreak(a) && NoLineBreak(b)
    ensures NoLineBreak(a + b)
  {
    forall i | 0 <= i < |a + b| ensures !IsLineBreak((a + b)[i]) {
      if i >= |a| {
        assert (a + b)[i] == b[i - |a|];
      }
    }
  }

  /** A non-empty string without a line boundary is a single line. */
  lemma SplitLinesSingle(a: string)
    requires a != [] && NoLineBreak(a)
    ensures SplitLines(a) == [a]
  {
    assert LineEnd(a, 0) == |a|;
  }

  lemma {:induction false} SplitLinesOfJoined(ls: seq<string>)
    requires |ls| > 0
    requires forall k :: 0 <= k < |ls| ==> NoLineBreak(ls[k])
    ensures SplitLines(Join("\n", ls) + "\n") == ls
    decreases |ls|
  {
    var rest := if |ls| == 1 then "" else Join("\n", ls[1..]) + "\n";
    JoinedShape(ls, rest);
    SplitLinesCons(ls[0], rest);
    if |ls| > 1 {
      var tail := ls[1..];
      assert forall k :: 0 <= k < |tail| ==> tail[k] == ls[k + 1];
      SplitLinesOfJoined(tail);
    }
    ConsTail(ls, SplitLines(rest));
  }

  lemma JoinedShape(ls: seq<string>, rest: string)
    requires |ls| > 0 && rest == if |ls| == 1 then "" else Join("\n", ls[1..]) + "\n"
    ensures Join("\n", ls) + "\n" == ls[0] + "\n" + rest
  {
  }

  lemma ConsTail(ls: seq<string>, t: seq<string>)
    requires |ls| > 0 && t == ls[1..]
    ensures [ls[0]] + t == ls
  {
  }

  // ---------------------------------------------------------------------------
  // str.split() with no separator

  /** The first Python whitespace at or after `from`, or |s|. */
  function SpaceIndex(s: string, from: nat): (i: nat)
    requires from <= |s|
    ensures from <= i <= |s| && (i < |s| ==> IsSpace(s[i], Python))
    ensures forall j :: from <= j < i ==> !IsSpace(s[j], Python)
    decreases |s| - from
  {
    if from == |s| || IsSpace(s[from], Python) then from else SpaceIndex(s, from + 1)
  }

  predicate NoSpace(s: string) {
    forall i :: 0 <= i < |s| ==> !IsSpace(s[i], Python)
  }

  /** A word of str.split(): non-empty, without whitespace. */
  predicate IsWord(w: string) {
    w != [] && NoSpace(w)
  }

  /** Python's `s.split()`: the maximal runs of non-whitespace characters. */
  function Words(s: string): (ws: seq<string>)
    ensures forall k :: 0 <= k < |ws| ==> IsWord(ws[k])
    decreases |s|
  {
    var t := TrimStart(s, Python);
    TrimStartSpec(s, Python);
    if t == [] then []
    else
      var n := SpaceIndex(t, 0);
      SpaceIndexPrefix(t, n);
      var rest := Words(t[n..]);
      assert forall j :: 0 < j <= |rest| ==> ([t[..n]] + rest)[j] == rest[j - 1];
      [t[..n]] + rest
  }

  lemma SpaceIndexPrefix(t: string, k: nat)
    requires t != [] && !IsSpace(t[0], Python) && k == SpaceIndex(t, 0)
    ensures IsWord(t[..k])
  {
    forall i | 0 <= i < k ensures !IsSpace(t[..k][i], Python) {
      assert t[..k][i] == t[i];
    }
  }

  /** A string has no words exactly when it is blank. */
  lemma WordsEmptyIffBlank(s: string)
    ensures Words(s) == [] <==> AllSpace(s, Python)
  {
    var t := TrimStart(s, Python);
    TrimStartSpec(s, Python);
    if t == [] {
      assert s[..|s|] == s;
    } else {
      assert !IsSpace(s[|s| - |t|], Python);
    }
  }

  /** Joining words with single spaces and splitting again gives the same words. */
  lemma {:induction false} WordsOfJoined(ws: seq<string>)
    requires forall k :: 0 <= k < |ws| ==> IsWord(ws[k])
    ensures Words(Join(" ", ws)) == ws
    decreases |ws|
  {
    if |ws| == 1 {
      WordsSingle(ws[0]);
    } else if |ws| > 1 {
      WordsCons(ws);
      WordsOfJoined(ws[1..]);
      assert ws == [ws[0]] + ws[1..];
    }
  }

  /** The first word of a space-joined list is split off whole. */
  lemma WordsFirst(ws: seq<string>)
    requires |ws| > 0 && IsWord(ws[0])
    ensures Words(Join(" ", ws)) == [ws[0]] + Words(if |ws| == 1 then "" else " " + Join(" ", ws[1..]))
  {
    var s := Join(" ", ws);
    var w := ws[0];
    var rest := if |ws| == 1 then "" else " " + Join(" ", ws[1..]);
    assert s == w + rest;
    assert s[0] == w[0];
    assert TrimStart(s, Python) == s;
    forall j | 0 <= j < |w| ensures !IsSpace(s[j], Python) {
      assert s[j] == w[j];
    }
    if |ws| > 1 {
      assert s[|w|] == ' ';
    }
    assert SpaceIndex(s, 0) == |w|;
    assert s[..|w|] == w && s[|w|..] == rest;
  }

  /** A single word splits to itself. */
  lemma WordsSingle(w: string)
    requires IsWord(w)
    ensures Words(w) == [w]
  {
    WordsFirst([w]);
    assert Words("") == [];
  }

  /** Splitting a space-joined list of several words yields the first word, then the rest's words. */
  lemma WordsCons(ws: seq<string>)
    requires |ws| > 1 && IsWord(ws[0]) && IsWord(ws[1])
    ensures Words(Join(" ", ws)) == [ws[0]] + Words(Join(" ", ws[1..]))
  {
    WordsFirst(ws);
    JoinStartsWithWord(ws[1..]);
    WordsSkipSpace(Join(" ", ws[1..]));
  }

  /** A leading space does not change the words of a string that starts with a non-space. */
  lemma WordsSkipSpace(t: string)
    requires t != [] && !IsSpace(t[0], Python)
    ensures Words(" " + t) == Words(t)
  {
    assert (" " + t)[1..] == t;
    assert TrimStart(t, Python) == t;
    assert TrimStart(" " + t, Python) == t;
  }

  /** Words joined by spaces begin with the first word's first character. */
  lemma JoinStartsWithWord(ws: seq<string>)
    requires |ws| > 0 && IsWord(ws[0])
    ensures Join(" ", ws) != [] && Join(" ", ws)[0] == ws[0][0]
  {
    if |ws| > 1 {
      assert Join(" ", ws) == ws[0] + " " + Join(" ", ws[1..]);
    }
  }

  // ---------------------------------------------------------------------------
  // ASCII case mapping

  function UpperChar(c: char): char {
    if 'a' <= c <= 'z' then (c as int - 32) as char else c
  }

  function LowerChar(c: char): char {
    if 'A' <= c <= 'Z' then (c as int + 32) as char else c
  }

  /** Python's str.upper() on ASCII text. */
  function Upper(s: string): (r: string)
    ensures |r| == |s| && forall i :: 0 <= i < |s| ==> r[i] == UpperChar(s[i])
  {
    seq(|s|, i requires 0 <= i < |s| => UpperChar(s[i]))
  }

  function Lower(s: string): (r: string)
    ensures |r| == |s| && forall i :: 0 <= i < |s| ==> r[i] == LowerChar(s[i])
  {
    seq(|s|, i requires 0 <= i < |s| => LowerChar(s[i]))
  }

  /** Whole-string match of a case-insensitive regular expression (ASCII case folding). */
  predicate EqualsIgnoreCase(a: string, b: string) {
    Lower(a) == Lower(b)
  }

  /** Unanchored case-insensitive match. */
  predicate ContainsIgnoreCase(a: string, b: string) {
    Contains(Lower(a), Lower(b))
  }

  // ---------------------------------------------------------------------------
  // Integer formatting, as Python's str(int) and f-strings

  function DigitChar(d: nat): char
    requires d < 10
  {
    "0123456789"[d]
  }

  function NatToString(n: nat): (r: string)
    ensures |r| > 0
    decreases n
  {
    if n < 10 then [DigitChar(n)] else NatToString(n / 10) + [DigitChar(n % 10)]
  }

  function IntToString(i: int): (r: string)
    ensures |r| > 0
  {
    if i < 0 then "-" + NatToString(-i) else NatToString(i)
  }
}
