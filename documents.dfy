/**
 * The document store behind the repositories: records are maps from field
 * names to values, queries are maps from field names to conditions, and a
 * collection is the sequence of its records in storage order.  Only the
 * collection operations the resolvers use are modelled: find, find-one,
 * skip/limit, find-one-and-update, update-many, delete-one and delete-many.
 */
module Documents {
  import opened Wrappers
  import opened Strings

  /** A field value. `Null` is Python's None (and a stored null). */
  datatype Value = Null | Int(i: int) | Str(s: string) | StrList(items: seq<string>)

  /** Python's truth value of a field: None, 0, "" and [] are false. */
  predicate Truthy(v: Value) {
    match v
    case Null => false
    case Int(i) => i != 0
    case Str(s) => s != []
    case StrList(l) => l != []
  }

  /** A record, or a dictionary of arguments. */
  type Doc = map<string, Value>

  /** dict.get(key): the stored value, None when the key is absent. */
  function Get(d: Doc, key: string): Value {
    if key in d then d[key] else Null
  }

  /** A string field as an optional string; values of any other kind count as absent. */
  function Text(v: Value): Option<string> {
    if v.Str? then Some(v.s) else None
  }

  /** Python's f-string rendering of a value. */
  function Render(v: Value): string {
    match v
    case Null => "None"
    case Int(i) => IntToString(i)
    case Str(s) => s
    case StrList(l) => "[" + QuotedList(l) + "]"
  }

  function QuotedList(l: seq<string>): string {
    if l == [] then ""
    else if |l| == 1 then "'" + l[0] + "'"
    else "'" + l[0] + "', " + QuotedList(l[1..])
  }

  // ---------------------------------------------------------------------------
  // Queries

  /** A regular expression written as prefix + re.escape(literal) + suffix; the escaping is kept symbolic. */
  datatype Pattern = Pattern(prefix: string, literal: string, suffix: string)

  /** One condition of a query: plain equality, or a `$regex` with its `$options`. */
  datatype Cond = Equals(v: Value) | Regex(pattern: Pattern, options: string)

  /** A query document: every listed field must satisfy its condition. */
  type Filter = map<string, Cond>

  /**
   * How the store evaluates an escaped pattern: "^" … "$" matches the whole
   * string, any other framing (the ".*" … ".*" the repositories build)
   * matches anywhere; option "i" compares case-insensitively.  Only string
   * fields can match a pattern.
   */
  predicate PatternMatches(p: Pattern, options: string, v: Value) {
    v.Str? &&
    var s := if options == "i" then Lower(v.s) else v.s;
    var lit := if options == "i" then Lower(p.literal) else p.literal;
    if p.prefix == "^" && p.suffix == "$" then s == lit else Contains(s, lit)
  }

  predicate Holds(c: Cond, v: Value) {
    match c
    case Equals(w) => v == w
    case Regex(p, options) => PatternMatches(p, options, v)
  }

  /** A record satisfies a query when each queried field satisfies its condition (a missing field reads as null). */
  predicate Matches(d: Doc, q: Filter) {
    forall k :: k in q ==> Holds(q[k], Get(d, k))
  }

  /** collection.find(q): the matching records, in storage order. */
  function Find(docs: seq<Doc>, q: Filter): (r: seq<Doc>)
    ensures |r| <= |docs|
    ensures forall d :: d in r <==> d in docs && Matches(d, q)
  {
    if docs == [] then []
    else (if Matches(docs[0], q) then [docs[0]] else []) + Find(docs[1..], q)
  }

  /** Matching keeps storage order: the matches of a concatenation are the matches of each part, in turn. */
  lemma {:induction false} FindAppend(a: seq<Doc>, b: seq<Doc>, q: Filter)
    ensures Find(a + b, q) == Find(a, q) + Find(b, q)
  {
    if a == [] {
      assert a + b == b;
    } else {
      assert (a + b)[1..] == a[1..] + b;
      FindAppend(a[1..], b, q);
    }
  }

  /** The empty query matches every record. */
  lemma {:induction false} FindAll(docs: seq<Doc>)
    ensures Find(docs, map[]) == docs
  {
    if docs != [] {
      FindAll(docs[1..]);
      assert docs == [docs[0]] + docs[1..];
    }
  }

  /** The position of the first matching record at or after `from`. */
  function FirstIndex(docs: seq<Doc>, q: Filter, from: nat): (r: Option<nat>)
    ensures r.Some? ==> from <= r.value < |docs| && Matches(docs[r.value], q)
    ensures forall j :: from <= j < |docs| && (r.None? || j < r.value) ==> !Matches(docs[j], q)
    decreases |docs| - from
  {
    if from >= |docs| then None
    else if Matches(docs[from], q) then Some(from)
    else FirstIndex(docs, q, from + 1)
  }

  /** collection.find_one(q): the first matching record, if any. */
  function FindOne(docs: seq<Doc>, q: Filter): (r: Option<Doc>)
    ensures r.None? <==> Find(docs, q) == []
    ensures r.Some? ==> r.value == Find(docs, q)[0]
  {
    FindOneIsFirst(docs, q);
    match FirstIndex(docs, q, 0)
    case None => None
    case Some(i) => Some(docs[i])
  }

  /** The first match by position is the head of the matches. */
  lemma {:induction false} FindOneIsFirst(docs: seq<Doc>, q: Filter)
    ensures FirstIndex(docs, q, 0).None? <==> Find(docs, q) == []
    ensures FirstIndex(docs, q, 0).Some? ==> docs[FirstIndex(docs, q, 0).value] == Find(docs, q)[0]
  {
    FirstIndexFind(docs, q, 0);
    assert docs[0..] == docs;
  }

  lemma {:induction false} FirstIndexFind(docs: seq<Doc>, q: Filter, from: nat)
    requires from <= |docs|
    ensures FirstIndex(docs, q, from).None? <==> Find(docs[from..], q) == []
    ensures FirstIndex(docs, q, from).Some? ==> docs[FirstIndex(docs, q, from).value] == Find(docs[from..], q)[0]
    decreases |docs| - from
  {
    if from < |docs| {
      assert docs[from..][1..] == docs[from + 1..];
      FirstIndexFind(docs, q, from + 1);
    }
  }

  /** The lookup the repositories use to fetch a record by its id field. */
  function ById(key: string, id: Value): Filter {
    map[key := Equals(id)]
  }

  // ---------------------------------------------------------------------------
  // skip / limit

  /** cursor.skip(n).limit(m): drop the first n records, then keep at most m (a limit of 0 keeps all). */
  function Page(docs: seq<Doc>, skip: Option<nat>, limit: Option<nat>): (r: seq<Doc>)
    ensures var start := if skip.Some? && skip.value < |docs| then skip.value else if skip.Some? then |docs| else 0;
      start + |r| <= |docs| &&
      (forall i :: 0 <= i < |r| ==> r[i] == docs[start + i]) &&
      (limit.None? || limit.value == 0 || limit.value >= |docs| - start ==> |r| == |docs| - start) &&
      (limit.Some? && 0 < limit.value < |docs| - start ==> |r| == limit.value)
  {
    var rest := if skip.None? then docs else if skip.value < |docs| then docs[skip.value..] else [];
    if limit.None? || limit.value == 0 || limit.value >= |rest| then rest else rest[..limit.value]
  }

  // ---------------------------------------------------------------------------
  // Updates and deletions

  /** A record after `$set`: the set fields overwrite, every other field is kept. */
  function SetFields(d: Doc, fields: Doc): (r: Doc)
    ensures r.Keys == d.Keys + fields.Keys
    ensures forall k :: k in r ==> r[k] == (if k in fields then fields[k] else d[k])
  {
    d + fields
  }

  /** A collection after an update, and what the update reports. */
  datatype Updated = Updated(docs: seq<Doc>, after: Option<Doc>)

  /**
   * find_one_and_update(q, {"$set": set}, return_document=AFTER): the first
   * matching record gets the set fields, and that record, as it is after the
   * update, is returned.
   */
  function UpdateFirst(docs: seq<Doc>, q: Filter, fields: Doc): (r: Updated)
    ensures |r.docs| == |docs|
    ensures r.after.None? <==> Find(docs, q) == []
    ensures r.after.None? ==> r.docs == docs
    ensures r.after.Some? ==>
      exists i :: 0 <= i < |docs| && FirstIndex(docs, q, 0) == Some(i) &&
                  r.docs == docs[i := SetFields(docs[i], fields)] && r.after == Some(SetFields(docs[i], fields))
  {
    FindOneIsFirst(docs, q);
    match FirstIndex(docs, q, 0)
    case None => Updated(docs, None)
    case Some(i) =>
      var d := SetFields(docs[i], fields);
      Updated(docs[i := d], Some(d))
  }

  /** With exactly one match, the update touches that record and no other. */
  lemma UpdateSoleMatch(docs: seq<Doc>, q: Filter, fields: Doc, i: nat)
    requires i < |docs| && Matches(docs[i], q)
    requires forall j :: 0 <= j < |docs| && j != i ==> !Matches(docs[j], q)
    ensures UpdateFirst(docs, q, fields) == Updated(docs[i := SetFields(docs[i], fields)], Some(SetFields(docs[i], fields)))
  {
    FindOneIsFirst(docs, q);
    assert FirstIndex(docs, q, 0) == Some(i);
  }

  /** A collection after a bulk update or deletion, with the reported count. */
  datatype Bulk = Bulk(docs: seq<Doc>, count: nat)

  /**
   * update_many(q, {"$set": set}): every matching record gets the set fields;
   * the count is `modified_count`, the records whose content actually changed.
   */
  function UpdateAll(docs: seq<Doc>, q: Filter, fields: Doc): (r: Bulk)
    ensures |r.docs| == |docs|
    ensures forall i :: 0 <= i < |docs| ==> r.docs[i] == if Matches(docs[i], q) then SetFields(docs[i], fields) else docs[i]
    ensures r.count <= |Find(docs, q)|
  {
    if docs == [] then Bulk([], 0)
    else
      var rest := UpdateAll(docs[1..], q, fields);
      var d := docs[0];
      var changed := Matches(d, q) && SetFields(d, fields) != d;
      var r := Bulk([if Matches(d, q) then SetFields(d, fields) else d] + rest.docs, rest.count + if changed then 1 else 0);
      PointwiseCons(docs, r.docs, d => if Matches(d, q) then SetFields(d, fields) else d);
      r
  }

  /** A sequence is the image of another when its head and its tail are. */
  lemma PointwiseCons(xs: seq<Doc>, ys: seq<Doc>, f: Doc -> Doc)
    requires |xs| == |ys| > 0 && ys[0] == f(xs[0])
    requires forall i :: 0 <= i < |xs| - 1 ==> ys[1..][i] == f(xs[1..][i])
    ensures forall i :: 0 <= i < |xs| ==> ys[i] == f(xs[i])
  {
    forall i | 1 <= i < |xs| ensures ys[i] == f(xs[i]) {
      assert ys[i] == ys[1..][i - 1] && xs[i] == xs[1..][i - 1];
    }
  }

  /** The reported count is `modified_count`: exactly the positions whose record changed. */
  lemma {:induction false} UpdateAllCountsChanges(docs: seq<Doc>, q: Filter, fields: Doc)
    ensures UpdateAll(docs, q, fields).count == Differ(docs, UpdateAll(docs, q, fields).docs)
  {
    if docs != [] {
      var r, rest := UpdateAll(docs, q, fields), UpdateAll(docs[1..], q, fields);
      UpdateAllCountsChanges(docs[1..], q, fields);
      assert r.docs[1..] == rest.docs;
    }
  }

  /** The number of positions at which two equally long collections hold different records. */
  function Differ(a: seq<Doc>, b: seq<Doc>): nat
    requires |a| == |b|
  {
    if a == [] then 0 else (if a[0] != b[0] then 1 else 0) + Differ(a[1..], b[1..])
  }

  /** delete_one(q): the first matching record is removed; the count is 1 if there was one, else 0. */
  function DeleteFirst(docs: seq<Doc>, q: Filter): (r: Bulk)
    ensures r.count == (if Find(docs, q) == [] then 0 else 1)
    ensures r.count == 0 ==> r.docs == docs
    ensures r.count == 1 ==>
      exists i :: 0 <= i < |docs| && FirstIndex(docs, q, 0) == Some(i) &&
                  r.docs == docs[..i] + docs[i + 1..]
  {
    FindOneIsFirst(docs, q);
    match FirstIndex(docs, q, 0)
    case None => Bulk(docs, 0)
    case Some(i) => Bulk(docs[..i] + docs[i + 1..], 1)
  }

  /** delete_many(q): every matching record is removed; the count is the number of matches. */
  function DeleteAll(docs: seq<Doc>, q: Filter): (r: Bulk)
    ensures r.count == |Find(docs, q)|
    ensures |r.docs| + r.count == |docs|
    ensures forall d :: d in r.docs <==> d in docs && !Matches(d, q)
  {
    if docs == [] then Bulk([], 0)
    else
      var rest := DeleteAll(docs[1..], q);
      if Matches(docs[0], q) then Bulk(rest.docs, rest.count + 1)
      else Bulk([docs[0]] + rest.docs, rest.count)
  }

  /** Deletion keeps storage order: deleting from a concatenation deletes from each part, in turn. */
  lemma {:induction false} DeleteAllAppend(a: seq<Doc>, b: seq<Doc>, q: Filter)
    ensures DeleteAll(a + b, q).docs == DeleteAll(a, q).docs + DeleteAll(b, q).docs
    ensures DeleteAll(a + b, q).count == DeleteAll(a, q).count + DeleteAll(b, q).count
  {
    if a == [] {
      assert a + b == b;
    } else {
      assert (a + b)[0] == a[0] && (a + b)[1..] == a[1..] + b;
      DeleteAllAppend(a[1..], b, q);
      var rest, restA := DeleteAll(a[1..] + b, q), DeleteAll(a[1..], q);
      if Matches(a[0], q) {
        assert DeleteAll(a + b, q) == Bulk(rest.docs, rest.count + 1);
        assert DeleteAll(a, q) == Bulk(restA.docs, restA.count + 1);
      } else {
        assert DeleteAll(a + b, q) == Bulk([a[0]] + rest.docs, rest.count);
        assert DeleteAll(a, q) == Bulk([a[0]] + restA.docs, restA.count);
        ConsAssoc(a[0], restA.docs, DeleteAll(b, q).docs);
      }
    }
  }

  lemma ConsAssoc(x: Doc, s: seq<Doc>, t: seq<Doc>)
    ensures [x] + s + t == [x] + (s + t)
  {
  }

  /** The survivors and the matches together are the collection, each record as often as it was stored. */
  lemma {:induction false} DeleteAllSplits(docs: seq<Doc>, q: Filter)
    ensures multiset(DeleteAll(docs, q).docs) + multiset(Find(docs, q)) == multiset(docs)
  {
    if docs != [] {
      var d, tail := docs[0], docs[1..];
      DeleteAllSplits(tail, q);
      assert docs == [d] + tail;
      var kept, found := DeleteAll(tail, q).docs, Find(tail, q);
      if Matches(d, q) {
        assert DeleteAll(docs, q).docs == kept && Find(docs, q) == [d] + found;
      } else {
        assert DeleteAll(docs, q).docs == [d] + kept && Find(docs, q) == found;
      }
    }
  }

  /** With exactly one match, deleting one record and deleting all matches agree. */
  lemma DeleteSoleMatch(docs: seq<Doc>, q: Filter, i: nat)
    requires i < |docs| && Matches(docs[i], q)
    requires forall j :: 0 <= j < |docs| && j != i ==> !Matches(docs[j], q)
    ensures DeleteFirst(docs, q) == Bulk(docs[..i] + docs[i + 1..], 1)
  {
    FindOneIsFirst(docs, q);
    assert FirstIndex(docs, q, 0) == Some(i);
  }

  /** Records that a query does not match survive a deletion by that query. */
  lemma {:induction false} DeleteFirstKeepsOthers(docs: seq<Doc>, q: Filter, d: Doc)
    requires d in docs && !Matches(d, q)
    ensures d in DeleteFirst(docs, q).docs
  {
    var r := DeleteFirst(docs, q);
    if r.count == 1 {
      var i :| 0 <= i < |docs| && FirstIndex(docs, q, 0) == Some(i) && r.docs == docs[..i] + docs[i + 1..];
      var j :| 0 <= j < |docs| && docs[j] == d;
      assert j != i;
      if j < i {
        assert r.docs[j] == d;
      } else {
        assert r.docs[j - 1] == d;
      }
    }
  }
}
