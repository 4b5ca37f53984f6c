/** The user repository's pure part: the output projection and the query builders. */
module UserRepo {
  import opened Wrappers
  import opened Strings
  import opened Documents

  /** The seven fields a user is presented with. */
  const UserFields: set<string> :=
    {"UserID", "FirstName", "LastName", "DateOfBirth", "ProfessionalTitle", "Summary", "skills"}

  /**
   * to_user_output: no record (None or an empty record) gives None; otherwise
   * exactly the seven user fields, each copied (None when absent).
   */
  function ToUserOutput(doc: Option<Doc>): (r: Option<Doc>)
    ensures r.None? <==> doc.None? || doc.value == map[]
    ensures r.Some? ==> r.value.Keys == UserFields
    ensures r.Some? ==> forall k :: k in UserFields ==> r.value[k] == Get(doc.value, k)
  {
    if doc.None? || doc.value == map[] then None
    else
      var d := doc.value;
      Some(map[
        "UserID" := Get(d, "UserID"),
        "FirstName" := Get(d, "FirstName"),
        "LastName" := Get(d, "LastName"),
        "DateOfBirth" := Get(d, "DateOfBirth"),
        "ProfessionalTitle" := Get(d, "ProfessionalTitle"),
        "Summary" := Get(d, "Summary"),
        "skills" := Get(d, "skills")])
  }

  /** Projecting a projection changes nothing. */
  lemma ToUserOutputIdempotent(doc: Option<Doc>)
    ensures ToUserOutput(ToUserOutput(doc)) == ToUserOutput(doc)
  {
    if ToUserOutput(doc).Some? {
      var p := ToUserOutput(doc).value;
      assert "UserID" in p;
      var pp := ToUserOutput(Some(p)).value;
      assert pp.Keys == p.Keys;
    }
  }

  /** Fields outside the seven never reach the output. */
  lemma ToUserOutputIgnoresExtra(d: Doc, k: string, v: Value)
    requires k !in UserFields && d != map[]
    ensures ToUserOutput(Some(d[k := v])) == ToUserOutput(Some(d))
  {
    var a := ToUserOutput(Some(d[k := v])).value;
    var b := ToUserOutput(Some(d)).value;
    assert a.Keys == b.Keys;
  }

  /** A truthy optional string argument: given and not empty. */
  predicate Given(s: Option<string>) {
    s.Some? && s.value != []
  }

  /** The condition "^" + re.escape(name) + "$" with option "i": the whole field, case-insensitively. */
  function Anchored(name: string): Cond {
    Regex(Pattern("^", name, "$"), "i")
  }

  /** name_filter_ci: a whole-name, case-insensitive condition for each given name. */
  function NameFilterCi(first: Option<string>, last: Option<string>): (q: Filter)
    ensures "FirstName" in q <==> Given(first)
    ensures "LastName" in q <==> Given(last)
    ensures q.Keys <= {"FirstName", "LastName"}
    ensures "FirstName" in q ==> q["FirstName"] == Anchored(first.value)
    ensures "LastName" in q ==> q["LastName"] == Anchored(last.value)
  {
    var q: Filter := if Given(first) then map["FirstName" := Anchored(first.value)] else map[];
    if Given(last) then q["LastName" := Anchored(last.value)] else q
  }

  /** A given name matches a stored string field equal to it up to case. */
  predicate NameIs(d: Doc, key: string, name: Option<string>) {
    Given(name) ==> Get(d, key).Str? && EqualsIgnoreCase(Get(d, key).s, name.value)
  }

  /** The name filter selects exactly the records whose given names agree up to case. */
  lemma NameFilterMatches(d: Doc, first: Option<string>, last: Option<string>)
    ensures Matches(d, NameFilterCi(first, last)) <==> NameIs(d, "FirstName", first) && NameIs(d, "LastName", last)
  {
    var q := NameFilterCi(first, last);
    if NameIs(d, "FirstName", first) && NameIs(d, "LastName", last) {
      forall k | k in q ensures Holds(q[k], Get(d, k)) {
        assert k == "FirstName" || k == "LastName";
      }
    }
    if Matches(d, q) {
      if Given(first) {
        assert Holds(q["FirstName"], Get(d, "FirstName"));
      }
      if Given(last) {
        assert Holds(q["LastName"], Get(d, "LastName"));
      }
    }
  }

  /** build_filter: the name filter, plus an exact DateOfBirth condition when a date is given. */
  function BuildFilter(first: Option<string>, last: Option<string>, dob: Option<string>): (q: Filter)
    ensures "DateOfBirth" in q <==> Given(dob)
    ensures "DateOfBirth" in q ==> q["DateOfBirth"] == Equals(Str(dob.value))
    ensures forall k :: k != "DateOfBirth" ==> (k in q <==> k in NameFilterCi(first, last))
    ensures forall k :: k in q && k != "DateOfBirth" ==> q[k] == NameFilterCi(first, last)[k]
  {
    var q := NameFilterCi(first, last);
    if Given(dob) then q["DateOfBirth" := Equals(Str(dob.value))] else q
  }

  /** The filter is empty exactly when no argument is given. */
  lemma BuildFilterEmpty(first: Option<string>, last: Option<string>, dob: Option<string>)
    ensures BuildFilter(first, last, dob) == map[] <==> !Given(first) && !Given(last) && !Given(dob)
  {
    var q := BuildFilter(first, last, dob);
    if Given(first) {
      assert "FirstName" in q;
    }
    if Given(last) {
      assert "LastName" in q;
    }
    if Given(dob) {
      assert "DateOfBirth" in q;
    }
  }
}
