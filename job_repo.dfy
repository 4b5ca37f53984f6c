/** The job repository's pure part: the output projection and the query builder. */
module JobRepo {
  import opened Wrappers
  import opened Strings
  import opened Documents
  import opened UserRepo

  /** The eight fields a job is presented with. */
  const JobFields: set<string> :=
    {"jobId", "title", "company", "location", "salaryRange", "skillsRequired", "description", "postedAt"}

  /**
   * to_job_output: no record (None or an empty record) gives None; otherwise
   * exactly the eight job fields, each copied (None when absent).
   */
  function ToJobOutput(doc: Option<Doc>): (r: Option<Doc>)
    ensures r.None? <==> doc.None? || doc.value == map[]
    ensures r.Some? ==> r.value.Keys == JobFields
    ensures r.Some? ==> forall k :: k in JobFields ==> r.value[k] == Get(doc.value, k)
  {
    if doc.None? || doc.value == map[] then None
    else
      var d := doc.value;
      Some(map[
        "jobId" := Get(d, "jobId"),
        "title" := Get(d, "title"),
        "company" := Get(d, "company"),
        "location" := Get(d, "location"),
        "salaryRange" := Get(d, "salaryRange"),
        "skillsRequired" := Get(d, "skillsRequired"),
        "description" := Get(d, "description"),
        "postedAt" := Get(d, "postedAt")])
  }

  /** Fields outside the eight, such as an attached match score, never reach the output. */
  lemma ToJobOutputIgnoresExtra(d: Doc, k: string, v: Value)
    requires k !in JobFields && d != map[]
    ensures ToJobOutput(Some(d[k := v])) == ToJobOutput(Some(d))
  {
    var a := ToJobOutput(Some(d[k := v])).value;
    var b := ToJobOutput(Some(d)).value;
    assert a.Keys == b.Keys;
  }

  /** The condition ".*" + re.escape(title) + ".*" with option "i": anywhere in the field, case-insensitively. */
  function Partial(title: string): Cond {
    Regex(Pattern(".*", title, ".*"), "i")
  }

  /** build_job_filter: company and location must match whole, the title anywhere; all ignore case. */
  function BuildJobFilter(company: Option<string>, location: Option<string>, title: Option<string>): (q: Filter)
    ensures "company" in q <==> Given(company)
    ensures "location" in q <==> Given(location)
    ensures "title" in q <==> Given(title)
    ensures q.Keys <= {"company", "location", "title"}
    ensures "company" in q ==> q["company"] == Anchored(company.value)
    ensures "location" in q ==> q["location"] == Anchored(location.value)
    ensures "title" in q ==> q["title"] == Partial(title.value)
  {
    var q: Filter := if Given(company) then map["company" := Anchored(company.value)] else map[];
    var q := if Given(location) then q["location" := Anchored(location.value)] else q;
    if Given(title) then q["title" := Partial(title.value)] else q
  }

  /** A given title occurs, up to case, in a stored string field. */
  predicate TitleHas(d: Doc, title: Option<string>) {
    Given(title) ==> Get(d, "title").Str? && ContainsIgnoreCase(Get(d, "title").s, title.value)
  }

  /** The job filter selects exactly the records agreeing with every given argument. */
  lemma JobFilterMatches(d: Doc, company: Option<string>, location: Option<string>, title: Option<string>)
    ensures Matches(d, BuildJobFilter(company, location, title)) <==>
      NameIs(d, "company", company) && NameIs(d, "location", location) && TitleHas(d, title)
  {
    var q := BuildJobFilter(company, location, title);
    if NameIs(d, "company", company) && NameIs(d, "location", location) && TitleHas(d, title) {
      forall k | k in q ensures Holds(q[k], Get(d, k)) {
        assert k == "company" || k == "location" || k == "title";
      }
    }
    if Matches(d, q) {
      if Given(company) {
        assert Holds(q["company"], Get(d, "company"));
      }
      if Given(location) {
        assert Holds(q["location"], Get(d, "location"));
      }
      if Given(title) {
        assert Holds(q["title"], Get(d, "title"));
      }
    }
  }

  /** With every argument absent or empty the filter is empty and selects every job. */
  lemma NoJobArguments(docs: seq<Doc>, company: Option<string>, location: Option<string>, title: Option<string>)
    requires !Given(company) && !Given(location) && !Given(title)
    ensures BuildJobFilter(company, location, title) == map[]
    ensures Find(docs, BuildJobFilter(company, location, title)) == docs
  {
    FindAll(docs);
  }
}
