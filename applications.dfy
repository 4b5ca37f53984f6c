/** The pure steps of the application resolvers: the list filter and the parsing of a full name. */
module Applications {
  import opened Wrappers
  import opened Errors
  import opened Strings
  import opened Documents

  /**
   * The filter of `applications`: each argument is used only when it is
   * truthy, so an id of 0 or an empty status is ignored.
   */
  function ApplicationFilter(userId: Option<int>, jobId: Option<int>, status: Option<string>): (q: Filter)
    ensures "userId" in q <==> userId.Some? && userId.value != 0
    ensures "jobId" in q <==> jobId.Some? && jobId.value != 0
    ensures "status" in q <==> status.Some? && status.value != []
    ensures q.Keys <= {"userId", "jobId", "status"}
    ensures "userId" in q ==> q["userId"] == Equals(Int(userId.value))
    ensures "jobId" in q ==> q["jobId"] == Equals(Int(jobId.value))
    ensures "status" in q ==> q["status"] == Equals(Str(status.value))
  {
    var q: Filter := if userId.Some? && userId.value != 0 then map["userId" := Equals(Int(userId.value))] else map[];
    var q := if jobId.Some? && jobId.value != 0 then q["jobId" := Equals(Int(jobId.value))] else q;
    if status.Some? && status.value != [] then q["status" := Equals(Str(status.value))] else q
  }

  /** An id of 0 selects the same applications as no id at all. */
  lemma ZeroIdIgnored(jobId: Option<int>, status: Option<string>)
    ensures ApplicationFilter(Some(0), jobId, status) == ApplicationFilter(None, jobId, status)
  {
  }

  /** The name parts `apply` looks a user up by. */
  datatype NameParts = NameParts(first: string, last: Option<string>)

  const EmptyNameMessage: string := "User name cannot be empty."

  /**
   * The name parsing of `apply`: strip, split on whitespace; the first word
   * is the first name, and the remaining words, joined by single spaces,
   * the last name.  A name with no words is rejected.
   */
  function ParseUserName(userName: string): (r: Result<NameParts, Error>)
    ensures r.Failure? <==> AllSpace(userName, Python)
    ensures r.Failure? ==> r.error == ValueError(EmptyNameMessage)
    ensures r.Success? ==> IsWord(r.value.first)
    ensures r.Success? && r.value.last.Some? ==> r.value.last.value != []
    ensures r.Success? ==>
      var ws := Words(Strip(userName, Python));
      |ws| > 0 && r.value.first == ws[0] && r.value.last == if |ws| == 1 then None else Some(Join(" ", ws[1..]))
  {
    var parts := Words(Strip(userName, Python));
    BlankIffNoWords(userName);
    if |parts| == 0 then Failure(ValueError(EmptyNameMessage))
    else if |parts| == 1 then Success(NameParts(parts[0], None))
    else
      JoinStartsWithWord(parts[1..]);
      Success(NameParts(parts[0], Some(Join(" ", parts[1..]))))
  }

  /** A stripped name has no words exactly when the name is blank. */
  lemma BlankIffNoWords(s: string)
    ensures Words(Strip(s, Python)) == [] <==> AllSpace(s, Python)
  {
    WordsEmptyIffBlank(Strip(s, Python));
    StripEmptyIffBlank(s, Python);
  }

  /** Words joined by single spaces have no surrounding whitespace. */
  lemma {:induction false} JoinedWordsStripped(ws: seq<string>)
    requires |ws| > 0 && forall k :: 0 <= k < |ws| ==> IsWord(ws[k])
    ensures var s := Join(" ", ws); s != [] && !IsSpace(s[0], Python) && !IsSpace(s[|s| - 1], Python)
  {
    JoinStartsWithWord(ws);
    if |ws| > 1 {
      JoinedWordsStripped(ws[1..]);
      var rest := Join(" ", ws[1..]);
      assert Join(" ", ws) == ws[0] + " " + rest;
      assert Join(" ", ws)[|Join(" ", ws)| - 1] == rest[|rest| - 1];
    } else {
      assert Join(" ", ws) == ws[0];
    }
  }

  /**
   * Round trip: a name written as words separated by single spaces parses
   * back to its first word and, when there are more, the rest as written.
   */
  lemma ParseJoinedName(ws: seq<string>)
    requires |ws| > 0 && forall k :: 0 <= k < |ws| ==> IsWord(ws[k])
    ensures ParseUserName(Join(" ", ws)) ==
      Success(NameParts(ws[0], if |ws| == 1 then None else Some(Join(" ", ws[1..]))))
  {
    var s := Join(" ", ws);
    JoinedWordsStripped(ws);
    StrippedIsFixed(s, Python);
    WordsOfJoined(ws);
  }

  /** Surrounding whitespace is ignored. */
  lemma ParsePadded(l: string, name: string, t: string)
    requires AllSpace(l, Python) && AllSpace(t, Python)
    ensures ParseUserName(l + name + t) == ParseUserName(name)
  {
    StripPadded(l, name, t, Python);
    AllSpacePadded(l, name, t);
  }

  lemma AllSpacePadded(l: string, name: string, t: string)
    requires AllSpace(l, Python) && AllSpace(t, Python)
    ensures AllSpace(l + name + t, Python) <==> AllSpace(name, Python)
  {
    var s := l + name + t;
    if AllSpace(s, Python) {
      forall i | 0 <= i < |name| ensures IsSpace(name[i], Python) {
        assert name[i] == s[|l| + i];
      }
    }
    if AllSpace(name, Python) {
      forall i | 0 <= i < |s| ensures IsSpace(s[i], Python) {
        if i < |l| {
          assert s[i] == l[i];
        } else if i < |l| + |name| {
          assert s[i] == name[i - |l|];
        } else {
          assert s[i] == t[i - |l| - |name|];
        }
      }
    }
  }
}
