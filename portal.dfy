/**
 * The GraphQL resolvers of the job portal as methods of one store: the
 * user profiles, jobs, applications and login accounts it holds, and the
 * three id counters (one shared by profiles and accounts, one for jobs, one
 * for applications).  Each mutation states the error it raises, in the
 * order the checks run, and the whole new state; on an error nothing
 * changes.
 */
module Portal {
  import opened Wrappers
  import opened Errors
  import opened Strings
  import opened Documents
  import opened Validators
  import opened UserRepo
  import opened JobRepo
  import opened Recommendation
  import opened Applications
  import opened Resolvers

  /** The projection of each listed user record. */
  function UserOutputs(docs: seq<Doc>): (r: seq<Option<Doc>>)
    ensures |r| == |docs| && forall i :: 0 <= i < |docs| ==> r[i] == ToUserOutput(Some(docs[i]))
  {
    seq(|docs|, i requires 0 <= i < |docs| => ToUserOutput(Some(docs[i])))
  }

  /** The projection of each listed job record. */
  function JobOutputs(docs: seq<Doc>): (r: seq<Option<Doc>>)
    ensures |r| == |docs| && forall i :: 0 <= i < |docs| ==> r[i] == ToJobOutput(Some(docs[i]))
  {
    seq(|docs|, i requires 0 <= i < |docs| => ToJobOutput(Some(docs[i])))
  }

  /** The ranked records, each with its score attached. */
  function Scoredocs(xs: seq<Scored>): (r: seq<Doc>)
    ensures |r| == |xs| && forall i :: 0 <= i < |xs| ==> r[i] == WithMatchScore(xs[i])
  {
    seq(|xs|, i requires 0 <= i < |xs| => WithMatchScore(xs[i]))
  }

  function NotFound(what: string, id: int, suffix: string): string {
    what + " with ID " + IntToString(id) + " not found" + suffix + "."
  }

  /** The input `apply` hands to createApplication: the two ids and no notes. */
  lemma AppInputFields(userId: Value, jobId: Value)
    ensures var input := map["userId" := userId, "jobId" := jobId];
      Get(input, "userId") == userId && Get(input, "jobId") == jobId && Get(input, "notes") == Null
  {
  }

  /** The members of a sequence with one record appended. */
  lemma AppendMembers(docs: seq<Doc>, doc: Doc)
    ensures forall d :: d in docs + [doc] <==> d in docs || d == doc
  {
  }

  class Store {
    var users: seq<Doc>
    var jobs: seq<Doc>
    var applications: seq<Doc>
    var accounts: seq<Account>
    /** The last id handed out to a user profile or account. */
    var lastUserId: int
    var lastJobId: int
    var lastAppId: int

    constructor ()
      ensures users == [] && jobs == [] && applications == [] && accounts == []
      ensures lastUserId == 0 && lastJobId == 0 && lastAppId == 0
    {
      users := [];
      jobs := [];
      applications := [];
      accounts := [];
      lastUserId := 0;
      lastJobId := 0;
      lastAppId := 0;
    }

    /** Every integer user id and every account id was handed out by the counter. */
    predicate UserIdsIssued()
      reads this
    {
      (forall d :: d in users && Get(d, "UserID").Int? ==> Get(d, "UserID").i <= lastUserId) &&
      (forall a :: a in accounts ==> a.id <= lastUserId)
    }

    // -------------------------------------------------------------------------
    // Users

    /**
     * `users`: callers who are not logged in, and callers who are neither
     * recruiters nor admins, are refused before any lookup; a truthy date
     * must be well formed; then the matching profiles after skip and limit.
     */
    method Users(caller: Caller, limit: Option<nat>, skip: Option<nat>,
                 first: Option<string>, last: Option<string>, dob: Option<string>)
      returns (r: Result<seq<Option<Doc>>, Error>)
      ensures !Authenticated(caller) ==> r == Failure(PermissionError(AuthRequired))
      ensures Authenticated(caller) && Role(caller) != Str("recruiter") && Role(caller) != Str("admin") ==>
        r == Failure(PermissionError(ListDenied))
      ensures Authenticated(caller) && (Role(caller) == Str("recruiter") || Role(caller) == Str("admin")) ==>
        r == if CheckDateArgument(dob).Some? then Failure(CheckDateArgument(dob).value)
             else Success(UserOutputs(Page(Find(users, BuildFilter(first, last, dob)), skip, limit)))
    {
      if !Authenticated(caller) {
        return Failure(PermissionError(AuthRequired));
      }
      var role := Role(caller);
      if role != Str("recruiter") && role != Str("admin") {
        return Failure(PermissionError(ListDenied));
      }
      var e := CheckDateArgument(dob);
      if e.Some? {
        return Failure(e.value);
      }
      var q := BuildFilter(first, last, dob);
      r := Success(UserOutputs(Page(Find(users, q), skip, limit)));
    }

    /** `userById`: the projection of the profile with that id; None, not an error, when there is none. */
    method UserById(userId: int) returns (r: Option<Doc>)
      ensures r.None? <==> forall d :: d in users ==> Get(d, "UserID") != Int(userId)
      ensures r.Some? ==> r.value.Keys == UserFields && r.value["UserID"] == Int(userId)
      ensures r == ToUserOutput(FindOne(users, ById("UserID", Int(userId))))
    {
      var found := FindOne(users, ById("UserID", Int(userId)));
      if found.Some? {
        assert found.value in Find(users, ById("UserID", Int(userId)));
        assert Matches(found.value, ById("UserID", Int(userId)));
      } else {
        forall d | d in users ensures Get(d, "UserID") != Int(userId) {
          assert !Matches(d, ById("UserID", Int(userId)));
        }
      }
      r := ToUserOutput(found);
    }

    /**
     * `createUser`: validates the names and the date, then inserts exactly
     * one profile under a fresh id, with the names stripped.
     */
    method CreateUser(input: Doc) returns (r: Result<Option<Doc>, Error>)
      modifies this
      ensures NewUserFields(input).Failure? ==> r == Failure(NewUserFields(input).error) && unchanged(this)
      ensures NewUserFields(input).Success? ==>
        lastUserId == old(lastUserId) + 1 &&
        users == old(users) + [UserRecord(lastUserId, NewUserFields(input).value)] &&
        r == Success(ToUserOutput(Some(UserRecord(lastUserId, NewUserFields(input).value))))
      ensures jobs == old(jobs) && applications == old(applications) && accounts == old(accounts)
      ensures lastJobId == old(lastJobId) && lastAppId == old(lastAppId)
      ensures old(UserIdsIssued()) ==> UserIdsIssued()
      ensures old(UserIdsIssued()) && r.Success? ==> forall d :: d in old(users) ==> Get(d, "UserID") != Int(lastUserId)
    {
      var fields := NewUserFields(input);
      if fields.Failure? {
        return Failure(fields.error);
      }
      lastUserId := lastUserId + 1;
      var doc := UserRecord(lastUserId, fields.value);
      AppendMembers(users, doc);
      users := users + [doc];
      r := Success(ToUserOutput(Some(doc)));
    }

    /**
     * `updateUser`: only an admin or the profile's owner; then the name
     * checks, the date step, and at least one non-None field; the profile
     * with that id, if any, gets the fields.  Names are checked but written
     * as given, not stripped.
     */
    method UpdateUser(caller: Caller, userId: int, input: Doc) returns (r: Result<Option<Doc>, Error>)
      modifies this
      ensures !Authenticated(caller) ==> r == Failure(PermissionError(AuthRequired))
      ensures Authenticated(caller) && !MayActOn(caller, userId) ==> r == Failure(PermissionError(UpdateDenied))
      ensures Authenticated(caller) && MayActOn(caller, userId) ==>
        if CheckName(input, "FirstName").Some? then r == Failure(CheckName(input, "FirstName").value)
        else if CheckName(input, "LastName").Some? then r == Failure(CheckName(input, "LastName").value)
        else if NormalizeDate(input).Failure? then r == Failure(NormalizeDate(input).error)
        else
          var fields := CleanUpdateInput(Some(NormalizeDate(input).value));
          var u := UpdateFirst(old(users), ById("UserID", Int(userId)), fields);
          if fields == map[] then r == Failure(ValueError("No fields provided to update"))
          else users == u.docs && r == Success(ToUserOutput(u.after))
      ensures r.Failure? ==> users == old(users)
      ensures jobs == old(jobs) && applications == old(applications) && accounts == old(accounts)
      ensures lastUserId == old(lastUserId) && lastJobId == old(lastJobId) && lastAppId == old(lastAppId)
    {
      if !Authenticated(caller) {
        return Failure(PermissionError(AuthRequired));
      }
      if !MayActOn(caller, userId) {
        return Failure(PermissionError(UpdateDenied));
      }
      var e := CheckName(input, "FirstName");
      if e.Some? {
        return Failure(e.value);
      }
      e := CheckName(input, "LastName");
      if e.Some? {
        return Failure(e.value);
      }
      var dated := NormalizeDate(input);
      if dated.Failure? {
        return Failure(dated.error);
      }
      var fields := CleanUpdateInput(Some(dated.value));
      if fields == map[] {
        return Failure(ValueError("No fields provided to update"));
      }
      var u := UpdateFirst(users, ById("UserID", Int(userId)), fields);
      users := u.docs;
      r := Success(ToUserOutput(u.after));
    }

    /**
     * `updateUserByName`: the date step, then the name checks, then a name
     * filter and a non-empty update are required, and exactly one profile
     * must match; only that profile changes.
     */
    method UpdateUserByName(first: Option<string>, last: Option<string>, input: Option<Doc>)
      returns (r: Result<Option<Doc>, Error>)
      modifies this
      ensures var given := input.GetOr(map[]);
        var q := NameFilterCi(first, last);
        var matches := Find(old(users), q);
        if NormalizeDate(given).Failure? then r == Failure(NormalizeDate(given).error)
        else if CheckName(given, "FirstName").Some? then r == Failure(CheckName(given, "FirstName").value)
        else if CheckName(given, "LastName").Some? then r == Failure(CheckName(given, "LastName").value)
        else if q == map[] then r == Failure(ValueError("Provide FirstName and/or LastName to identify the user"))
        else
          var fields := CleanUpdateInput(Some(NormalizeDate(given).value));
          if fields == map[] then r == Failure(ValueError("No fields provided to update"))
          else if |matches| == 0 then r == Failure(ValueError("No user matched the provided name filter"))
          else if |matches| > 1 then
            r == Failure(ValueError("Multiple users matched; include both FirstName and LastName to disambiguate"))
          else
            var u := UpdateFirst(old(users), q, fields);
            users == u.docs && r == Success(ToUserOutput(u.after))
      ensures r.Failure? ==> users == old(users)
      ensures jobs == old(jobs) && applications == old(applications) && accounts == old(accounts)
      ensures lastUserId == old(lastUserId) && lastJobId == old(lastJobId) && lastAppId == old(lastAppId)
    {
      var given := input.GetOr(map[]);
      var dated := NormalizeDate(given);
      if dated.Failure? {
        return Failure(dated.error);
      }
      var e := CheckName(given, "FirstName");
      if e.Some? {
        return Failure(e.value);
      }
      e := CheckName(given, "LastName");
      if e.Some? {
        return Failure(e.value);
      }
      var q := NameFilterCi(first, last);
      if q == map[] {
        return Failure(ValueError("Provide FirstName and/or LastName to identify the user"));
      }
      var fields := CleanUpdateInput(Some(dated.value));
      if fields == map[] {
        return Failure(ValueError("No fields provided to update"));
      }
      var matches := Find(users, q);
      if |matches| == 0 {
        return Failure(ValueError("No user matched the provided name filter"));
      }
      if |matches| > 1 {
        return Failure(ValueError("Multiple users matched; include both FirstName and LastName to disambiguate"));
      }
      var u := UpdateFirst(users, q, fields);
      users := u.docs;
      r := Success(ToUserOutput(u.after));
    }

    /**
     * `updateUsersByName`: only the date step (names are not checked), a
     * name filter and a non-empty update are required; every matching
     * profile gets the fields and the count of changed profiles is returned.
     */
    method UpdateUsersByName(first: Option<string>, last: Option<string>, input: Option<Doc>)
      returns (r: Result<nat, Error>)
      modifies this
      ensures var given := input.GetOr(map[]);
        var q := NameFilterCi(first, last);
        if NormalizeDate(given).Failure? then r == Failure(NormalizeDate(given).error)
        else if q == map[] then r == Failure(ValueError("Provide FirstName and/or LastName to filter users"))
        else
          var fields := CleanUpdateInput(Some(NormalizeDate(given).value));
          if fields == map[] then r == Failure(ValueError("No fields provided to update"))
          else users == UpdateAll(old(users), q, fields).docs && r == Success(UpdateAll(old(users), q, fields).count)
      ensures r.Failure? ==> users == old(users)
      ensures |users| == |old(users)|
      ensures jobs == old(jobs) && applications == old(applications) && accounts == old(accounts)
      ensures lastUserId == old(lastUserId) && lastJobId == old(lastJobId) && lastAppId == old(lastAppId)
    {
      var given := input.GetOr(map[]);
      var dated := NormalizeDate(given);
      if dated.Failure? {
        return Failure(dated.error);
      }
      var q := NameFilterCi(first, last);
      if q == map[] {
        return Failure(ValueError("Provide FirstName and/or LastName to filter users"));
      }
      var fields := CleanUpdateInput(Some(dated.value));
      if fields == map[] {
        return Failure(ValueError("No fields provided to update"));
      }
      var b := UpdateAll(users, q, fields);
      users := b.docs;
      r := Success(b.count);
    }

    /**
     * `deleteUser`: only an admin or the profile's owner; true exactly when
     * a profile with that id was removed.
     */
    method DeleteUser(caller: Caller, userId: int) returns (r: Result<bool, Error>)
      modifies this
      ensures !Authenticated(caller) ==> r == Failure(PermissionError(AuthRequired)) && users == old(users)
      ensures Authenticated(caller) && !MayActOn(caller, userId) ==> r == Failure(PermissionError(DeleteDenied)) && users == old(users)
      ensures Authenticated(caller) && MayActOn(caller, userId) ==>
        users == DeleteFirst(old(users), ById("UserID", Int(userId))).docs &&
        r == Success(exists d :: d in old(users) && Get(d, "UserID") == Int(userId))
      ensures jobs == old(jobs) && applications == old(applications) && accounts == old(accounts)
      ensures lastUserId == old(lastUserId) && lastJobId == old(lastJobId) && lastAppId == old(lastAppId)
    {
      if !Authenticated(caller) {
        return Failure(PermissionError(AuthRequired));
      }
      if !MayActOn(caller, userId) {
        return Failure(PermissionError(DeleteDenied));
      }
      var q := ById("UserID", Int(userId));
      var b := DeleteFirst(users, q);
      if b.count == 1 {
        var d := Find(users, q)[0];
        assert d in Find(users, q);
        assert Get(d, "UserID") == Int(userId) by {
          assert Matches(d, q);
        }
      } else {
        forall d | d in users ensures Get(d, "UserID") != Int(userId) {
          assert !Matches(d, q);
        }
      }
      users := b.docs;
      r := Success(b.count == 1);
    }

    /**
     * `deleteUserByFields`: a truthy date must be well formed and some
     * filter must be given; no match returns false and changes nothing,
     * several matches are an error, one match removes that profile.
     */
    method DeleteUserByFields(first: Option<string>, last: Option<string>, dob: Option<string>)
      returns (r: Result<bool, Error>)
      modifies this
      ensures var q := BuildFilter(first, last, dob);
        var matches := Find(old(users), q);
        if CheckDateArgument(dob).Some? then r == Failure(CheckDateArgument(dob).value) && users == old(users)
        else if q == map[] then
          r == Failure(ValueError("Provide at least one filter: FirstName, LastName, or DateOfBirth")) && users == old(users)
        else if |matches| == 0 then r == Success(false) && users == old(users)
        else if |matches| > 1 then
          r == Failure(ValueError("Multiple users matched; add more filters to target a single user")) && users == old(users)
        else
          r == Success(true) &&
          exists i :: 0 <= i < |old(users)| && Matches(old(users)[i], q) && users == old(users)[..i] + old(users)[i + 1..]
      ensures jobs == old(jobs) && applications == old(applications) && accounts == old(accounts)
      ensures lastUserId == old(lastUserId) && lastJobId == old(lastJobId) && lastAppId == old(lastAppId)
    {
      var e := CheckDateArgument(dob);
      if e.Some? {
        return Failure(e.value);
      }
      var q := BuildFilter(first, last, dob);
      if q == map[] {
        return Failure(ValueError("Provide at least one filter: FirstName, LastName, or DateOfBirth"));
      }
      var matches := Find(users, q);
      if |matches| == 0 {
        return Success(false);
      }
      if |matches| > 1 {
        return Failure(ValueError("Multiple users matched; add more filters to target a single user"));
      }
      var b := DeleteFirst(users, q);
      users := b.docs;
      r := Success(b.count == 1);
    }

    /** `deleteUsersByFields`: a truthy date must be well formed and some filter given; every match is removed and counted. */
    method DeleteUsersByFields(first: Option<string>, last: Option<string>, dob: Option<string>)
      returns (r: Result<nat, Error>)
      modifies this
      ensures var q := BuildFilter(first, last, dob);
        if CheckDateArgument(dob).Some? then r == Failure(CheckDateArgument(dob).value) && users == old(users)
        else if q == map[] then
          r == Failure(ValueError("Provide at least one filter: FirstName, LastName, or DateOfBirth")) && users == old(users)
        else
          r == Success(|Find(old(users), q)|) && users == DeleteAll(old(users), q).docs &&
          forall d :: d in users <==> d in old(users) && !Matches(d, q)
      ensures jobs == old(jobs) && applications == old(applications) && accounts == old(accounts)
      ensures lastUserId == old(lastUserId) && lastJobId == old(lastJobId) && lastAppId == old(lastAppId)
    {
      var e := CheckDateArgument(dob);
      if e.Some? {
        return Failure(e.value);
      }
      var q := BuildFilter(first, last, dob);
      if q == map[] {
        return Failure(ValueError("Provide at least one filter: FirstName, LastName, or DateOfBirth"));
      }
      var b := DeleteAll(users, q);
      users := b.docs;
      r := Success(b.count);
    }

    // -------------------------------------------------------------------------
    // Jobs: no resolver here looks at the caller.

    /** `jobs`: the projections of the jobs matching the filter, after skip and limit. */
    method Jobs(limit: Option<nat>, skip: Option<nat>, company: Option<string>, location: Option<string>,
                title: Option<string>) returns (r: seq<Option<Doc>>)
      ensures r == JobOutputs(Page(Find(jobs, BuildJobFilter(company, location, title)), skip, limit))
      ensures |r| <= |jobs|
    {
      r := JobOutputs(Page(Find(jobs, BuildJobFilter(company, location, title)), skip, limit));
    }

    /** `jobById`: the projection of the job with that id, or a not-found error. */
    method JobById(jobId: int) returns (r: Result<Option<Doc>, Error>)
      ensures r.Failure? <==> forall d :: d in jobs ==> Get(d, "jobId") != Int(jobId)
      ensures r.Failure? ==> r.error == ValueError(NotFound("Job", jobId, ""))
      ensures r.Success? ==> r.value.Some? && r.value.value.Keys == JobFields && r.value.value["jobId"] == Int(jobId)
      ensures r.Success? ==> r.value == ToJobOutput(FindOne(jobs, ById("jobId", Int(jobId))))
    {
      var q := ById("jobId", Int(jobId));
      var found := FindOne(jobs, q);
      if found.None? {
        forall d | d in jobs ensures Get(d, "jobId") != Int(jobId) {
          assert !Matches(d, q);
        }
        return Failure(ValueError(NotFound("Job", jobId, "")));
      }
      assert found.value in Find(jobs, q);
      assert Matches(found.value, q);
      r := Success(ToJobOutput(found));
    }

    /** `createJob`: the title must not be blank; one job is inserted under a fresh id with the title stripped. */
    method CreateJob(input: Doc, postedAt: string) returns (r: Result<Option<Doc>, Error>)
      modifies this
      ensures var title := RequireNonEmptyStr(Text(Get(input, "title")), "title");
        if title.Failure? then r == Failure(title.error) && unchanged(this)
        else
          lastJobId == old(lastJobId) + 1 &&
          jobs == old(jobs) + [JobRecord(lastJobId, title.value, input, postedAt)] &&
          r == Success(ToJobOutput(Some(JobRecord(lastJobId, title.value, input, postedAt))))
      ensures users == old(users) && applications == old(applications) && accounts == old(accounts)
      ensures lastUserId == old(lastUserId) && lastAppId == old(lastAppId)
    {
      var title := RequireNonEmptyStr(Text(Get(input, "title")), "title");
      if title.Failure? {
        return Failure(title.error);
      }
      lastJobId := lastJobId + 1;
      var doc := JobRecord(lastJobId, title.value, input, postedAt);
      jobs := jobs + [doc];
      r := Success(ToJobOutput(Some(doc)));
    }

    /**
     * `updateJob`: a given title must not be blank (it is written as given),
     * the update must not be empty, and the job must exist.
     */
    method UpdateJob(jobId: int, input: Doc) returns (r: Result<Option<Doc>, Error>)
      modifies this
      ensures var fields := CleanUpdateInput(Some(input));
        var u := UpdateFirst(old(jobs), ById("jobId", Int(jobId)), fields);
        if CheckName(input, "title").Some? then r == Failure(CheckName(input, "title").value) && jobs == old(jobs)
        else if fields == map[] then r == Failure(ValueError("No fields provided to update.")) && jobs == old(jobs)
        else if u.after.None? then r == Failure(ValueError(NotFound("Job", jobId, " for update"))) && jobs == old(jobs)
        else jobs == u.docs && r == Success(ToJobOutput(u.after))
      ensures |jobs| == |old(jobs)|
      ensures users == old(users) && applications == old(applications) && accounts == old(accounts)
      ensures lastUserId == old(lastUserId) && lastJobId == old(lastJobId) && lastAppId == old(lastAppId)
    {
      var e := CheckName(input, "title");
      if e.Some? {
        return Failure(e.value);
      }
      var fields := CleanUpdateInput(Some(input));
      if fields == map[] {
        return Failure(ValueError("No fields provided to update."));
      }
      var u := UpdateFirst(jobs, ById("jobId", Int(jobId)), fields);
      if u.after.None? {
        return Failure(ValueError(NotFound("Job", jobId, " for update")));
      }
      jobs := u.docs;
      r := Success(ToJobOutput(u.after));
    }

    /** `deleteJob`: removes the job with that id and returns true, or raises when there is none. */
    method DeleteJob(jobId: int) returns (r: Result<bool, Error>)
      modifies this
      ensures var b := DeleteFirst(old(jobs), ById("jobId", Int(jobId)));
        if b.count == 0 then r == Failure(ValueError(NotFound("Job", jobId, " for deletion"))) && jobs == old(jobs)
        else r == Success(true) && jobs == b.docs && |jobs| == |old(jobs)| - 1
      ensures users == old(users) && applications == old(applications) && accounts == old(accounts)
      ensures lastUserId == old(lastUserId) && lastJobId == old(lastJobId) && lastAppId == old(lastAppId)
    {
      var b := DeleteFirst(jobs, ById("jobId", Int(jobId)));
      if b.count == 0 {
        return Failure(ValueError(NotFound("Job", jobId, " for deletion")));
      }
      jobs := b.docs;
      r := Success(true);
    }

    // -------------------------------------------------------------------------
    // Applications

    /** `applications`: the stored applications matching the truthy arguments. */
    method Applications(userId: Option<int>, jobId: Option<int>, status: Option<string>) returns (r: seq<Doc>)
      ensures r == Find(applications, ApplicationFilter(userId, jobId, status))
      ensures forall d :: d in r <==> d in applications && Matches(d, ApplicationFilter(userId, jobId, status))
    {
      r := Find(applications, ApplicationFilter(userId, jobId, status));
    }

    /** `applicationById`: the application with that id, or a not-found error. */
    method ApplicationById(appId: int) returns (r: Result<Doc, Error>)
      ensures r.Failure? <==> forall d :: d in applications ==> Get(d, "appId") != Int(appId)
      ensures r.Failure? ==> r.error == ValueError(NotFound("Application", appId, ""))
      ensures r.Success? ==> r.value in applications && Get(r.value, "appId") == Int(appId)
      ensures r.Success? ==> Some(r.value) == FindOne(applications, ById("appId", Int(appId)))
    {
      var q := ById("appId", Int(appId));
      var found := FindOne(applications, q);
      if found.None? {
        forall d | d in applications ensures Get(d, "appId") != Int(appId) {
          assert !Matches(d, q);
        }
        return Failure(ValueError(NotFound("Application", appId, "")));
      }
      assert found.value in Find(applications, q);
      assert Matches(found.value, q);
      r := Success(found.value);
    }

    /**
     * The `candidate` field of an application: None for a falsy user id, else
     * the projection of the profile found by int() of that id.
     */
    method Candidate(app: Doc) returns (r: Result<Option<Doc>, Error>)
      ensures var id := Get(app, "userId");
        if !Truthy(id) then r == Success(None)
        else if IntOf(id).Failure? then r == Failure(IntOf(id).error)
        else r == Success(ToUserOutput(FindOne(users, ById("UserID", Int(IntOf(id).value)))))
      ensures r.Success? && r.value.Some? ==> r.value.value["UserID"] == Int(IntOf(Get(app, "userId")).value)
    {
      var id := Get(app, "userId");
      if !Truthy(id) {
        return Success(None);
      }
      var n := IntOf(id);
      if n.Failure? {
        return Failure(n.error);
      }
      var q := ById("UserID", Int(n.value));
      var found := FindOne(users, q);
      if found.Some? {
        assert found.value in Find(users, q);
        assert Matches(found.value, q);
      }
      r := Success(ToUserOutput(found));
    }

    /**
     * The `job` field of an application: None for a falsy job id, else the
     * projection of the job found by int() of that id.
     */
    method Job(app: Doc) returns (r: Result<Option<Doc>, Error>)
      ensures var id := Get(app, "jobId");
        if !Truthy(id) then r == Success(None)
        else if IntOf(id).Failure? then r == Failure(IntOf(id).error)
        else r == Success(ToJobOutput(FindOne(jobs, ById("jobId", Int(IntOf(id).value)))))
      ensures r.Success? && r.value.Some? ==> r.value.value["jobId"] == Int(IntOf(Get(app, "jobId")).value)
    {
      var id := Get(app, "jobId");
      if !Truthy(id) {
        return Success(None);
      }
      var n := IntOf(id);
      if n.Failure? {
        return Failure(n.error);
      }
      var q := ById("jobId", Int(n.value));
      var found := FindOne(jobs, q);
      if found.Some? {
        assert found.value in Find(jobs, q);
        assert Matches(found.value, q);
      }
      r := Success(ToJobOutput(found));
    }

    /**
     * `createApplication`: the user and then the job must exist, each looked
     * up by int() of the id given; nothing is inserted otherwise.  The new
     * application keeps the ids as given, has a fresh id and status "Applied".
     */
    method CreateApplication(input: Doc, submittedAt: string) returns (r: Result<Doc, Error>)
      modifies this
      ensures var userId := Get(input, "userId");
        var jobId := Get(input, "jobId");
        var e := ApplicationError(old(users), old(jobs), userId, jobId);
        if e.Some? then r == Failure(e.value) && unchanged(this)
        else
          lastAppId == old(lastAppId) + 1 &&
          applications == old(applications) + [ApplicationRecord(lastAppId, userId, jobId, Get(input, "notes"), submittedAt)] &&
          r == Success(ApplicationRecord(lastAppId, userId, jobId, Get(input, "notes"), submittedAt))
      ensures users == old(users) && jobs == old(jobs) && accounts == old(accounts)
      ensures lastUserId == old(lastUserId) && lastJobId == old(lastJobId)
    {
      var userId := Get(input, "userId");
      var jobId := Get(input, "jobId");
      var e := ApplicationError(users, jobs, userId, jobId);
      if e.Some? {
        return Failure(e.value);
      }
      lastAppId := lastAppId + 1;
      var doc := ApplicationRecord(lastAppId, userId, jobId, Get(input, "notes"), submittedAt);
      applications := applications + [doc];
      r := Success(doc);
    }

    /**
     * `apply`: the name must have a word; exactly one profile must match the
     * parsed name and exactly one job the title (and company, when given);
     * then it is `createApplication` with the two ids and no notes.
     */
    method Apply(userName: string, jobTitle: string, companyName: Option<string>, submittedAt: string)
      returns (r: Result<Doc, Error>)
      modifies this
      ensures var parsed := ParseUserName(userName);
        if parsed.Failure? then r == Failure(parsed.error) && unchanged(this)
        else
          var people := Find(old(users), NameFilterCi(Some(parsed.value.first), parsed.value.last));
          var found := Find(old(jobs), BuildJobFilter(companyName, None, Some(jobTitle)));
          if |people| == 0 then
            r == Failure(ValueError("Could not find a user named '" + userName + "'.")) && unchanged(this)
          else if |people| > 1 then
            r == Failure(ValueError("Found multiple users named '" + userName + "'. Please be more specific or use a last name.")) &&
            unchanged(this)
          else if |found| == 0 then
            r == Failure(ValueError("Could not find a job with title '" + jobTitle + "' at company '" + companyName.GetOr("") + "'.")) &&
            unchanged(this)
          else if |found| > 1 then
            r == Failure(ValueError("Found multiple jobs with title '" + jobTitle + "'. Please specify a company.")) && unchanged(this)
          else if "UserID" !in people[0] then r == Failure(KeyError("'UserID'")) && unchanged(this)
          else if "jobId" !in found[0] then r == Failure(KeyError("'jobId'")) && unchanged(this)
          else
            var userId: Value := people[0]["UserID"];
            var jobId: Value := found[0]["jobId"];
            var e := ApplicationError(old(users), old(jobs), userId, jobId);
            (userId.Int? && jobId.Int? ==> e.None?) &&
            if e.Some? then r == Failure(e.value) && unchanged(this)
            else
              lastAppId == old(lastAppId) + 1 &&
              applications == old(applications) + [ApplicationRecord(lastAppId, userId, jobId, Null, submittedAt)] &&
              r == Success(ApplicationRecord(lastAppId, userId, jobId, Null, submittedAt))
      ensures users == old(users) && jobs == old(jobs) && accounts == old(accounts)
      ensures lastUserId == old(lastUserId) && lastJobId == old(lastJobId)
    {
      var parsed := ParseUserName(userName);
      if parsed.Failure? {
        return Failure(parsed.error);
      }
      var people := Find(users, NameFilterCi(Some(parsed.value.first), parsed.value.last));
      if |people| == 0 {
        return Failure(ValueError("Could not find a user named '" + userName + "'."));
      }
      if |people| > 1 {
        return Failure(ValueError("Found multiple users named '" + userName + "'. Please be more specific or use a last name."));
      }
      var found := Find(jobs, BuildJobFilter(companyName, None, Some(jobTitle)));
      if |found| == 0 {
        return Failure(ValueError("Could not find a job with title '" + jobTitle + "' at company '" + companyName.GetOr("") + "'."));
      }
      if |found| > 1 {
        return Failure(ValueError("Found multiple jobs with title '" + jobTitle + "'. Please specify a company."));
      }
      if "UserID" !in people[0] {
        return Failure(KeyError("'UserID'"));
      }
      if "jobId" !in found[0] {
        return Failure(KeyError("'jobId'"));
      }
      var userId: Value := people[0]["UserID"];
      var jobId: Value := found[0]["jobId"];
      assert people[0] in people && found[0] in found;
      if userId.Int? && jobId.Int? {
        StoredIdsPass(users, jobs, people[0], found[0]);
      }
      AppInputFields(userId, jobId);
      r := CreateApplication(map["userId" := userId, "jobId" := jobId], submittedAt);
    }

    /** `updateApplication`: the update must not be empty and the application must exist. */
    method UpdateApplication(appId: int, input: Doc) returns (r: Result<Doc, Error>)
      modifies this
      ensures var fields := CleanUpdateInput(Some(input));
        var u := UpdateFirst(old(applications), ById("appId", Int(appId)), fields);
        if fields == map[] then r == Failure(ValueError("No fields provided to update.")) && applications == old(applications)
        else if u.after.None? then
          r == Failure(ValueError(NotFound("Application", appId, " for update"))) && applications == old(applications)
        else applications == u.docs && r == Success(u.after.value)
      ensures users == old(users) && jobs == old(jobs) && accounts == old(accounts)
      ensures lastUserId == old(lastUserId) && lastJobId == old(lastJobId) && lastAppId == old(lastAppId)
    {
      var fields := CleanUpdateInput(Some(input));
      if fields == map[] {
        return Failure(ValueError("No fields provided to update."));
      }
      var u := UpdateFirst(applications, ById("appId", Int(appId)), fields);
      if u.after.None? {
        return Failure(ValueError(NotFound("Application", appId, " for update")));
      }
      applications := u.docs;
      r := Success(u.after.value);
    }

    // -------------------------------------------------------------------------
    // Accounts

    /**
     * `register`: the role must be "user" or "recruiter" and the email new;
     * both checks come before an id is drawn.  One account is added with the
     * hashed password, and for a job seeker a starter profile with the same id.
     */
    method Register(email: string, password: string, role: string, createdAt: string,
                    hash: string -> string, token: (int, string, string) -> string)
      returns (r: Result<string, Error>)
      modifies this
      ensures !RegistrableRole(role) ==> r == Failure(ValueError(RoleRejected)) && unchanged(this)
      ensures RegistrableRole(role) && AccountByEmail(old(accounts), email).Some? ==>
        r == Failure(ValueError(EmailTaken)) && unchanged(this)
      ensures RegistrableRole(role) && AccountByEmail(old(accounts), email).None? ==>
        lastUserId == old(lastUserId) + 1 &&
        accounts == old(accounts) + [Account(lastUserId, email, hash(password), role, createdAt)] &&
        users == (if role == "user" then old(users) + [StarterProfile(lastUserId)] else old(users)) &&
        r == Success(token(lastUserId, email, role))
      ensures jobs == old(jobs) && applications == old(applications)
      ensures lastJobId == old(lastJobId) && lastAppId == old(lastAppId)
      ensures old(UserIdsIssued()) ==> UserIdsIssued()
    {
      if !RegistrableRole(role) {
        return Failure(ValueError(RoleRejected));
      }
      if AccountByEmail(accounts, email).Some? {
        return Failure(ValueError(EmailTaken));
      }
      var hashed := hash(password);
      lastUserId := lastUserId + 1;
      var id := lastUserId;
      accounts := accounts + [Account(id, email, hashed, role, createdAt)];
      if role == "user" {
        users := users + [StarterProfile(id)];
      }
      r := Success(token(id, email, role));
    }

    /** `login`: the token of the account with that email when the password checks; one error for every failure. */
    method Login(email: string, password: string, check: (string, string) -> bool,
                 token: (int, string, string) -> string) returns (r: Result<string, Error>)
      ensures var a := Authenticate(accounts, email, password, check);
        if a.Failure? then r == Failure(ValueError(LoginFailed))
        else r == Success(token(a.value.id, a.value.email, a.value.role))
    {
      var a := Authenticate(accounts, email, password, check);
      if a.Failure? {
        return Failure(ValueError(LoginFailed));
      }
      r := Success(token(a.value.id, a.value.email, a.value.role));
    }

    // -------------------------------------------------------------------------
    // Recommendations

    /**
     * `recommendedJobs`: only a logged-in job seeker; no profile or no skills
     * gives []; otherwise the jobs scoring at least the threshold, best first.
     */
    method RecommendedJobs(caller: Caller, threshold: int) returns (r: Result<seq<Option<Doc>>, Error>)
      ensures !Authenticated(caller) || Role(caller) != Str("user") ==> r == Failure(PermissionError(RecommendDenied))
      ensures Authenticated(caller) && Role(caller) == Str("user") && IntOf(Subject(caller)).Failure? ==>
        r == Failure(IntOf(Subject(caller)).error)
      ensures Authenticated(caller) && Role(caller) == Str("user") && IntOf(Subject(caller)).Success? ==>
        var candidate := FindOne(users, ById("UserID", Int(IntOf(Subject(caller)).value)));
        if !Present(candidate) || !Truthy(Get(candidate.value, "skills")) then r == Success([])
        else
          var score := JobScore(SkillList(Get(candidate.value, "skills")));
          r == Success(JobOutputs(Scoredocs(SortDesc(Matched(jobs, score, threshold)))))
    {
      if !Authenticated(caller) || Role(caller) != Str("user") {
        return Failure(PermissionError(RecommendDenied));
      }
      var id := IntOf(Subject(caller));
      if id.Failure? {
        return Failure(id.error);
      }
      var candidate := FindOne(users, ById("UserID", Int(id.value)));
      if !Present(candidate) || !Truthy(Get(candidate.value, "skills")) {
        return Success([]);
      }
      var allJobs := Find(jobs, map[]);
      FindAll(jobs);
      var matched := CollectMatches(allJobs, JobScore(SkillList(Get(candidate.value, "skills"))), threshold);
      var ranked := SortDesc(matched);
      r := Success(JobOutputs(Scoredocs(ranked)));
    }

    /**
     * `matchingCandidates`: only a recruiter; a missing job or one without
     * required skills gives []; otherwise the profiles scoring at least the
     * threshold, best first.
     */
    method MatchingCandidates(caller: Caller, jobId: int, threshold: int) returns (r: Result<seq<Option<Doc>>, Error>)
      ensures !Authenticated(caller) || Role(caller) != Str("recruiter") ==> r == Failure(PermissionError(CandidatesDenied))
      ensures Authenticated(caller) && Role(caller) == Str("recruiter") ==>
        var job := FindOne(jobs, ById("jobId", Int(jobId)));
        if !Present(job) || !Truthy(Get(job.value, "skillsRequired")) then r == Success([])
        else
          var score := CandidateScore(SkillList(Get(job.value, "skillsRequired")));
          r == Success(UserOutputs(Scoredocs(SortDesc(Matched(users, score, threshold)))))
    {
      if !Authenticated(caller) || Role(caller) != Str("recruiter") {
        return Failure(PermissionError(CandidatesDenied));
      }
      var job := FindOne(jobs, ById("jobId", Int(jobId)));
      if !Present(job) || !Truthy(Get(job.value, "skillsRequired")) {
        return Success([]);
      }
      var allUsers := Find(users, map[]);
      FindAll(users);
      var matched := CollectMatches(allUsers, CandidateScore(SkillList(Get(job.value, "skillsRequired"))), threshold);
      var ranked := SortDesc(matched);
      r := Success(UserOutputs(Scoredocs(ranked)));
    }
  }
}
