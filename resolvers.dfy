/**
 * The decision rules of the GraphQL resolvers that do not touch the store:
 * who the caller is, the checks each input goes through and in what order,
 * the records a create writes, and the account lookup of `login`.
 */
module Resolvers {
  import opened Wrappers
  import opened Errors
  import opened Strings
  import opened Documents
  import opened Validators
  import opened Recommendation

  // ---------------------------------------------------------------------------
  // The caller

  /** The decoded token payload the request context carries under "user", if any. */
  type Caller = Option<Doc>

  /** `if not user`: no payload, or an empty one, means not logged in. */
  predicate Authenticated(caller: Caller) {
    caller.Some? && caller.value != map[]
  }

  function Role(caller: Caller): Value {
    if caller.Some? then Get(caller.value, "role") else Null
  }

  function Subject(caller: Caller): Value {
    if caller.Some? then Get(caller.value, "sub") else Null
  }

  /** Admins may act on any profile; everyone else only on the profile whose id is their token's subject. */
  predicate MayActOn(caller: Caller, userId: int) {
    Role(caller) == Str("admin") || Subject(caller) == Int(userId)
  }

  const AuthRequired: string := "Access denied: Authentication required."
  const ListDenied: string := "Access denied: Only recruiters and admins can list users."
  const UpdateDenied: string := "Access denied: You can only update your own profile."
  const DeleteDenied: string := "Access denied: Only admins can delete other user profiles."
  const RecommendDenied: string := "Access denied: You must be logged in as a 'user' to get job recommendations."
  const CandidatesDenied: string := "Access denied: Only recruiters can find matching candidates."

  // ---------------------------------------------------------------------------
  // int() on a stored or given id

  const IntTypePrefix: string := "int() argument must be a string, a bytes-like object or a real number, not '"
  const IntLiteralPrefix: string := "invalid literal for int() with base 10: '"

  /** Python's message when int() is handed neither a number nor a string. */
  function IntTypeMessage(kind: string): string {
    IntTypePrefix + kind + "'"
  }

  /** Python's message when int() is handed a string that is not a decimal literal. */
  function IntLiteralMessage(s: string): string {
    IntLiteralPrefix + s + "'"
  }

  predicate AllDigits(d: string) {
    forall i :: 0 <= i < |d| ==> IsDigit(d[i])
  }

  /** An optional sign followed by at least one ASCII digit. */
  predicate DecimalLiteral(t: string) {
    if t != [] && (t[0] == '+' || t[0] == '-') then |t| > 1 && AllDigits(t[1..])
    else t != [] && AllDigits(t)
  }

  /** The value of a run of decimal digits, most significant first. */
  function DigitsValue(d: string): nat
    requires AllDigits(d)
  {
    if d == [] then 0 else DigitsValue(d[..|d| - 1]) * 10 + (d[|d| - 1] as int - '0' as int)
  }

  function LiteralValue(t: string): int
    requires DecimalLiteral(t)
  {
    if t[0] == '-' then -(DigitsValue(t[1..]) as int)
    else if t[0] == '+' then DigitsValue(t[1..])
    else DigitsValue(t)
  }

  /**
   * int(v) on a field value: a number is itself; a string is read as a
   * decimal literal once its surrounding whitespace is stripped, and is
   * otherwise a ValueError; None and lists are a TypeError.
   */
  function IntOf(v: Value): (r: Result<int, Error>)
    ensures v.Int? ==> r == Success(v.i)
    ensures v.Null? ==> r == Failure(TypeError(IntTypeMessage("NoneType")))
    ensures v.StrList? ==> r == Failure(TypeError(IntTypeMessage("list")))
    ensures v.Str? ==> (r.Success? <==> DecimalLiteral(Strip(v.s, Python)))
    ensures v.Str? && r.Failure? ==> r.error == ValueError(IntLiteralMessage(v.s))
  {
    match v
    case Int(i) => Success(i)
    case Null => Failure(TypeError(IntTypeMessage("NoneType")))
    case StrList(_) => Failure(TypeError(IntTypeMessage("list")))
    case Str(s) =>
      var t := Strip(s, Python);
      if DecimalLiteral(t) then Success(LiteralValue(t)) else Failure(ValueError(IntLiteralMessage(s)))
  }

  lemma DigitCharValue(d: nat)
    requires d < 10
    ensures IsDigit(DigitChar(d)) && DigitChar(d) as int - '0' as int == d
  {
    if d == 0 {} else if d == 1 {} else if d == 2 {} else if d == 3 {} else if d == 4 {}
    else if d == 5 {} else if d == 6 {} else if d == 7 {} else if d == 8 {} else {}
  }

  /** The decimal rendering of a number is all digits and reads back as the number. */
  lemma {:induction false} NatDigits(n: nat)
    ensures AllDigits(NatToString(n)) && DigitsValue(NatToString(n)) == n
  {
    var s := NatToString(n);
    DigitCharValue(n % 10);
    if n >= 10 {
      NatDigits(n / 10);
      assert s[..|s| - 1] == NatToString(n / 10);
    } else {
      assert s[..|s| - 1] == [];
    }
  }

  /** Round trip: str() of an integer, read back by int(), is that integer. */
  lemma IntOfRendered(n: int)
    ensures IntOf(Str(IntToString(n))) == Success(n)
  {
    var s := IntToString(n);
    var m: nat := if n < 0 then -n else n;
    NatDigits(m);
    var d := NatToString(m);
    assert d[0] == d[..1][0];
    if n < 0 {
      assert s == "-" + d && s[1..] == d;
    }
    assert IsStripped(s, Python) by {
      assert IsDigit(d[|d| - 1]) && s[|s| - 1] == d[|d| - 1];
    }
    StrippedIsFixed(s, Python);
  }

  /** Surrounding whitespace does not change what int() reads from a string. */
  lemma IntOfPadded(l: string, s: string, t: string)
    requires AllSpace(l, Python) && AllSpace(t, Python)
    ensures IntOf(Str(l + s + t)).Success? <==> IntOf(Str(s)).Success?
    ensures IntOf(Str(l + s + t)).Success? ==> IntOf(Str(l + s + t)).value == IntOf(Str(s)).value
  {
    StripPadded(l, s, t, Python);
  }

  // ---------------------------------------------------------------------------
  // Input checks

  /** Python's `x or None`: falsy values are stored as None. */
  function OrNone(v: Value): (r: Value)
    ensures Truthy(v) ==> r == v
    ensures !Truthy(v) ==> r == Null
  {
    if Truthy(v) then v else Null
  }

  /** An optional string stored as a field value. */
  function OptValue(o: Option<string>): Value {
    if o.Some? then Str(o.value) else Null
  }

  /** require_non_empty_str would reject this field of the input. */
  predicate BlankField(input: Doc, key: string) {
    var t := Text(Get(input, key));
    t.None? || AllSpace(t.value, Python)
  }

  /** validate_date_str would accept this DateOfBirth. */
  predicate DateAccepted(v: Value) {
    var t := Text(v);
    t.None? || t.value == [] || DatePattern(t.value)
  }

  /** The validated fields of a new user profile. */
  datatype NewUser = NewUser(first: string, last: string, dob: Option<string>, title: Value, summary: Value)

  /**
   * The checks of `createUser`, in order: FirstName, then LastName, then
   * DateOfBirth; names are kept stripped, an empty title or summary becomes None.
   */
  function NewUserFields(input: Doc): (r: Result<NewUser, Error>)
    ensures r.Failure? <==> BlankField(input, "FirstName") || BlankField(input, "LastName") || !DateAccepted(Get(input, "DateOfBirth"))
    ensures BlankField(input, "FirstName") ==> r == Failure(ValueError(NonEmptyMessage("FirstName")))
    ensures !BlankField(input, "FirstName") && BlankField(input, "LastName") ==>
      r == Failure(ValueError(NonEmptyMessage("LastName")))
    ensures !BlankField(input, "FirstName") && !BlankField(input, "LastName") && !DateAccepted(Get(input, "DateOfBirth")) ==>
      r == Failure(ValueError(DateMessage))
    ensures r.Success? ==>
      r.value.first != [] && IsStripped(r.value.first, Python) && r.value.first == Strip(Get(input, "FirstName").s, Python) &&
      r.value.last != [] && IsStripped(r.value.last, Python) && r.value.last == Strip(Get(input, "LastName").s, Python) &&
      r.value.title == OrNone(Get(input, "ProfessionalTitle")) && r.value.summary == OrNone(Get(input, "Summary"))
    ensures r.Success? && r.value.dob.Some? ==> Get(input, "DateOfBirth") == Str(r.value.dob.value) && DatePattern(r.value.dob.value)
  {
    var first :- RequireNonEmptyStr(Text(Get(input, "FirstName")), "FirstName");
    var last :- RequireNonEmptyStr(Text(Get(input, "LastName")), "LastName");
    var dob :- ValidateDateStr(Text(Get(input, "DateOfBirth")));
    Success(NewUser(first, last, dob, OrNone(Get(input, "ProfessionalTitle")), OrNone(Get(input, "Summary"))))
  }

  /** The record `createUser` inserts: six fields, no skills. */
  function UserRecord(id: int, u: NewUser): Doc {
    map["UserID" := Int(id), "FirstName" := Str(u.first), "LastName" := Str(u.last),
        "DateOfBirth" := OptValue(u.dob), "ProfessionalTitle" := u.title, "Summary" := u.summary]
  }

  /** The name check of the update resolvers: a name that is given and not None must not be blank. */
  function CheckName(input: Doc, key: string): (r: Option<Error>)
    ensures r.Some? <==> key in input && input[key] != Null && BlankField(input, key)
    ensures r.Some? ==> r.value == ValueError(NonEmptyMessage(key))
  {
    if key in input && input[key] != Null then
      var c := RequireNonEmptyStr(Text(input[key]), key);
      if c.Failure? then Some(c.error) else None
    else None
  }

  /**
   * The date step of the update resolvers: a DateOfBirth that is given and
   * not None is validated and overwritten in the input with what validation
   * returns, which turns "" into None.
   */
  function NormalizeDate(input: Doc): (r: Result<Doc, Error>)
    ensures "DateOfBirth" !in input || input["DateOfBirth"] == Null ==> r == Success(input)
    ensures r.Failure? <==> !DateAccepted(Get(input, "DateOfBirth"))
    ensures r.Failure? ==> r.error == ValueError(DateMessage)
    ensures r.Success? ==> r.value.Keys == input.Keys && forall k :: k in input && k != "DateOfBirth" ==> r.value[k] == input[k]
    ensures r.Success? && Get(input, "DateOfBirth") == Str("") ==> r.value["DateOfBirth"] == Null
    ensures r.Success? && Get(input, "DateOfBirth").Str? && Get(input, "DateOfBirth").s != [] ==> r.value == input
  {
    if "DateOfBirth" in input && input["DateOfBirth"] != Null then
      var v := ValidateDateStr(Text(input["DateOfBirth"]));
      if v.Failure? then Failure(v.error)
      else
        var r := input["DateOfBirth" := OptValue(v.value)];
        assert v.value.Some? ==> r == input;
        Success(r)
    else Success(input)
  }

  /** An update that sets DateOfBirth to "" does not write it: validation turns it into None, and None fields are dropped. */
  lemma EmptyDateNotWritten(input: Doc)
    requires Get(input, "DateOfBirth") == Str("")
    ensures NormalizeDate(input).Success?
    ensures "DateOfBirth" !in CleanUpdateInput(Some(NormalizeDate(input).value))
  {
  }

  /** An update whose only field is an empty DateOfBirth has nothing left to write. */
  lemma OnlyEmptyDateIsNoUpdate()
    ensures CleanUpdateInput(Some(NormalizeDate(map["DateOfBirth" := Str("")]).value)) == map[]
  {
    var n := NormalizeDate(map["DateOfBirth" := Str("")]).value;
    assert n.Keys == {"DateOfBirth"};
    assert CleanUpdateInput(Some(n)).Keys == {};
  }

  /** Dates passed as plain arguments are validated only when truthy, and come back unchanged. */
  function CheckDateArgument(dob: Option<string>): (r: Option<Error>)
    ensures r.Some? <==> dob.Some? && dob.value != [] && !DatePattern(dob.value)
    ensures r.Some? ==> r.value == ValueError(DateMessage)
  {
    if dob.Some? && dob.value != [] then
      var v := ValidateDateStr(dob);
      if v.Failure? then Some(v.error) else None
    else None
  }

  // ---------------------------------------------------------------------------
  // Jobs and applications

  /**
   * The record `createJob` inserts: the stripped title, the optional fields
   * as given (None when absent), skillsRequired defaulting to [] only when
   * the key is absent, and the posting date.
   */
  function JobRecord(id: int, title: string, input: Doc, postedAt: string): (d: Doc)
    ensures d.Keys == {"jobId", "title", "company", "location", "salaryRange", "skillsRequired", "description", "postedAt"}
    ensures d["skillsRequired"] == if "skillsRequired" in input then input["skillsRequired"] else StrList([])
  {
    map["jobId" := Int(id), "title" := Str(title), "company" := Get(input, "company"),
        "location" := Get(input, "location"), "salaryRange" := Get(input, "salaryRange"),
        "skillsRequired" := if "skillsRequired" in input then input["skillsRequired"] else StrList([]),
        "description" := Get(input, "description"), "postedAt" := Str(postedAt)]
  }

  /** A skills list given as None stays None; only an absent key gets the empty default. */
  lemma SkillsDefaultOnlyWhenAbsent(id: int, title: string, input: Doc, postedAt: string)
    ensures "skillsRequired" !in input ==> JobRecord(id, title, input, postedAt)["skillsRequired"] == StrList([])
    ensures Get(input, "skillsRequired") == Null && "skillsRequired" in input ==>
      JobRecord(id, title, input, postedAt)["skillsRequired"] == Null
  {
  }

  /** The record `createApplication` inserts, always with status "Applied". */
  function ApplicationRecord(appId: int, userId: Value, jobId: Value, notes: Value, submittedAt: string): Doc {
    map["appId" := Int(appId), "userId" := userId, "jobId" := jobId, "status" := Str("Applied"),
        "submittedAt" := Str(submittedAt), "notes" := notes]
  }

  /** Python's `if not doc` on a lookup result: a record that exists and is not empty. */
  predicate Present(o: Option<Doc>) {
    o.Some? && o.value != map[]
  }

  /** A record holding a non-null id is found by that id. */
  lemma FoundById(docs: seq<Doc>, d: Doc, key: string)
    requires d in docs && Get(d, key) != Null
    ensures Present(FindOne(docs, ById(key, Get(d, key))))
  {
    var q := ById(key, Get(d, key));
    assert Matches(d, q);
    assert d in Find(docs, q);
    var e := FindOne(docs, q).value;
    assert e in Find(docs, q);
    assert Holds(q[key], Get(e, key));
  }

  /** Some record holds the non-null id exactly when the lookup by that id finds a non-empty record. */
  lemma PresentById(docs: seq<Doc>, key: string, id: Value)
    requires id != Null
    ensures Present(FindOne(docs, ById(key, id))) <==> exists d :: d in docs && Get(d, key) == id
  {
    var q := ById(key, id);
    if d :| d in docs && Get(d, key) == id {
      FoundById(docs, d, key);
    }
    if FindOne(docs, q).Some? {
      var e := FindOne(docs, q).value;
      assert e in Find(docs, q);
      assert Holds(q[key], Get(e, key));
    }
  }

  function UserMissing(userId: Value): string {
    "Validation failed: User with ID " + Render(userId) + " does not exist."
  }

  function JobMissing(jobId: Value): string {
    "Validation failed: Job with ID " + Render(jobId) + " does not exist."
  }

  /**
   * The validation of `createApplication`: int() of the user id, the lookup
   * of that user, int() of the job id, the lookup of that job; the first
   * step that fails gives the error.  The messages show the ids as given.
   */
  function ApplicationError(users: seq<Doc>, jobs: seq<Doc>, userId: Value, jobId: Value): Option<Error> {
    var uid := IntOf(userId);
    if uid.Failure? then Some(uid.error)
    else if !Present(FindOne(users, ById("UserID", Int(uid.value)))) then Some(ValueError(UserMissing(userId)))
    else
      var jid := IntOf(jobId);
      if jid.Failure? then Some(jid.error)
      else if !Present(FindOne(jobs, ById("jobId", Int(jid.value)))) then Some(ValueError(JobMissing(jobId)))
      else None
  }

  /**
   * The validation passes exactly when both ids convert and a stored user and
   * a stored job hold them; otherwise the first failing step names the error.
   */
  lemma ApplicationErrorCases(users: seq<Doc>, jobs: seq<Doc>, userId: Value, jobId: Value)
    ensures var e := ApplicationError(users, jobs, userId, jobId);
      (e.None? <==>
        IntOf(userId).Success? && IntOf(jobId).Success? &&
        (exists u :: u in users && Get(u, "UserID") == Int(IntOf(userId).value)) &&
        (exists j :: j in jobs && Get(j, "jobId") == Int(IntOf(jobId).value))) &&
      (IntOf(userId).Failure? ==> e == Some(IntOf(userId).error)) &&
      (IntOf(userId).Success? && !(exists u :: u in users && Get(u, "UserID") == Int(IntOf(userId).value)) ==>
        e == Some(ValueError(UserMissing(userId)))) &&
      (IntOf(userId).Success? && (exists u :: u in users && Get(u, "UserID") == Int(IntOf(userId).value)) ==>
        (IntOf(jobId).Failure? ==> e == Some(IntOf(jobId).error)) &&
        (IntOf(jobId).Success? && !(exists j :: j in jobs && Get(j, "jobId") == Int(IntOf(jobId).value)) ==>
          e == Some(ValueError(JobMissing(jobId)))))
  {
    if IntOf(userId).Success? {
      PresentById(users, "UserID", Int(IntOf(userId).value));
    }
    if IntOf(jobId).Success? {
      PresentById(jobs, "jobId", Int(IntOf(jobId).value));
    }
  }

  /** A user and a job taken from the store, both with integer ids, pass the validation. */
  lemma StoredIdsPass(users: seq<Doc>, jobs: seq<Doc>, u: Doc, j: Doc)
    requires u in users && j in jobs && Get(u, "UserID").Int? && Get(j, "jobId").Int?
    ensures ApplicationError(users, jobs, Get(u, "UserID"), Get(j, "jobId")).None?
  {
    ApplicationErrorCases(users, jobs, Get(u, "UserID"), Get(j, "jobId"));
  }

  // ---------------------------------------------------------------------------
  // Accounts

  /** A login account: its id (shared with the user profile), email, password hash, role and creation time. */
  datatype Account = Account(id: int, email: string, password: string, role: string, createdAt: string)

  /** find_one({"email": email}) on the accounts: the first account with that email. */
  function AccountByEmail(accounts: seq<Account>, email: string): (r: Option<Account>)
    ensures r.Some? ==> r.value in accounts && r.value.email == email
    ensures r.None? <==> forall a :: a in accounts ==> a.email != email
  {
    if accounts == [] then None
    else if accounts[0].email == email then Some(accounts[0])
    else AccountByEmail(accounts[1..], email)
  }

  const LoginFailed: string := "Invalid email or password."

  /** The check of `login`: an unknown email and a wrong password fail alike. */
  function Authenticate(accounts: seq<Account>, email: string, password: string,
                        check: (string, string) -> bool): (r: Result<Account, Error>)
    ensures r.Failure? <==> AccountByEmail(accounts, email).None? || !check(password, AccountByEmail(accounts, email).value.password)
    ensures r.Failure? ==> r.error == ValueError(LoginFailed)
    ensures r.Success? ==> r.value in accounts && r.value.email == email && check(password, r.value.password)
  {
    match AccountByEmail(accounts, email)
    case None => Failure(ValueError(LoginFailed))
    case Some(a) => if check(password, a.password) then Success(a) else Failure(ValueError(LoginFailed))
  }

  /** An account appended for a new email is the one that email finds. */
  lemma {:induction false} AccountByEmailAppend(accounts: seq<Account>, a: Account)
    requires AccountByEmail(accounts, a.email).None?
    ensures AccountByEmail(accounts + [a], a.email) == Some(a)
  {
    if accounts != [] {
      assert (accounts + [a])[1..] == accounts[1..] + [a];
      AccountByEmailAppend(accounts[1..], a);
    }
  }

  /**
   * Registering then logging in: once an account is added for a new email
   * with the hash of a password, that password logs in as that account,
   * provided the hash and the check agree.
   */
  lemma RegisteredCanLogin(accounts: seq<Account>, id: int, email: string, password: string, role: string,
                           createdAt: string, hash: string -> string, check: (string, string) -> bool)
    requires AccountByEmail(accounts, email).None?
    requires check(password, hash(password))
    ensures Authenticate(accounts + [Account(id, email, hash(password), role, createdAt)], email, password, check) ==
      Success(Account(id, email, hash(password), role, createdAt))
  {
    AccountByEmailAppend(accounts, Account(id, email, hash(password), role, createdAt));
  }

  /** Only job seekers and recruiters may register. */
  predicate RegistrableRole(role: string) {
    role == "user" || role == "recruiter"
  }

  const RoleRejected: string := "Role must be either 'user' or 'recruiter'."
  const EmailTaken: string := "An account with this email already exists."

  /** The profile `register` creates for a job seeker. */
  function StarterProfile(id: int): Doc {
    map["UserID" := Int(id), "FirstName" := Str("New"), "LastName" := Str("User"), "skills" := StrList([])]
  }

  // ---------------------------------------------------------------------------
  // Recommendations

  const DefaultThreshold: int := 50

  /** A skills field as a list; a field that is not a list of strings counts as missing. */
  function SkillList(v: Value): Option<seq<string>> {
    if v.StrList? then Some(v.items) else None
  }

  /** The score of each job against a candidate's skills. */
  function JobScore(candidate: Option<seq<string>>): Doc -> int {
    job => MatchScore(candidate, SkillList(Get(job, "skillsRequired")))
  }

  /** The score of each candidate against a job's required skills. */
  function CandidateScore(required: Option<seq<string>>): Doc -> int {
    user => MatchScore(SkillList(Get(user, "skills")), required)
  }

  /** A record with its score attached under "matchScore", as the resolvers pass it to the projection. */
  function WithMatchScore(x: Scored): Doc {
    x.doc["matchScore" := Int(x.score)]
  }
}
