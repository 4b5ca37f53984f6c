/** The input checks shared by the resolvers. */
module Validators {
  import opened Wrappers
  import opened Errors
  import opened Strings
  import opened Documents

  /**
   * require_non_empty_str: a missing or whitespace-only value is rejected
   * with "<field> must be a non-empty string"; any other value comes back
   * stripped.
   */
  const NonEmptySuffix: string := " must be a non-empty string"

  function NonEmptyMessage(field: string): string {
    field + NonEmptySuffix
  }

  function RequireNonEmptyStr(value: Option<string>, field: string): (r: Result<string, Error>)
    ensures r.Failure? <==> value.None? || AllSpace(value.value, Python)
    ensures r.Failure? ==> r.error == ValueError(NonEmptyMessage(field))
    ensures r.Success? ==> r.value != [] && IsStripped(r.value, Python) && Strip(r.value, Python) == r.value
    ensures r.Success? ==> r.value == Strip(value.value, Python)
  {
    if value.None? then Failure(ValueError(NonEmptyMessage(field)))
    else
      var s := Strip(value.value, Python);
      StripEmptyIffBlank(value.value, Python);
      StrippedIsFixed(s, Python);
      if s == [] then Failure(ValueError(NonEmptyMessage(field))) else Success(s)
  }

  /** Surrounding whitespace does not change the outcome. */
  lemma RequirePadded(l: string, v: string, t: string, field: string)
    requires AllSpace(l, Python) && AllSpace(t, Python)
    ensures RequireNonEmptyStr(Some(l + v + t), field) == RequireNonEmptyStr(Some(v), field)
  {
    StripPadded(l, v, t, Python);
    StripEmptyIffBlank(l + v + t, Python);
    StripEmptyIffBlank(v, Python);
  }

  // ---------------------------------------------------------------------------
  // Dates

  const DateMessage: string := "DateOfBirth must be in YYYY-MM-DD format"

  predicate IsDigit(c: char) {
    '0' <= c <= '9'
  }

  /** Four digits, a dash, two digits, a dash, two digits. */
  predicate DateShape(s: string) {
    |s| == 10 && s[4] == '-' && s[7] == '-' &&
    forall i :: 0 <= i < 10 && i != 4 && i != 7 ==> IsDigit(s[i])
  }

  /**
   * re.match(r"^\d{4}-\d{2}-\d{2}$", s): the shape, where Python's `$` also
   * accepts one final newline.
   */
  predicate DatePattern(s: string) {
    DateShape(s) || (|s| == 11 && DateShape(s[..10]) && s[10] == '\n')
  }

  /**
   * validate_date_str: None and "" mean "no date"; any other value must
   * match the pattern and is returned as given.
   */
  function ValidateDateStr(value: Option<string>): (r: Result<Option<string>, Error>)
    ensures value.None? || value.value == [] ==> r == Success(None)
    ensures value.Some? && value.value != [] ==>
      (r.Success? <==> DatePattern(value.value)) &&
      (r.Success? ==> r.value == value) &&
      (r.Failure? ==> r.error == ValueError(DateMessage))
  {
    if value.None? || value.value == [] then Success(None)
    else if !DatePattern(value.value) then Failure(ValueError(DateMessage))
    else Success(value)
  }

  /** The two-digit rendering of a number below 100, zero padded. */
  function Pad2(n: nat): (s: string)
    requires n < 100
    ensures |s| == 2 && IsDigit(s[0]) && IsDigit(s[1])
  {
    [DigitChar(n / 10), DigitChar(n % 10)]
  }

  function Pad4(n: nat): (s: string)
    requires n < 10000
    ensures |s| == 4 && forall i :: 0 <= i < 4 ==> IsDigit(s[i])
  {
    Pad2(n / 100) + Pad2(n % 100)
  }

  /** Every zero-padded year-month-day rendering passes, whatever the numbers: there is no calendar check. */
  lemma AnyPaddedDateAccepted(y: nat, m: nat, d: nat)
    requires y < 10000 && m < 100 && d < 100
    ensures var s := Pad4(y) + "-" + Pad2(m) + "-" + Pad2(d);
      ValidateDateStr(Some(s)) == Success(Some(s))
  {
    var s := Pad4(y) + "-" + Pad2(m) + "-" + Pad2(d);
    assert s[5..7] == Pad2(m) && s[8..10] == Pad2(d) && s[..4] == Pad4(y);
    forall i | 0 <= i < 10 && i != 4 && i != 7 ensures IsDigit(s[i]) {
      if i < 4 {
        assert s[i] == Pad4(y)[i];
      } else if i < 7 {
        assert s[i] == Pad2(m)[i - 5];
      } else {
        assert s[i] == Pad2(d)[i - 8];
      }
    }
  }

  /** A date followed by one newline passes too, and keeps its newline. */
  lemma TrailingNewlineAccepted(s: string)
    requires DateShape(s)
    ensures ValidateDateStr(Some(s + "\n")) == Success(Some(s + "\n"))
  {
    assert (s + "\n")[..10] == s;
  }

  /** A date with leading or trailing whitespace other than one newline is rejected. */
  lemma PaddedDateRejected(s: string)
    requires DateShape(s)
    ensures ValidateDateStr(Some(" " + s)).Failure?
    ensures ValidateDateStr(Some(s + " ")).Failure?
  {
    assert (" " + s)[4] == s[3];
    assert (s + " ")[10] == ' ';
  }

  // ---------------------------------------------------------------------------
  // Update inputs

  /** clean_update_input: the entries whose value is not None; a missing input is empty. */
  function CleanUpdateInput(input: Option<Doc>): (r: Doc)
    ensures input.None? ==> r == map[]
    ensures input.Some? ==> r.Keys <= input.value.Keys
    ensures input.Some? ==> forall k :: k in input.value ==> (k in r <==> input.value[k] != Null)
    ensures forall k :: k in r ==> r[k] != Null && r[k] == input.value[k]
  {
    if input.None? then map[]
    else map k | k in input.value && input.value[k] != Null :: input.value[k]
  }

  /** Cleaning a cleaned input changes nothing. */
  lemma CleanIdempotent(input: Option<Doc>)
    ensures CleanUpdateInput(Some(CleanUpdateInput(input))) == CleanUpdateInput(input)
  {
    var once := CleanUpdateInput(input);
    assert CleanUpdateInput(Some(once)).Keys == once.Keys;
  }

  /** The cleaned input is empty exactly when every given value is None. */
  lemma CleanEmptyIffAllNull(input: Doc)
    ensures CleanUpdateInput(Some(input)) == map[] <==> forall k :: k in input ==> input[k] == Null
  {
    if CleanUpdateInput(Some(input)) == map[] {
      forall k | k in input ensures input[k] == Null {
        assert k !in CleanUpdateInput(Some(input));
      }
    }
  }
}
