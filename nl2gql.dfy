/**
 * The natural-language-to-GraphQL service: the prompt sent to the language model,
 * the extraction of a GraphQL operation from the model's reply, and the request
 * pipeline that turns the upstream reply into a (payload, status) pair.
 */
module Nl2Gql {
  import opened Wrappers
  import opened Strings

  const Fence: string := "```"
  const Label: string := "graphql"
  const Sentinel: string := "INVALID"

  // ---------------------------------------------------------------------------
  // The prompt

  /** The fixed rules that open every prompt, up to the sentinel rule. */
  const Rules: string :=
    "You are a GraphQL assistant for a job portal. Your job is to translate the user's request into a valid GraphQL operation based on the schema. " +
    "Return ONLY the GraphQL operation code with no explanations.\n\n" +
    "**KEY INSTRUCTIONS:**\n" +
    "1. Most queries are public - freely use:\n" +
    "   - `users` and `userById` for user searches\n" +
    "   - `jobs` and `jobById` for job searches\n" +
    "   - `matchingCandidates` for candidate matching\n" +
    "   - `analyticsJobsCount` for job counts\n\n" +
    "2. Auth-required operations - use these if the request implies it's the logged-in user acting:\n" +
    "   - `updateMyProfile` for profile updates like 'update my skills'\n" +
    "   - `apply` for job applications like 'apply to job X'\n" +
    "   - `recommendedJobs` for personalized recommendations\n\n" +
    "3. Admin operations (no role restrictions) - use if explicitly requested:\n" +
    "   - `createJob` for creating jobs\n" +
    "   - `updateJob`/`deleteJob` for managing jobs\n" +
    "   - `updateUser`/`deleteUser` for managing other users\n\n"

  const SentinelRule: string := "4. If the request cannot be mapped to the schema, return the word: "
  const Instructions: string := Rules + SentinelRule + Sentinel + "\n\n"
  const SchemaHeader: string := "Schema:\n"
  const RequestHeader: string := "User request:\n"

  /**
   * The prompt: the instructions, then the schema text and the user's request verbatim,
   * the request last.
   */
  function BuildPrompt(userText: string, schemaSdl: string): (prompt: string)
    ensures StartsWith(prompt, Instructions) && Contains(prompt, Sentinel)
    ensures Occurs(prompt, schemaSdl, |Instructions| + |SchemaHeader|)
    ensures EndsWith(prompt, RequestHeader + userText)
  {
    PromptLayout(Instructions, SchemaHeader, schemaSdl, RequestHeader + userText);
    SentinelInInstructions();
    OccursExtend(Instructions, SchemaHeader + schemaSdl + ("\n\n" + (RequestHeader + userText)), Sentinel, |Rules + SentinelRule|);
    Instructions + (SchemaHeader + schemaSdl + ("\n\n" + (RequestHeader + userText)))
  }

  lemma PromptLayout(instructions: string, header: string, schema: string, request: string)
    ensures var prompt := instructions + (header + schema + ("\n\n" + request));
      StartsWith(prompt, instructions) && Occurs(prompt, schema, |instructions| + |header|) && EndsWith(prompt, request)
  {
    var body := header + schema + ("\n\n" + request);
    Layout(header, schema, "\n\n" + request);
    Layout("\n\n", request, []);
    assert "\n\n" + request + [] == "\n\n" + request;
    Layout(instructions, body, []);
    assert instructions + body + [] == instructions + body;
    OccursExtend(body, instructions, schema, |header|);
    EndsWithTrans(body, "\n\n" + request, request);
    EndsWithTrans(instructions + body, body, request);
  }

  lemma SentinelInInstructions()
    ensures Occurs(Instructions, Sentinel, |Rules + SentinelRule|)
  {
    Layout(Rules + SentinelRule, Sentinel, "\n\n");
  }

  // ---------------------------------------------------------------------------
  // Extracting the operation from the model's reply

  /** Python's falsiness of `s.strip()`. */
  predicate Blank(s: string) {
    Strip(s, Python) == []
  }

  /** A fenced segment is labelled when its stripped form starts with "graphql". */
  predicate IsLabelled(block: string) {
    StartsWith(Strip(block, Python), Label)
  }

  /**
   * The query of a labelled segment: the lines of the unstripped segment after the
   * first, rejoined with "\n" and stripped; a single-line segment yields "".
   */
  function LabelledBody(block: string): string {
    var lines := SplitLines(block);
    if |lines| > 1 then Strip(Join("\n", lines[1..]), Python) else ""
  }

  /** Every odd-indexed segment from 1 on is blank. */
  predicate OddPartsBlank(parts: seq<string>) {
    forall j :: 1 <= j < |parts| && j % 2 == 1 ==> Blank(parts[j])
  }

  /** The first labelled segment among parts[i], parts[i + 2], ... */
  function FirstLabelled(parts: seq<string>, i: nat): (r: Option<nat>)
    ensures r.Some? ==> i <= r.value < |parts| && (r.value - i) % 2 == 0 && IsLabelled(parts[r.value])
    ensures forall j :: i <= j < |parts| && (j - i) % 2 == 0 && (r.None? || j < r.value) ==> !IsLabelled(parts[j])
    decreases |parts| - i
  {
    if i >= |parts| then None
    else if IsLabelled(parts[i]) then Some(i)
    else FirstLabelled(parts, i + 2)
  }

  /** The first non-blank segment among parts[i], parts[i + 2], ... */
  function FirstNonBlank(parts: seq<string>, i: nat): (r: Option<nat>)
    ensures r.Some? ==> i <= r.value < |parts| && (r.value - i) % 2 == 0 && !Blank(parts[r.value])
    ensures forall j :: i <= j < |parts| && (j - i) % 2 == 0 && (r.None? || j < r.value) ==> Blank(parts[j])
    decreases |parts| - i
  {
    if i >= |parts| then None
    else if !Blank(parts[i]) then Some(i)
    else FirstNonBlank(parts, i + 2)
  }

  /**
   * What extract_graphql returns for `text`. Splitting on the fence puts the fenced
   * segments at odd indices. The first labelled one decides; failing that, the first
   * non-blank one; failing that (or with no fence at all), the whole text, stripped.
   */
  function Extract(text: string): (gql: string)
    ensures IsStripped(gql, Python)
  {
    if !Contains(text, Fence) then Strip(text, Python)
    else
      var parts := SplitOn(text, Fence);
      match FirstLabelled(parts, 1)
      case Some(i) => LabelledBody(parts[i])
      case None =>
        match FirstNonBlank(parts, 1)
        case Some(i) => Strip(parts[i], Python)
        case None => Strip(text, Python)
  }

  /** extract_graphql: two scans over the odd-indexed segments, each returning early. */
  method ExtractGraphql(text: string) returns (gql: string)
    ensures gql == Extract(text)
  {
    if Contains(text, Fence) {
      var parts := SplitOn(text, Fence);
      var i := 1;
      while i < |parts|
        invariant FirstLabelled(parts, i) == FirstLabelled(parts, 1)
        decreases |parts| - i
      {
        if IsLabelled(parts[i]) {
          return LabelledBody(parts[i]);
        }
        i := i + 2;
      }
      i := 1;
      while i < |parts|
        invariant FirstNonBlank(parts, i) == FirstNonBlank(parts, 1)
        decreases |parts| - i
      {
        if !Blank(parts[i]) {
          return Strip(parts[i], Python);
        }
        i := i + 2;
      }
    }
    return Strip(text, Python);
  }

  // ---------------------------------------------------------------------------
  // Properties of the extraction

  /** The backtick is not whitespace, so whitespace never holds a fence character. */
  lemma SpaceHasNoFence(s: string)
    requires AllSpace(s, Python)
    ensures Fence[0] !in s && forall c :: c in s ==> c !in Fence
  {
  }

  /** A blank string followed by whitespace is still blank, and conversely. */
  lemma BlankPadded(q: string, r: string)
    requires AllSpace(r, Python)
    ensures Blank(q + r) <==> Blank(q)
  {
    StripEmptyIffBlank(q + r, Python);
    StripEmptyIffBlank(q, Python);
    if AllSpace(q + r, Python) {
      forall i | 0 <= i < |q| ensures IsSpace(q[i], Python) {
        assert q[i] == (q + r)[i];
      }
    }
    if AllSpace(q, Python) {
      forall i | 0 <= i < |q + r| ensures IsSpace((q + r)[i], Python) {
        if i >= |q| {
          assert (q + r)[i] == r[i - |q|];
        }
      }
    }
  }

  /** A blank segment is never labelled. */
  lemma BlankNotLabelled(parts: seq<string>)
    requires OddPartsBlank(parts)
    ensures FirstLabelled(parts, 1).None? && FirstNonBlank(parts, 1).None?
  {
    forall j | 1 <= j < |parts| && (j - 1) % 2 == 0 ensures Blank(parts[j]) && !IsLabelled(parts[j]) {
      assert j % 2 == 1;
    }
  }

  /** With no labelled and no non-blank segment, every odd-indexed segment is blank. */
  lemma NoneFoundAllBlank(parts: seq<string>)
    requires FirstNonBlank(parts, 1).None?
    ensures OddPartsBlank(parts)
  {
    forall j | 1 <= j < |parts| && j % 2 == 1 ensures Blank(parts[j]) {
      assert (j - 1) % 2 == 0;
    }
  }

  /**
   * Stripping the text only trims whitespace off the first and the last segment, so
   * the odd-indexed segments stay blank.
   */
  lemma StripKeepsOddPartsBlank(text: string)
    requires OddPartsBlank(SplitOn(text, Fence))
    ensures OddPartsBlank(SplitOn(Strip(text, Python), Fence))
  {
    var a, b := StripSpan(text, Python);
    var l, m, r := text[..a], text[a..b], text[b..];
    ThreeSlices(text, a, b);
    SpaceHasNoFence(l);
    SpaceHasNoFence(r);
    SplitPrefix(l, m + r, Fence);
    SplitSuffix(m, r, Fence);
    OddBlankInner(SplitOn(text, Fence), SplitOn(m + r, Fence), SplitOn(m, Fence), l, r);
  }

  lemma ThreeSlices(s: string, a: nat, b: nat)
    requires a <= b <= |s|
    ensures s == s[..a] + (s[a..b] + s[b..])
  {
  }

  /** The segments of the middle part line up with those of the whole, bar whitespace at the two ends. */
  lemma OddBlankInner(pt: seq<string>, pr: seq<string>, q: seq<string>, l: string, r: string)
    requires |q| >= 1 && |pr| >= 1
    requires pt == [l + pr[0]] + pr[1..] && pr == q[..|q| - 1] + [q[|q| - 1] + r]
    requires AllSpace(r, Python) && OddPartsBlank(pt)
    ensures OddPartsBlank(q)
  {
    assert |pt| == |pr| == |q|;
    forall j | 1 <= j < |q| && j % 2 == 1 ensures Blank(q[j]) {
      assert pt[j] == pr[j] && Blank(pt[j]);
      if j < |q| - 1 {
        assert pr[j] == q[j];
      } else {
        assert pr[j] == q[j] + r;
        BlankPadded(q[j], r);
      }
    }
  }

  /** A segment without a fence yields a query without a fence. */
  lemma LabelledBodyAbsent(block: string)
    requires !Contains(block, Fence)
    ensures !Contains(LabelledBody(block), Fence)
  {
    var lines := SplitLines(block);
    SplitLinesAbsent(block, Fence);
    if |lines| > 1 {
      var rest := lines[1..];
      assert forall k :: 0 <= k < |rest| ==> !Contains(rest[k], Fence) by {
        forall k | 0 <= k < |rest| ensures !Contains(rest[k], Fence) {
          assert rest[k] == lines[k + 1];
        }
      }
      JoinAbsent('\n', rest, Fence);
      StripAbsent(Join("\n", rest), Fence, Python);
    }
  }

  /** The result of an extraction is stable under a second extraction. */
  lemma ExtractIdempotent(text: string)
    ensures Extract(Extract(text)) == Extract(text)
  {
    var gql := Extract(text);
    if Contains(text, Fence) {
      var parts := SplitOn(text, Fence);
      SplitPartsAbsent(text, Fence);
      match FirstLabelled(parts, 1)
      case Some(i) =>
        LabelledBodyAbsent(parts[i]);
      case None =>
        match FirstNonBlank(parts, 1)
        case Some(i) =>
          StripAbsent(parts[i], Fence, Python);
        case None =>
          NoneFoundAllBlank(parts);
          StripKeepsOddPartsBlank(text);
          if Contains(gql, Fence) {
            BlankNotLabelled(SplitOn(gql, Fence));
          }
    } else {
      StripAbsent(text, Fence, Python);
    }
    StrippedIsFixed(gql, Python);
  }

  /** The fence is found right after a prefix without a fence that does not end in a backtick. */
  lemma FenceSplit(x: string, rest: string)
    requires !Contains(x, Fence) && (x == [] || x[|x| - 1] != '`')
    ensures SplitOn(x + Fence + rest, Fence) == [x] + SplitOn(rest, Fence)
  {
    var s := x + Fence + rest;
    OccursBetween(x, Fence, rest);
    forall j | 0 <= j < |x| ensures !Occurs(s, Fence, j) {
      if j + 3 <= |x| {
        assert s[j..j + 3] == x[j..j + 3];
        assert !Occurs(x, Fence, j);
      } else if j + 3 <= |s| {
        assert s[j..j + 3][|x| - 1 - j] == x[|x| - 1];
      }
    }
    assert IndexFrom(s, Fence, 0) == Some(|x|);
    assert s[..|x|] == x;
    assert s[|x| + 3..] == rest;
  }

  /** The label has no fence. */
  lemma LabelHasNoFence()
    ensures !Contains(Label, Fence)
  {
    forall j | 0 <= j <= |Label| ensures !Occurs(Label, Fence, j) {
      if j + 3 <= |Label| {
        assert Label[j..j + 3][0] == Label[j];
      }
    }
  }

  /** A segment that starts with the label is labelled. */
  lemma StartsWithLabel(s: string)
    requires StartsWith(s, Label)
    ensures IsLabelled(s)
  {
    assert s[..7] == Label;
    assert s[0] == s[..7][0] == 'g';
    assert s[6] == s[..7][6] == 'l';
    assert TrimStart(s, Python) == s;
    var r := TrimEnd(s, Python);
    TrimEndSpec(s, Python);
    AllSpaceSuffix(s, |r|, Python);
    assert |r| > 6;
    assert r[..7] == s[..7];
  }

  lemma Regroup(a: string, f: string, b: string, c: string)
    ensures a + f + b + f + c == a + f + (b + f + c)
  {
  }

  /** Two fences after a prefix and around a block split the text into prefix, block, and the rest's parts. */
  lemma FenceBlocks(pre: string, block: string, post: string)
    requires !Contains(pre, Fence) && (pre == [] || pre[|pre| - 1] != '`')
    requires !Contains(block, Fence) && (block == [] || block[|block| - 1] != '`')
    ensures var text := pre + Fence + block + Fence + post;
      Contains(text, Fence) && SplitOn(text, Fence) == [pre, block] + SplitOn(post, Fence)
  {
    var rest := block + Fence + post;
    Regroup(pre, Fence, block, post);
    OccursBetween(pre, Fence, rest);
    FenceSplit(pre, rest);
    FenceSplit(block, post);
    SplitChain(pre + Fence + rest, rest, post, pre, block);
  }

  /** Two split steps in a row. */
  lemma SplitChain(t1: string, t2: string, t3: string, a: string, b: string)
    requires SplitOn(t1, Fence) == [a] + SplitOn(t2, Fence) && SplitOn(t2, Fence) == [b] + SplitOn(t3, Fence)
    ensures SplitOn(t1, Fence) == [a, b] + SplitOn(t3, Fence)
  {
    assert [a] + ([b] + SplitOn(t3, Fence)) == [a, b] + SplitOn(t3, Fence);
  }

  /** The lines of "graphql\n<query>\n" after the label line are the query's lines. */
  lemma QueryBlock(lines: seq<string>)
    requires |lines| > 0
    requires forall k :: 0 <= k < |lines| ==> NoLineBreak(lines[k]) && !Contains(lines[k], Fence)
    ensures var block := Label + "\n" + Join("\n", lines) + "\n";
      !Contains(block, Fence) && block[|block| - 1] == '\n' && IsLabelled(block)
      && LabelledBody(block) == Strip(Join("\n", lines), Python)
  {
    var all := [Label] + lines;
    var block := Label + "\n" + Join("\n", lines) + "\n";
    LabelledShape(lines, all, block);
    LabelHasNoFence();
    LabelledLines(lines, all);
    JoinAbsent('\n', all, Fence);
    GlueAbsent(Join("\n", all), '\n', "", Fence);
    StartsWithLabel(block);
    SplitLinesOfJoined(all);
  }

  /** The label line followed by the query lines: no line holds a line break or a fence. */
  lemma LabelledLines(lines: seq<string>, all: seq<string>)
    requires forall k :: 0 <= k < |lines| ==> NoLineBreak(lines[k]) && !Contains(lines[k], Fence)
    requires all == [Label] + lines && !Contains(Label, Fence)
    ensures forall k :: 0 <= k < |all| ==> NoLineBreak(all[k]) && !Contains(all[k], Fence)
  {
    forall k | 0 <= k < |all| ensures NoLineBreak(all[k]) && !Contains(all[k], Fence) {
      if k > 0 {
        assert all[k] == lines[k - 1];
      }
    }
  }

  /** The label line joined in front of the query lines. */
  lemma LabelledShape(lines: seq<string>, all: seq<string>, block: string)
    requires |lines| > 0 && all == [Label] + lines && block == Label + "\n" + Join("\n", lines) + "\n"
    ensures Join("\n", all) + "\n" == block && Join("\n", all) + ['\n'] + "" == block
    ensures StartsWith(block, Label)
  {
    assert all[1..] == lines;
    assert block[..7] == Label;
  }

  /**
   * A reply holding one fenced block "```graphql\n<query>\n```" yields the query,
   * stripped, whatever follows the block; the text before it must hold no fence and
   * not end in a backtick, the query lines no line break and no fence.
   */
  lemma ExtractLabelledBlock(pre: string, lines: seq<string>, post: string)
    requires !Contains(pre, Fence) && (pre == [] || pre[|pre| - 1] != '`')
    requires |lines| > 0
    requires forall k :: 0 <= k < |lines| ==> NoLineBreak(lines[k]) && !Contains(lines[k], Fence)
    ensures var block := Label + "\n" + Join("\n", lines) + "\n";
      Extract(pre + Fence + block + Fence + post) == Strip(Join("\n", lines), Python)
  {
    var block := Label + "\n" + Join("\n", lines) + "\n";
    QueryBlock(lines);
    FenceBlocks(pre, block, post);
    var parts := SplitOn(pre + Fence + block + Fence + post, Fence);
    assert parts[1] == block;
    assert FirstLabelled(parts, 1) == Some(1);
  }

  /** A reply without any fence yields the whole reply, stripped; single or double backticks do not matter. */
  lemma ExtractUnfenced(text: string)
    requires !Contains(text, Fence)
    ensures Extract(text) == Strip(text, Python)
  {
  }

  /** A reply that is one fenced segment and nothing else is decided by that segment alone. */
  lemma SingleFence(block: string)
    requires NoBacktick(block)
    requires block != []
    ensures var text := Fence + block + Fence;
      Contains(text, Fence) && SplitOn(text, Fence) == ["", block, ""]
  {
    NoBacktickNoFence(block);
    NoBacktickNoFence("");
    FenceBlocks("", block, "");
    assert "" + Fence + block + Fence + "" == Fence + block + Fence;
    assert SplitOn("", Fence) == [""];
  }

  /**
   * The label is found on the stripped segment but dropped from the unstripped one:
   * when the label sits on the line after the opening fence, it survives in the result.
   */
  lemma LabelLineKept(q: string)
    requires q != [] && NoLineBreak(q) && NoBacktick(q) && IsStripped(q, Python)
    ensures var line := Label + "\n" + q;
      Extract(Fence + ("\n" + line) + Fence) == line
  {
    var line := Label + "\n" + q;
    var block := "\n" + line;
    assert NoLineBreak(Label) && NoBacktick(Label);
    NoBacktickConcat(Label + "\n", q);
    NoBacktickConcat("\n", line);
    SingleFence(block);
    // The segment strips to `line`, which starts with the label.
    assert line[..7] == Label && line[|line| - 1] == q[|q| - 1];
    TrimStartSpacePrefix("\n", line, Python);
    StrippedIsFixed(line, Python);
    StartsWithLabel(line);
    assert IsLabelled(block);
    // Its lines are "", the label, and q.
    assert block == "" + "\n" + line;
    SplitLinesCons("", line);
    SplitLinesCons(Label, q);
    SplitLinesSingle(q);
    assert SplitLines(block) == ["", Label, q];
    assert Join("\n", [Label, q]) == line;
    var parts := SplitOn(Fence + block + Fence, Fence);
    assert FirstLabelled(parts, 1) == Some(1);
  }

  /** A labelled segment on a single line yields "", although it is not blank. */
  lemma OneLineLabelled(q: string)
    requires NoLineBreak(q) && NoBacktick(q)
    ensures var block := Label + " " + q;
      !Blank(block) && Extract(Fence + block + Fence) == ""
  {
    var block := Label + " " + q;
    assert NoLineBreak(Label + " ") && NoBacktick(Label + " ");
    NoBacktickConcat(Label + " ", q);
    NoLineBreakConcat(Label + " ", q);
    SingleFence(block);
    assert block[..7] == Label;
    StartsWithLabel(block);
    SplitLinesSingle(block);
    var parts := SplitOn(Fence + block + Fence, Fence);
    assert FirstLabelled(parts, 1) == Some(1);
  }

  /** Stripping never removes a fence: backticks are not whitespace. */
  lemma StripKeepsFence(s: string)
    requires Contains(s, Fence)
    ensures Contains(Strip(s, Python), Fence)
  {
    var j :| 0 <= j <= |s| && Occurs(s, Fence, j);
    var a, b := StripSpan(s, Python);
    AllSpacePrefix(s, a, Python);
    AllSpaceSuffix(s, b, Python);
    assert s[j] == s[j..j + 3][0] == '`';
    assert s[j + 2] == s[j..j + 3][2] == '`';
    OccursWithin(s, Fence, a, b, j);
  }

  /**
   * When every fenced segment is blank, the whole reply comes back stripped, its
   * fences included.
   */
  lemma BlankFencesKeepText(pre: string, w: string, post: string)
    requires NoBacktick(pre) && NoBacktick(w) && NoBacktick(post) && AllSpace(w, Python)
    ensures var text := pre + Fence + w + Fence + post;
      Extract(text) == Strip(text, Python) && Contains(Extract(text), Fence)
  {
    var text := pre + Fence + w + Fence + post;
    NoBacktickNoFence(pre);
    NoBacktickNoFence(w);
    NoBacktickNoFence(post);
    FenceBlocks(pre, w, post);
    SplitAbsent(post, Fence);
    StripEmptyIffBlank(w, Python);
    ThreePartsBlank(SplitOn(text, Fence), pre, w, post);
    BlankNotLabelled(SplitOn(text, Fence));
    StripKeepsFence(text);
  }

  lemma ThreePartsBlank(parts: seq<string>, pre: string, w: string, post: string)
    requires parts == [pre, w] + [post] && Blank(w)
    ensures OddPartsBlank(parts)
  {
    assert parts[1] == w;
  }

  predicate NoBacktick(s: string) {
    forall i :: 0 <= i < |s| ==> s[i] != '`'
  }

  lemma NoBacktickConcat(a: string, b: string)
    requires NoBacktick(a) && NoBacktick(b)
    ensures NoBacktick(a + b)
  {
    forall i | 0 <= i < |a + b| ensures (a + b)[i] != '`' {
      if i >= |a| {
        assert (a + b)[i] == b[i - |a|];
      }
    }
  }

  /** A backtick-free string holds no fence. */
  lemma NoBacktickNoFence(s: string)
    requires NoBacktick(s)
    ensures !Contains(s, Fence)
  {
    forall j | 0 <= j <= |s| ensures !Occurs(s, Fence, j) {
      if j + 3 <= |s| {
        assert s[j..j + 3][0] == s[j];
      }
    }
  }
}

/**
 * process_nl2gql_request: build the prompt, ask the language model, extract the
 * operation, then either return it or run it through the injected executor.
 */
module Nl2GqlPipeline {
  import opened Wrappers
  import opened Strings
  import opened Nl2Gql

  /** The body of a reply: not JSON at all, or a JSON object whose "response" field may be absent. */
  datatype Body = NonJson | Json(response: Option<string>)

  /** What the POST to the model's generate endpoint produced. */
  datatype Upstream = Timeout | TransportError(detail: string) | Response(code: int, body: Body)

  /** The payload half of a (payload, status) pair; the error payload is built by json_error. */
  datatype Payload<R> = Error(message: string) | Query(graphql: string) | Executed(graphql: string, result: R)

  datatype Outcome<R> = Outcome(payload: Payload<R>, status: int)

  /** What the executor returns: a success flag and the GraphQL result. */
  datatype Execution<R> = Execution(success: bool, result: R)

  const TimeoutMessage: string := "Upstream NL generation timed out"
  const NetworkPrefix: string := "Ollama network error: "
  const StatusPrefix: string := "Ollama error "
  const NonJsonMessage: string := "Ollama returned non-JSON response"
  const OutOfScopeMessage: string :=
    "Out of scope. Your request could not be mapped to a valid operation. Try asking about users or jobs."

  /** requests' Response.ok: false exactly for the 4xx and 5xx codes. */
  predicate Ok(code: int) {
    !(400 <= code < 600)
  }

  /** The text the model generated, when the reply is a successful JSON object ("" without a "response" field). */
  function Generated(up: Upstream): (text: Option<string>)
    ensures text.Some? <==> up.Response? && Ok(up.code) && up.body.Json?
    ensures text.Some? && up.body.response.None? ==> text.value == ""
  {
    if up.Response? && Ok(up.code) && up.body.Json? then Some(up.body.response.GetOr("")) else None
  }

  /** The extracted operation is refused when empty or when it is the sentinel in any letter case. */
  predicate Rejected(gql: string) {
    gql == [] || Upper(Strip(gql, Python)) == Sentinel
  }

  method ProcessRequest<R>(userText: string, schemaSdl: string, runGraphql: bool,
                           post: string -> Upstream,
                           execute: map<string, string> -> Execution<R>,
                           unwrap: R -> Option<Outcome<R>>)
    returns (outcome: Outcome<R>, executed: seq<map<string, string>>)
    // Upstream failures never reach the executor.
    ensures var up := post(BuildPrompt(userText, schemaSdl));
      up.Timeout? ==> outcome == Outcome(Error(TimeoutMessage), 504)
    ensures var up := post(BuildPrompt(userText, schemaSdl));
      up.TransportError? ==> outcome == Outcome(Error(NetworkPrefix + up.detail), 502)
    ensures var up := post(BuildPrompt(userText, schemaSdl));
      up.Response? && !Ok(up.code) ==> outcome == Outcome(Error(StatusPrefix + IntToString(up.code)), 502)
    ensures var up := post(BuildPrompt(userText, schemaSdl));
      up.Response? && Ok(up.code) && up.body.NonJson? ==> outcome == Outcome(Error(NonJsonMessage), 502)
    // A generated text is extracted; an empty or sentinel extraction is out of scope.
    ensures var gen := Generated(post(BuildPrompt(userText, schemaSdl)));
      gen.Some? && Rejected(Extract(gen.value)) ==> outcome == Outcome(Error(OutOfScopeMessage), 400)
    ensures var gen := Generated(post(BuildPrompt(userText, schemaSdl)));
      gen.Some? && !Rejected(Extract(gen.value)) && !runGraphql ==> outcome == Outcome(Query(Extract(gen.value)), 200)
    // The executor runs exactly once, on the extracted query, and only in a live run that got that far.
    ensures var gen := Generated(post(BuildPrompt(userText, schemaSdl)));
      executed != [] <==> gen.Some? && !Rejected(Extract(gen.value)) && runGraphql
    ensures var gen := Generated(post(BuildPrompt(userText, schemaSdl)));
      executed != [] ==>
        var gql := Extract(gen.value);
        var run := execute(map["query" := gql]);
        executed == [map["query" := gql]] &&
        outcome == (match unwrap(run.result)
                    case Some(wrapped) => wrapped
                    case None => Outcome(Executed(gql, run.result), if run.success then 200 else 400))
  {
    executed := [];
    var prompt := BuildPrompt(userText, schemaSdl);
    var up := post(prompt);
    match up {
      case Timeout =>
        return Outcome(Error(TimeoutMessage), 504), executed;
      case TransportError(detail) =>
        return Outcome(Error(NetworkPrefix + detail), 502), executed;
      case Response(code, body) =>
        if !Ok(code) {
          return Outcome(Error(StatusPrefix + IntToString(code)), 502), executed;
        }
        if body.NonJson? {
          return Outcome(Error(NonJsonMessage), 502), executed;
        }
        var gen := body.response.GetOr("");
        var gql := ExtractGraphql(gen);
        if Rejected(gql) {
          return Outcome(Error(OutOfScopeMessage), 400), executed;
        }
        if !runGraphql {
          return Outcome(Query(gql), 200), executed;
        }
        var call := map["query" := gql];
        var run := execute(call);
        executed := [call];
        var wrapped := unwrap(run.result);
        if wrapped.Some? {
          return wrapped.value, executed;
        }
        return Outcome(Executed(gql, run.result), if run.success then 200 else 400), executed;
    }
  }

  /** Extraction already strips, so the second strip before the sentinel test changes nothing. */
  lemma RejectedExtracted(text: string)
    ensures Rejected(Extract(text)) <==> Extract(text) == [] || Upper(Extract(text)) == Sentinel
  {
    StrippedIsFixed(Extract(text), Python);
  }

  /** The sentinel is refused in any letter case. */
  lemma LowercaseSentinelRejected()
    ensures Rejected("invalid") && Rejected("Invalid")
  {
    assert Strip("invalid", Python) == "invalid";
    assert Strip("Invalid", Python) == "Invalid";
    assert Upper("invalid") == Sentinel;
    assert Upper("Invalid") == Sentinel;
  }
}
