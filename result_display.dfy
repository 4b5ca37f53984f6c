/**
 * The chat message parser of the React front end: it splits an assistant
 * message into free text, the generated GraphQL and the JSON result, and
 * falls back to showing the message as it is when there is neither.
 */
module ResultDisplay {
  import opened Wrappers
  import opened Strings

  const Fence: string := "```"
  const GraphqlOpen: string := "```graphql"
  const JsonOpen: string := "```json"
  const GqlHeader: string := "**Generated GraphQL:**"
  const ResultHeader: string := "**Result:**"

  /** The two block openers the parser looks for. */
  predicate IsOpener(open: string) {
    open == GraphqlOpen || open == JsonOpen
  }

  // ---------------------------------------------------------------------------
  // Searching

  /** A first occurrence moved `d` places to the right. */
  function Shifted(k: Option<nat>, d: nat): Option<nat> {
    if k.Some? then Some(k.value + d) else None
  }

  /** Positions from `from` to `to` hold no occurrence, so the search may start at `to`. */
  lemma IndexFromSkip(s: string, p: string, from: nat, to: nat)
    requires from <= to && forall k :: from <= k < to ==> !Occurs(s, p, k)
    ensures IndexFrom(s, p, from) == IndexFrom(s, p, to)
  {
    var a := IndexFrom(s, p, from);
    var b := IndexFrom(s, p, to);
    if a.Some? {
      assert !Occurs(s, p, a.value) || a.value >= to;
    }
    if b.Some? {
      assert Occurs(s, p, b.value);
    }
  }

  /** A search that starts inside `s` finds in `l + s` what it finds in `s`, moved by `|l|`. */
  lemma {:induction false} IndexFromShift(l: string, s: string, p: string, from: nat)
    requires |l| <= from
    ensures IndexFrom(l + s, p, from) == Shifted(IndexFrom(s, p, from - |l|), |l|)
    decreases |l + s| - from
  {
    if from + |p| <= |l + s| {
      assert (l + s)[from..from + |p|] == s[from - |l|..from - |l| + |p|];
      if (l + s)[from..from + |p|] != p {
        IndexFromShift(l, s, p, from + 1);
      }
    }
  }

  /**
   * A prefix `x` without an occurrence, glued on with a character foreign to
   * `p`, moves the first occurrence by its length plus one.
   */
  lemma IndexAfterGlue(x: string, c: char, y: string, p: string)
    requires |p| > 0 && c !in p && !Contains(x, p)
    ensures IndexFrom(x + [c] + y, p, 0) == Shifted(IndexFrom(y, p, 0), |x| + 1)
  {
    var s := x + [c] + y;
    forall k | 0 <= k < |x| + 1 ensures !Occurs(s, p, k) {
      if k + |p| <= |x| {
        assert s[k..k + |p|] == x[k..k + |p|];
        assert !Occurs(x, p, k);
      } else if k + |p| <= |s| {
        assert s[k..k + |p|][|x| - k] == c;
      }
    }
    IndexFromSkip(s, p, 0, |x| + 1);
    IndexFromShift(x + [c], y, p, |x| + 1);
  }

  /** A string that starts with `p` has its first occurrence at 0. */
  lemma IndexAtStart(p: string, y: string)
    ensures IndexFrom(p + y, p, 0) == Some(0)
  {
    assert (p + y)[0..|p|] == p;
  }

  /** A character of `p` that `s` lacks rules out every occurrence of `p` in `s`. */
  lemma CharAbsent(s: string, p: string, k: nat)
    requires k < |p| && p[k] !in s
    ensures !Contains(s, p)
  {
    forall i | 0 <= i <= |s| ensures !Occurs(s, p, i) {
      if i + |p| <= |s| {
        assert s[i..i + |p|][k] == s[i + k];
      }
    }
  }

  /** Every opener begins with a fence, so text without fences has no opener. */
  lemma OpenerImpliesFence(s: string, open: string)
    requires IsOpener(open)
    ensures Contains(s, open) ==> Contains(s, Fence)
  {
    if Contains(s, open) {
      var i :| 0 <= i <= |s| && Occurs(s, open, i);
      OpenerHasFence(s, open, i);
    }
  }

  lemma OpenerHasFence(s: string, open: string, i: int)
    requires IsOpener(open) && Occurs(s, open, i)
    ensures Occurs(s, Fence, i)
  {
    assert s[i..i + 3] == s[i..i + |open|][..3];
  }

  /** Two occurrences of an opener never overlap: its fourth character is not a backtick. */
  lemma OpenersApart(s: string, open: string, a: int, b: int)
    requires IsOpener(open) && Occurs(s, open, a) && Occurs(s, open, b) && a < b
    ensures a + |open| <= b
  {
    assert forall k :: 0 <= k < 3 ==> open[k] == '`';
    assert forall k :: 3 <= k < |open| ==> open[k] != '`';
    assert forall k :: a <= k < a + |open| ==> s[k] == s[a..a + |open|][k - a] == open[k - a];
    assert forall k :: b <= k < b + |open| ==> s[k] == s[b..b + |open|][k - b] == open[k - b];
    assert s[b] == '`' && s[a + 3] == open[3];
  }

  // ---------------------------------------------------------------------------
  // The block pattern /open([\s\S]*?)```/

  /** A match of the block pattern: the opener at `start`, the closing fence at `close`. */
  datatype Span = Span(start: nat, close: nat)

  /** The opener at `i`, and a fence at `e` at or after the opener's end. */
  predicate IsBlock(s: string, open: string, i: int, e: int) {
    Occurs(s, open, i) && i + |open| <= e && Occurs(s, Fence, e)
  }

  /** The match String.prototype.match returns: the first opener, closed by the first fence after it. */
  function FirstBlock(s: string, open: string): Option<Span>
  {
    var i := IndexFrom(s, open, 0);
    if i.None? then None
    else
      var e := IndexFrom(s, Fence, i.value + |open|);
      if e.None? then None else Some(Span(i.value, e.value))
  }

  /**
   * What is found is a match of the pattern, no match starts earlier, and
   * no fence comes earlier after the opener: the leftmost, lazy match.
   */
  lemma FirstBlockIsMatch(s: string, open: string)
    requires FirstBlock(s, open).Some?
    ensures var b := FirstBlock(s, open).value;
      && IsBlock(s, open, b.start, b.close)
      && (forall i, e :: i < b.start ==> !IsBlock(s, open, i, e))
      && (forall e :: b.start + |open| <= e < b.close ==> !Occurs(s, Fence, e))
  {
  }

  /**
   * The search is complete for both openers: wherever the pattern matches,
   * a match is found, so None means the regex has no match at all.
   */
  lemma BlockFound(s: string, open: string, i: int, e: int)
    requires IsOpener(open) && IsBlock(s, open, i, e)
    ensures FirstBlock(s, open).Some?
  {
    var k := IndexFrom(s, open, 0);
    assert k.Some? && k.value <= i;
    if k.value < i {
      OpenersApart(s, open, k.value, i);
      OpenerHasFence(s, open, i);
      assert IndexFrom(s, Fence, k.value + |open|).Some?;
    } else {
      assert IndexFrom(s, Fence, k.value + |open|).Some?;
    }
  }

  /** The group of the match: the text between the opener and the fence. */
  function Inner(s: string, open: string): (r: Option<string>)
    ensures r.None? <==> FirstBlock(s, open).None?
  {
    var b := FirstBlock(s, open);
    if b.None? then None else Some(s[b.value.start + |open|..b.value.close])
  }

  /** `.replace(/open[\s\S]*?```/, '')`: the first match cut out, fences included. */
  function RemoveBlock(s: string, open: string): (r: string)
    ensures FirstBlock(s, open).None? ==> r == s
    ensures FirstBlock(s, open).Some? ==> |r| < |s|
  {
    var b := FirstBlock(s, open);
    if b.None? then s else s[..b.value.start] + s[b.value.close + |Fence|..]
  }

  /** `.replace(p, '')` for a literal pattern: the first occurrence cut out. */
  function RemoveFirst(s: string, p: string): (r: string)
    ensures !Contains(s, p) ==> r == s
    ensures Contains(s, p) ==> |r| + |p| == |s|
  {
    IndexFromZero(s, p);
    var i := IndexFrom(s, p, 0);
    if i.None? then s else s[..i.value] + s[i.value + |p|..]
  }

  function ShiftSpan(b: Option<Span>, d: nat): Option<Span> {
    if b.Some? then Some(Span(b.value.start + d, b.value.close + d)) else None
  }

  /** A prefix that moves the first opener by its length moves the whole match with it. */
  lemma FirstBlockShift(l: string, y: string, open: string)
    requires IndexFrom(l + y, open, 0) == Shifted(IndexFrom(y, open, 0), |l|)
    ensures FirstBlock(l + y, open) == ShiftSpan(FirstBlock(y, open), |l|)
  {
    var i := IndexFrom(y, open, 0);
    if i.None? {
      FirstBlockNone(y, open);
      FirstBlockNone(l + y, open);
    } else {
      FirstBlockShiftAt(l, y, open, i.value);
    }
  }

  lemma FirstBlockShiftAt(l: string, y: string, open: string, i: nat)
    requires IndexFrom(y, open, 0) == Some(i) && IndexFrom(l + y, open, 0) == Some(i + |l|)
    ensures FirstBlock(l + y, open) == ShiftSpan(FirstBlock(y, open), |l|)
  {
    IndexFromShiftTo(l, y, Fence, i + |open|, i + |l| + |open|);
    FirstBlockMoved(l + y, y, open, i, |l|);
  }

  /** Two strings whose searches agree up to a shift `d` have matches that agree up to `d`. */
  lemma FirstBlockMoved(s: string, y: string, open: string, i: nat, d: nat)
    requires IndexFrom(y, open, 0) == Some(i) && IndexFrom(s, open, 0) == Some(i + d)
    requires IndexFrom(s, Fence, i + d + |open|) == Shifted(IndexFrom(y, Fence, i + |open|), d)
    ensures FirstBlock(s, open) == ShiftSpan(FirstBlock(y, open), d)
  {
    var e := IndexFrom(y, Fence, i + |open|);
    FirstBlockOf(y, open, i, e);
    FirstBlockOf(s, open, i + d, Shifted(e, d));
    ShiftSpanOf(i, e, d);
  }

  /** IndexFromShift with the start in `l + s` named. */
  lemma IndexFromShiftTo(l: string, s: string, p: string, from: nat, to: nat)
    requires to == from + |l|
    ensures IndexFrom(l + s, p, to) == Shifted(IndexFrom(s, p, from), |l|)
  {
    IndexFromShift(l, s, p, to);
  }

  lemma ShiftSpanOf(i: nat, e: Option<nat>, d: nat)
    ensures ShiftSpan(if e.None? then None else Some(Span(i, e.value)), d) ==
      if Shifted(e, d).None? then None else Some(Span(i + d, Shifted(e, d).value))
  {
  }

  /** Without an opener there is no match. */
  lemma FirstBlockNone(s: string, open: string)
    requires IndexFrom(s, open, 0).None?
    ensures FirstBlock(s, open) == None
  {
  }

  /** FirstBlock from the two searches it makes. */
  lemma FirstBlockOf(s: string, open: string, i: nat, e: Option<nat>)
    requires IndexFrom(s, open, 0) == Some(i) && IndexFrom(s, Fence, i + |open|) == e
    ensures FirstBlock(s, open) == if e.None? then None else Some(Span(i, e.value))
  {
  }

  /** The group and the rest of a match found at `i`, closed at `e`. */
  lemma BlockParts(s: string, open: string, i: nat, e: nat)
    requires FirstBlock(s, open) == Some(Span(i, e))
    ensures i + |open| <= e && e + |Fence| <= |s|
    ensures Inner(s, open) == Some(s[i + |open|..e])
    ensures RemoveBlock(s, open) == s[..i] + s[e + |Fence|..]
  {
    FirstBlockIsMatch(s, open);
  }

  /** A slice of `y` is the slice of `l + y` moved by `|l|`. */
  lemma ShiftSlice(l: string, y: string, a: nat, b: nat, a2: nat, b2: nat)
    requires a <= b <= |y| && a2 == a + |l| && b2 == b + |l|
    ensures (l + y)[a2..b2] == y[a..b]
  {
  }

  /** Cutting `y[a..b]` out of `l + y` keeps `l` in front. */
  lemma ShiftCut(l: string, y: string, a: nat, b: nat, a2: nat, b2: nat)
    requires a <= b <= |y| && a2 == a + |l| && b2 == b + |l|
    ensures (l + y)[..a2] + (l + y)[b2..] == l + (y[..a] + y[b..])
  {
    assert (l + y)[..a2] == l + y[..a];
    assert (l + y)[b2..] == y[b..];
  }

  /** ... and so the group found and the text left after cutting the match out. */
  lemma BlockShift(l: string, y: string, open: string)
    requires FirstBlock(l + y, open) == ShiftSpan(FirstBlock(y, open), |l|)
    ensures Inner(l + y, open) == Inner(y, open)
    ensures RemoveBlock(l + y, open) == l + RemoveBlock(y, open)
  {
    var b := FirstBlock(y, open);
    if b.Some? {
      BlockShiftAt(l, y, open, b.value.start, b.value.close);
    }
  }

  lemma BlockShiftAt(l: string, y: string, open: string, i: nat, e: nat)
    requires FirstBlock(y, open) == Some(Span(i, e)) && FirstBlock(l + y, open) == Some(Span(i + |l|, e + |l|))
    ensures Inner(l + y, open) == Inner(y, open)
    ensures RemoveBlock(l + y, open) == l + RemoveBlock(y, open)
  {
    BlockParts(y, open, i, e);
    BlockParts(l + y, open, i + |l|, e + |l|);
    ShiftSlice(l, y, i + |open|, e, i + |l| + |open|, e + |l|);
    ShiftCut(l, y, i, e + |Fence|, i + |l|, e + |l| + |Fence|);
  }

  /** RemoveFirst when the literal is first found at `i`. */
  lemma RemoveFirstAt(s: string, p: string, i: nat)
    requires IndexFrom(s, p, 0) == Some(i)
    ensures i + |p| <= |s| && RemoveFirst(s, p) == s[..i] + s[i + |p|..]
  {
    assert Occurs(s, p, i);
  }

  /** The same for a literal pattern. */
  lemma RemoveFirstShift(l: string, y: string, p: string)
    requires IndexFrom(l + y, p, 0) == Shifted(IndexFrom(y, p, 0), |l|)
    ensures RemoveFirst(l + y, p) == l + RemoveFirst(y, p)
  {
    var i := IndexFrom(y, p, 0);
    if i.Some? {
      RemoveFirstShiftAt(l, y, p, i.value);
    } else {
      RemoveFirstNone(y, p);
      RemoveFirstNone(l + y, p);
    }
  }

  lemma RemoveFirstShiftAt(l: string, y: string, p: string, i: nat)
    requires IndexFrom(y, p, 0) == Some(i) && IndexFrom(l + y, p, 0) == Some(i + |l|)
    ensures RemoveFirst(l + y, p) == l + RemoveFirst(y, p)
  {
    RemoveFirstAt(y, p, i);
    RemoveFirstAt(l + y, p, i + |l|);
    ShiftCut(l, y, i, i + |p|, i + |l|, i + |l| + |p|);
  }

  lemma RemoveFirstNone(s: string, p: string)
    requires IndexFrom(s, p, 0).None?
    ensures RemoveFirst(s, p) == s
  {
  }

  /** A block as the chat page writes it: the opener, a newline, the body, a newline, the fence. */
  function Block(open: string, body: string): string {
    open + "\n" + body + "\n" + Fence
  }

  lemma AtStartShape(open: string, body: string, post: string, m: string, rest: string)
    requires m == "\n" + body + "\n" + Fence + post && rest == body + ['\n'] + (Fence + post)
    ensures Block(open, body) + post == open + m && m == [] + ['\n'] + rest
    ensures !Contains([], Fence)
  {
  }

  /** A block at the very start is the match, whatever follows it, as long as its body has no fence. */
  lemma FirstBlockAtStart(open: string, body: string, post: string)
    requires IsOpener(open) && !Contains(body, Fence)
    ensures FirstBlock(Block(open, body) + post, open) == Some(Span(0, |open| + |body| + 2))
  {
    var m := "\n" + body + "\n" + Fence + post;
    var rest := body + ['\n'] + (Fence + post);
    AtStartShape(open, body, post, m, rest);
    IndexAtStart(open, m);
    IndexFromShiftTo(open, m, Fence, 0, 0 + |open|);
    IndexAfterGlue([], '\n', rest, Fence);
    IndexAfterGlue(body, '\n', Fence + post, Fence);
    IndexAtStart(Fence, post);
    FirstBlockOf(open + m, open, 0, Some(|open| + |body| + 2));
  }

  /** ... so its group is the body between the two newlines, and cutting it out leaves what follows. */
  lemma BlockAtStart(open: string, body: string, post: string)
    requires IsOpener(open) && !Contains(body, Fence)
    ensures Inner(Block(open, body) + post, open) == Some("\n" + body + "\n")
    ensures RemoveBlock(Block(open, body) + post, open) == post
  {
    var s := Block(open, body) + post;
    FirstBlockAtStart(open, body, post);
    BlockParts(s, open, 0, |open| + |body| + 2);
    AtStartSlices(open, body, post, s);
  }

  lemma AtStartSlices(open: string, body: string, post: string, s: string)
    requires s == Block(open, body) + post
    ensures s[0 + |open|..|open| + |body| + 2] == "\n" + body + "\n"
    ensures s[..0] + s[|open| + |body| + 2 + |Fence|..] == post
  {
    assert s[|open|..|open| + |body| + 2] == "\n" + body + "\n";
    assert s[|open| + |body| + 2 + |Fence|..] == post;
  }

  /** The same after text without backticks. */
  lemma BlockAfter(pre: string, open: string, body: string, post: string)
    requires IsOpener(open) && '`' !in pre && !Contains(body, Fence)
    ensures Inner(pre + (Block(open, body) + post), open) == Some("\n" + body + "\n")
    ensures RemoveBlock(pre + (Block(open, body) + post), open) == pre + post
  {
    var y := Block(open, body) + post;
    var k := IndexShiftPrefix(pre, y, open);
    FirstBlockShift(pre, y, open);
    BlockShift(pre, y, open);
    BlockAtStart(open, body, post);
  }

  /** A prefix without the opener that ends in a newline, then text without backticks, moves the first opener by its length. */
  lemma IndexShiftGlue(a: string, pre: string, y: string, open: string, l: string)
    requires IsOpener(open) && !Contains(a, open) && '`' !in pre && l == a + ['\n'] + pre
    ensures a + ['\n'] + (pre + y) == l + y
    ensures IndexFrom(l + y, open, 0) == Shifted(IndexFrom(y, open, 0), |l|)
  {
    GlueShape(a, pre, y, l);
    IndexAfterGlue(a, '\n', pre + y, open);
    IndexShiftPrefixEq(pre, y, open);
    ShiftedTwice(IndexFrom(y, open, 0), |pre|, |a| + 1, |l|);
  }

  lemma GlueShape(a: string, pre: string, y: string, l: string)
    requires l == a + ['\n'] + pre
    ensures a + ['\n'] + (pre + y) == l + y && |l| == |pre| + (|a| + 1)
  {
  }

  lemma ShiftedTwice(k: Option<nat>, d1: nat, d2: nat, d: nat)
    requires d == d1 + d2
    ensures Shifted(Shifted(k, d1), d2) == Shifted(k, d)
  {
  }

  /** IndexShiftPrefix stated with Shifted. */
  lemma IndexShiftPrefixEq(pre: string, y: string, p: string)
    requires |p| > 0 && p[0] !in pre
    ensures IndexFrom(pre + y, p, 0) == Shifted(IndexFrom(y, p, 0), |pre|)
  {
    var k := IndexShiftPrefix(pre, y, p);
  }

  /** The same after a prefix without the opener that ends in a newline, then text without backticks. */
  lemma BlockAfterGlue(a: string, pre: string, open: string, body: string, post: string)
    requires IsOpener(open) && !Contains(a, open) && '`' !in pre && !Contains(body, Fence)
    ensures Inner(a + ['\n'] + (pre + (Block(open, body) + post)), open) == Some("\n" + body + "\n")
  {
    var y := Block(open, body) + post;
    var l := a + ['\n'] + pre;
    IndexShiftGlue(a, pre, y, open, l);
    FirstBlockShift(l, y, open);
    BlockShift(l, y, open);
    BlockAtStart(open, body, post);
  }

  /** Cutting a literal out of text that starts with it leaves the rest. */
  lemma RemoveAtStart(p: string, y: string)
    ensures RemoveFirst(p + y, p) == y
  {
    IndexAtStart(p, y);
    assert (p + y)[|p|..] == y;
  }

  /** Cutting a literal out after text without its first character keeps that text. */
  lemma RemoveAfter(pre: string, p: string, y: string)
    requires p != [] && p[0] !in pre
    ensures RemoveFirst(pre + (p + y), p) == pre + y
  {
    var k := IndexShiftPrefix(pre, p + y, p);
    IndexAtStart(p, y);
    RemoveFirstShift(pre, p + y, p);
    RemoveAtStart(p, y);
  }

  // ---------------------------------------------------------------------------
  // parseContent and the component

  /** The `json` part: null, what JSON.parse returned, or the raw trimmed text it could not parse. */
  datatype Json<J> = NoJson | Parsed(value: J) | Raw(text: string)

  datatype Parts<J> = Parts(text: string, gql: string, json: Json<J>)

  /** What `parse` makes of a json group: the parsed value, or the raw text. */
  function JsonOf<J>(raw: string, parse: string -> Option<J>): Json<J> {
    if parse(raw).Some? then Parsed(parse(raw).value) else Raw(raw)
  }

  /**
   * parseContent. Content that is not a string (None) yields empty parts,
   * with `json` the empty string. Otherwise `gql` is the trimmed group of the
   * first graphql block; `json` is the trimmed group of the first json block
   * given to JSON.parse (the `parse` parameter), or that text itself when it
   * does not parse; `text` is what is left after cutting out the first
   * graphql block, then the first json block, then the two bold headers,
   * trimmed.
   */
  function ParseContent<J>(content: Option<string>, parse: string -> Option<J>): (r: Parts<J>)
    ensures content.None? ==> r == Parts("", "", Raw(""))
    ensures IsStripped(r.text, JavaScript) && IsStripped(r.gql, JavaScript)
    ensures content.Some? ==> (r.json.NoJson? <==> FirstBlock(content.value, JsonOpen).None?)
    ensures content.Some? && FirstBlock(content.value, GraphqlOpen).None? ==> r.gql == []
    ensures content.Some? && !Contains(content.value, Fence) ==> r.gql == [] && r.json == NoJson
  {
    if content.None? then Parts("", "", Raw(""))
    else
      var s := content.value;
      OpenerImpliesFence(s, GraphqlOpen);
      OpenerImpliesFence(s, JsonOpen);
      IndexFromZero(s, GraphqlOpen);
      IndexFromZero(s, JsonOpen);
      var g := Inner(s, GraphqlOpen);
      var gql := if g.Some? then Strip(g.value, JavaScript) else "";
      var j := Inner(s, JsonOpen);
      var json := if j.None? then NoJson else JsonOf(Strip(j.value, JavaScript), parse);
      var cut := RemoveBlock(RemoveBlock(s, GraphqlOpen), JsonOpen);
      var text := Strip(RemoveFirst(RemoveFirst(cut, GqlHeader), ResultHeader), JavaScript);
      Parts(text, gql, json)
  }

  /** JavaScript truthiness of the `json` part; `truthy` decides it for parsed values. */
  predicate JsonTruthy<J>(json: Json<J>, truthy: J -> bool) {
    match json
    case NoJson => false
    case Parsed(v) => truthy(v)
    case Raw(t) => t != []
  }

  /** What the component shows: the content as it is, or the sections that are present. */
  datatype View<J> =
    | Plain(content: Option<string>)
    | Sections(text: Option<string>, gql: Option<string>, result: Option<Json<J>>)

  /**
   * ResultDisplay: with no GraphQL and a falsy `json` the raw content is
   * shown; otherwise each of text, query and result is shown when truthy.
   */
  function Render<J>(content: Option<string>, parse: string -> Option<J>, truthy: J -> bool): (v: View<J>)
    ensures var p := ParseContent(content, parse);
      v.Plain? <==> p.gql == [] && !JsonTruthy(p.json, truthy)
    ensures v.Plain? ==> v.content == content
    ensures v.Sections? ==> v.gql.Some? || v.result.Some?
  {
    var p := ParseContent(content, parse);
    if p.gql == [] && !JsonTruthy(p.json, truthy) then Plain(content)
    else
      Sections(
        if p.text != [] then Some(p.text) else None,
        if p.gql != [] then Some(p.gql) else None,
        if JsonTruthy(p.json, truthy) then Some(p.json) else None)
  }

  // ---------------------------------------------------------------------------
  // Properties

  /** A non-string message is shown as it is. */
  lemma NonStringIsPlain<J>(parse: string -> Option<J>, truthy: J -> bool)
    ensures Render(None, parse, truthy) == Plain(None)
  {
  }

  /** A message without a fence, such as the "**Error:** ..." messages of the chat page, is shown as it is. */
  lemma FenceFreeIsPlain<J>(content: string, parse: string -> Option<J>, truthy: J -> bool)
    requires !Contains(content, Fence)
    ensures Render(Some(content), parse, truthy) == Plain(Some(content))
  {
  }

  /**
   * A graphql block after text without backticks gives back its query,
   * trimmed, whatever follows the block, as long as the query holds no fence.
   */
  lemma GraphqlBlockRoundTrip<J>(pre: string, g: string, post: string, parse: string -> Option<J>)
    requires '`' !in pre && !Contains(g, Fence)
    ensures ParseContent(Some(pre + Block(GraphqlOpen, g) + post), parse).gql == Strip(g, JavaScript)
  {
    var y := Block(GraphqlOpen, g) + post;
    assert pre + Block(GraphqlOpen, g) + post == pre + y;
    var k := IndexShiftPrefix(pre, y, GraphqlOpen);
    FirstBlockShift(pre, y, GraphqlOpen);
    BlockShift(pre, y, GraphqlOpen);
    BlockAtStart(GraphqlOpen, g, post);
    StripPadded("\n", g, "\n", JavaScript);
  }

  /** The assistant message the chat page composes from a query and the result's JSON text. */
  function ChatContent(g: string, j: string): string {
    GqlHeader + "\n\n" + Block(GraphqlOpen, g) + "\n\n" + ResultHeader + "\n\n" + Block(JsonOpen, j)
  }

  /**
   * Round trip with the chat page: a message it composes parses back to its
   * query and its result, trimmed, with no text left over, provided neither
   * holds a fence.
   */
  lemma ChatContentRoundTrip<J>(g: string, j: string, parse: string -> Option<J>)
    requires !Contains(g, Fence) && !Contains(j, Fence)
    ensures ParseContent(Some(ChatContent(g, j)), parse) ==
      Parts("", Strip(g, JavaScript), JsonOf(Strip(j, JavaScript), parse))
  {
    ChatGraphql(g, j);
    ChatJson(g, j);
    ChatText(j);
    ParseContentParts(ChatContent(g, j), parse, "\n" + g + "\n", "\n" + j + "\n", "\n\n\n\n\n\n");
    PaddedStrip(g);
    PaddedStrip(j);
    NewlinesStrip();
  }

  /** The newlines around a block's body are trimmed away. */
  lemma PaddedStrip(b: string)
    ensures Strip("\n" + b + "\n", JavaScript) == Strip(b, JavaScript)
  {
    StripPadded("\n", b, "\n", JavaScript);
  }

  lemma NewlinesStrip()
    ensures Strip("\n\n\n\n\n\n", JavaScript) == []
  {
    StripEmptyIffBlank("\n\n\n\n\n\n", JavaScript);
  }

  /** ParseContent of a string from its two groups and the text left over. */
  lemma ParseContentParts<J>(s: string, parse: string -> Option<J>, gi: string, ji: string, rest: string)
    requires Inner(s, GraphqlOpen) == Some(gi) && Inner(s, JsonOpen) == Some(ji)
    requires RemoveFirst(RemoveFirst(RemoveBlock(RemoveBlock(s, GraphqlOpen), JsonOpen), GqlHeader), ResultHeader) == rest
    ensures ParseContent(Some(s), parse) ==
      Parts(Strip(rest, JavaScript), Strip(gi, JavaScript), JsonOf(Strip(ji, JavaScript), parse))
  {
  }

  /** The text between the two headers once the graphql block is cut out. */
  const Between: string := GqlHeader + "\n\n\n\n" + ResultHeader + "\n\n"

  /** The graphql block of a chat message is found after the first header. */
  lemma ChatGraphql(g: string, j: string)
    requires !Contains(g, Fence) && !Contains(j, Fence)
    ensures Inner(ChatContent(g, j), GraphqlOpen) == Some("\n" + g + "\n")
    ensures RemoveBlock(ChatContent(g, j), GraphqlOpen) == Between + Block(JsonOpen, j)
  {
    ChatShapeGraphql(g, j);
    BlockAfter(GqlHeader + "\n\n", GraphqlOpen, g, "\n\n" + ResultHeader + "\n\n" + Block(JsonOpen, j));
  }

  lemma ChatShapeGraphql(g: string, j: string)
    ensures var p1 := GqlHeader + "\n\n";
      var r1 := "\n\n" + ResultHeader + "\n\n" + Block(JsonOpen, j);
      && ChatContent(g, j) == p1 + (Block(GraphqlOpen, g) + r1)
      && p1 + r1 == Between + Block(JsonOpen, j)
  {
  }

  /** Nothing before the json block of a chat message holds its opener. */
  lemma ChatJson(g: string, j: string)
    requires !Contains(g, Fence) && !Contains(j, Fence)
    ensures Inner(ChatContent(g, j), JsonOpen) == Some("\n" + j + "\n")
  {
    ChatShapeJson(g, j);
    var x := GqlHeader + "\n\n" + GraphqlOpen;
    CharAbsent(x, JsonOpen, 3);
    OpenerImpliesFence(g, JsonOpen);
    GlueAbsent(x, '\n', g, JsonOpen);
    assert !Contains(Fence, JsonOpen);
    GlueAbsent(x + ['\n'] + g, '\n', Fence, JsonOpen);
    BlockAfterGlue(x + ['\n'] + g + ['\n'] + Fence, "\n" + ResultHeader + "\n\n", JsonOpen, j, []);
  }

  lemma ChatShapeJson(g: string, j: string)
    ensures var a := GqlHeader + "\n\n" + GraphqlOpen + ['\n'] + g + ['\n'] + Fence;
      ChatContent(g, j) == a + ['\n'] + ("\n" + ResultHeader + "\n\n" + (Block(JsonOpen, j) + []))
  {
  }

  /** With the graphql block gone, cutting the json block and both headers leaves only newlines. */
  lemma ChatText(j: string)
    requires !Contains(j, Fence)
    ensures RemoveFirst(RemoveFirst(RemoveBlock(Between + Block(JsonOpen, j), JsonOpen), GqlHeader), ResultHeader)
      == "\n\n\n\n\n\n"
  {
    ChatShapeText(j);
    BlockAfter(Between, JsonOpen, j, []);
    RemoveAtStart(GqlHeader, "\n\n\n\n" + ResultHeader + "\n\n");
    RemoveAfter("\n\n\n\n", ResultHeader, "\n\n");
  }

  lemma ChatShapeText(j: string)
    ensures Between + Block(JsonOpen, j) == Between + (Block(JsonOpen, j) + [])
    ensures Between + [] == Between == GqlHeader + ("\n\n\n\n" + ResultHeader + "\n\n")
    ensures "\n\n\n\n" + ResultHeader + "\n\n" == "\n\n\n\n" + (ResultHeader + "\n\n")
    ensures "\n\n\n\n" + "\n\n" == "\n\n\n\n\n\n"
  {
  }
}
