/**
  JSON texts with their concrete syntax, as sections 2 to 7 of RFC 8259 give it, and the theorem
  that the free-text scanner finds exactly the objects and arrays that a reply contains if and only
  if the text between them opens no bracket that is ever closed.
 */
module JsonText {
  import opened Wrappers
  import opened JsonScanner

  /** One character of a string: unescaped, a two-character escape, or a \u escape. */
  datatype Unit = Plain(c: char) | Escape(c: char) | Unicode(hex: string)

  datatype Json =
    | Scalar(token: string)
    | Str(units: seq<Unit>)
    | Array(pad: string, items: Items)
    | Object(pad: string, members: Members)

  /** Array elements; before and after are the white space around an element. */
  datatype Items = NoItems | Item(before: string, value: Json, after: string, rest: Items)

  /** Object members; colon is the name separator with the white space around it. */
  datatype Members =
    | NoMembers
    | Member(before: string, name: seq<Unit>, colonBefore: string, colonAfter: string,
             value: Json, after: string, rest: Members)

  predicate IsBlank(s: string) {
    forall i | 0 <= i < |s| :: s[i] == ' ' || s[i] == '\t' || s[i] == '\n' || s[i] == '\r'
  }

  predicate IsNumberChar(c: char) {
    '0' <= c <= '9' || c == '+' || c == '-' || c == '.' || c == 'e' || c == 'E'
  }

  predicate IsHex(c: char) {
    '0' <= c <= '9' || 'a' <= c <= 'f' || 'A' <= c <= 'F'
  }

  predicate IsEscapable(c: char) {
    || c == '"' || c == '\\' || c == '/' || c == 'b' || c == 'f' || c == 'n' || c == 'r' || c == 't'
  }

  /** The characters of sections 6 and 7 of RFC 8259, listed. */
  lemma GrammarCharacters(c: char)
    ensures IsNumberChar(c) <==> c in {'0', '1', '2', '3', '4', '5', '6', '7', '8', '9', '+', '-', '.', 'e', 'E'}
    ensures IsHex(c) <==> c in {'0', '1', '2', '3', '4', '5', '6', '7', '8', '9',
                                'a', 'b', 'c', 'd', 'e', 'f', 'A', 'B', 'C', 'D', 'E', 'F'}
    ensures IsEscapable(c) <==> c in {'"', '\\', '/', 'b', 'f', 'n', 'r', 't'}
  {
  }

  /** A literal name, or a superset of the number grammar of section 6. */
  predicate IsScalar(token: string) {
    token == "true" || token == "false" || token == "null" ||
    (token != "" && forall i | 0 <= i < |token| :: IsNumberChar(token[i]))
  }

  predicate UnitOk(u: Unit) {
    match u
    case Plain(c) => c >= ' ' && c != '"' && c != '\\'
    case Escape(c) => IsEscapable(c)
    case Unicode(hex) => |hex| == 4 && forall i | 0 <= i < 4 :: IsHex(hex[i])
  }

  predicate UnitsOk(units: seq<Unit>) {
    forall i | 0 <= i < |units| :: UnitOk(units[i])
  }

  predicate JsonOk(v: Json) {
    match v
    case Scalar(token) => IsScalar(token)
    case Str(units) => UnitsOk(units)
    case Array(pad, items) => IsBlank(pad) && ItemsOk(items)
    case Object(pad, members) => IsBlank(pad) && MembersOk(members)
  }

  predicate ItemsOk(items: Items) {
    match items
    case NoItems => true
    case Item(before, value, after, rest) => IsBlank(before) && JsonOk(value) && IsBlank(after) && ItemsOk(rest)
  }

  predicate MembersOk(members: Members) {
    match members
    case NoMembers => true
    case Member(before, name, colonBefore, colonAfter, value, after, rest) =>
      && IsBlank(before) && UnitsOk(name) && IsBlank(colonBefore) && IsBlank(colonAfter)
      && JsonOk(value) && IsBlank(after) && MembersOk(rest)
  }

  function PrintUnit(u: Unit): string {
    match u
    case Plain(c) => [c]
    case Escape(c) => ['\\', c]
    case Unicode(hex) => "\\u" + hex
  }

  function PrintUnits(units: seq<Unit>): string {
    if units == [] then "" else PrintUnit(units[0]) + PrintUnits(units[1..])
  }

  function Quoted(units: seq<Unit>): string {
    "\"" + PrintUnits(units) + "\""
  }

  function Print(v: Json): string {
    match v
    case Scalar(token) => token
    case Str(units) => Quoted(units)
    case Array(_, _) => "[" + Inside(v) + "]"
    case Object(_, _) => "{" + Inside(v) + "}"
  }

  /** What stands between the outer brackets of an array or object. */
  function Inside(v: Json): string
    requires v.Array? || v.Object?
    decreases v, 0
  {
    if v.Array? then v.pad + PrintItems(v.items) else v.pad + PrintMembers(v.members)
  }

  function PrintItems(items: Items): string {
    match items
    case NoItems => ""
    case Item(before, value, after, rest) =>
      before + Print(value) + after + (if rest.NoItems? then "" else "," + PrintItems(rest))
  }

  function PrintMembers(members: Members): string {
    match members
    case NoMembers => ""
    case Member(before, name, colonBefore, colonAfter, value, after, rest) =>
      before + Quoted(name) + colonBefore + ":" + colonAfter + Print(value) + after
      + (if rest.NoMembers? then "" else "," + PrintMembers(rest))
  }

  // ----- scanning printed texts

  lemma {:induction false} AfterConcat(open: char, cur: Cursor, a: string, b: string)
    ensures After(open, cur, a + b) == After(open, After(open, cur, a), b)
    decreases a
  {
    if a == "" {
      assert a + b == b;
    } else {
      assert (a + b)[1..] == a[1..] + b;
      AfterConcat(open, Step(open, cur, a[0]), a[1..], b);
    }
  }

  /** s leaves a scanner that is d levels deep and outside every string where it was. */
  ghost predicate Neutral(open: char, d: int, s: string) {
    After(open, Live(d, false, false), s) == Live(d, false, false)
  }

  lemma NeutralConcat(open: char, d: int, a: string, b: string)
    requires Neutral(open, d, a) && Neutral(open, d, b)
    ensures Neutral(open, d, a + b)
  {
    AfterConcat(open, Live(d, false, false), a, b);
  }

  predicate IsBracketOrQuote(c: char) {
    c == '"' || c == '[' || c == ']' || c == '{' || c == '}'
  }

  lemma {:induction false} NoQuoteNoBracketIsNeutral(open: char, d: int, s: string)
    requires forall i | 0 <= i < |s| :: !IsBracketOrQuote(s[i])
    requires IsOpening(open)
    ensures Neutral(open, d, s)
    decreases s
  {
    if s == "" {
    } else {
      assert Step(open, Live(d, false, false), s[0]) == Live(d, false, false);
      NoQuoteNoBracketIsNeutral(open, d, s[1..]);
    }
  }

  lemma {:induction false} PlainRunStaysInString(open: char, d: int, s: string)
    requires forall i | 0 <= i < |s| :: s[i] != '"' && s[i] != '\\'
    ensures After(open, Live(d, true, false), s) == Live(d, true, false)
    decreases s
  {
    if s == "" {
    } else {
      PlainRunStaysInString(open, d, s[1..]);
    }
  }

  lemma EscapePairStaysInString(open: char, d: int, c: char)
    ensures After(open, Live(d, true, false), ['\\', c]) == Live(d, true, false)
  {
    var pair := ['\\', c];
    assert pair[0] == '\\' && pair[1..] == [c];
    assert Step(open, Live(d, true, false), pair[0]) == Live(d, true, true);
    assert After(open, Live(d, true, false), pair) == After(open, Live(d, true, true), [c]);
    assert [c][0] == c && [c][1..] == "";
    assert Step(open, Live(d, true, true), c) == Live(d, true, false);
    assert After(open, Live(d, true, true), [c]) == After(open, Live(d, true, false), "");
  }

  lemma UnitStaysInString(open: char, d: int, u: Unit)
    requires UnitOk(u)
    ensures After(open, Live(d, true, false), PrintUnit(u)) == Live(d, true, false)
  {
    match u
    case Plain(c) => PlainRunStaysInString(open, d, [c]);
    case Escape(c) => EscapePairStaysInString(open, d, c);
    case Unicode(hex) =>
      EscapePairStaysInString(open, d, 'u');
      PlainRunStaysInString(open, d, hex);
      AfterConcat(open, Live(d, true, false), ['\\', 'u'], hex);
      assert PrintUnit(u) == ['\\', 'u'] + hex;
  }

  lemma {:induction false} UnitsStayInString(open: char, d: int, units: seq<Unit>)
    requires UnitsOk(units)
    ensures After(open, Live(d, true, false), PrintUnits(units)) == Live(d, true, false)
    decreases units
  {
    if units == [] {
    } else {
      UnitStaysInString(open, d, units[0]);
      UnitsStayInString(open, d, units[1..]);
      AfterConcat(open, Live(d, true, false), PrintUnit(units[0]), PrintUnits(units[1..]));
    }
  }

  lemma QuotedIsNeutral(open: char, d: int, units: seq<Unit>)
    requires UnitsOk(units) && IsOpening(open)
    ensures Neutral(open, d, Quoted(units))
  {
    var body := PrintUnits(units);
    UnitsStayInString(open, d, units);
    AfterConcat(open, Live(d, true, false), body, "\"");
    assert After(open, Live(d, true, false), "\"") == Live(d, false, false);
    assert Quoted(units)[1..] == body + "\"";
  }

  /** A value in brackets of either kind: its own kind goes one level down and back, the other is ignored. */
  lemma BracketsAreNeutral(open: char, d: int, bracket: char, body: string)
    requires IsOpening(open) && IsOpening(bracket) && d >= 1
    requires Neutral(open, d, body) && Neutral(open, d + 1, body)
    ensures Neutral(open, d, [bracket] + body + [ClosingFor(bracket)])
  {
    var whole := [bracket] + body + [ClosingFor(bracket)];
    var inner := if bracket == open then d + 1 else d;
    assert whole[1..] == body + [ClosingFor(bracket)];
    assert Step(open, Live(d, false, false), bracket) == Live(inner, false, false);
    AfterConcat(open, Live(inner, false, false), body, [ClosingFor(bracket)]);
    assert [ClosingFor(bracket)][1..] == "";
    assert Step(open, Live(inner, false, false), ClosingFor(bracket)) == Live(d, false, false);
  }

  lemma SpaceIsNeutral(open: char, d: int, s: string)
    requires IsBlank(s) && IsOpening(open)
    ensures Neutral(open, d, s)
  {
    NoQuoteNoBracketIsNeutral(open, d, s);
  }

  lemma {:induction false} ValueIsNeutral(open: char, d: int, v: Json)
    requires JsonOk(v) && IsOpening(open) && d >= 1
    ensures Neutral(open, d, Print(v))
    decreases v, 1
  {
    match v
    case Scalar(token) => NoQuoteNoBracketIsNeutral(open, d, token);
    case Str(units) => QuotedIsNeutral(open, d, units);
    case Array(_, _) =>
      InsideIsNeutral(open, d, v);
      InsideIsNeutral(open, d + 1, v);
      BracketsAreNeutral(open, d, '[', Inside(v));
    case Object(_, _) =>
      InsideIsNeutral(open, d, v);
      InsideIsNeutral(open, d + 1, v);
      BracketsAreNeutral(open, d, '{', Inside(v));
  }

  lemma {:induction false} InsideIsNeutral(open: char, d: int, v: Json)
    requires JsonOk(v) && (v.Array? || v.Object?) && IsOpening(open) && d >= 1
    ensures Neutral(open, d, Inside(v))
    decreases v, 0
  {
    SpaceIsNeutral(open, d, v.pad);
    if v.Array? {
      ItemsAreNeutral(open, d, v.items);
      NeutralConcat(open, d, v.pad, PrintItems(v.items));
    } else {
      MembersAreNeutral(open, d, v.members);
      NeutralConcat(open, d, v.pad, PrintMembers(v.members));
    }
  }

  lemma {:induction false} ItemsAreNeutral(open: char, d: int, items: Items)
    requires ItemsOk(items) && IsOpening(open) && d >= 1
    ensures Neutral(open, d, PrintItems(items))
    decreases items, 1
  {
    match items
    case NoItems =>
    case Item(before, value, after, rest) =>
      SpaceIsNeutral(open, d, before);
      ValueIsNeutral(open, d, value);
      SpaceIsNeutral(open, d, after);
      ItemsAreNeutral(open, d, rest);
      NoQuoteNoBracketIsNeutral(open, d, ",");
      NeutralConcat(open, d, ",", PrintItems(rest));
      NeutralConcat(open, d, before, Print(value));
      NeutralConcat(open, d, before + Print(value), after);
      NeutralConcat(open, d, before + Print(value) + after, if rest.NoItems? then "" else "," + PrintItems(rest));
  }

  lemma {:induction false} MembersAreNeutral(open: char, d: int, members: Members)
    requires MembersOk(members) && IsOpening(open) && d >= 1
    ensures Neutral(open, d, PrintMembers(members))
    decreases members, 1
  {
    match members
    case NoMembers =>
    case Member(before, name, colonBefore, colonAfter, value, after, rest) =>
      SpaceIsNeutral(open, d, before);
      QuotedIsNeutral(open, d, name);
      SpaceIsNeutral(open, d, colonBefore);
      NoQuoteNoBracketIsNeutral(open, d, ":");
      SpaceIsNeutral(open, d, colonAfter);
      ValueIsNeutral(open, d, value);
      SpaceIsNeutral(open, d, after);
      MembersAreNeutral(open, d, rest);
      NoQuoteNoBracketIsNeutral(open, d, ",");
      NeutralConcat(open, d, ",", PrintMembers(rest));
      var p := before + Quoted(name);
      NeutralConcat(open, d, before, Quoted(name));
      NeutralConcat(open, d, p, colonBefore);
      NeutralConcat(open, d, p + colonBefore, ":");
      NeutralConcat(open, d, p + colonBefore + ":", colonAfter);
      NeutralConcat(open, d, p + colonBefore + ":" + colonAfter, Print(value));
      NeutralConcat(open, d, p + colonBefore + ":" + colonAfter + Print(value), after);
      NeutralConcat(open, d, p + colonBefore + ":" + colonAfter + Print(value) + after,
                    if rest.NoMembers? then "" else "," + PrintMembers(rest));
  }

  // ----- the scanner on a reply

  lemma {:induction false} SegmentLengthSkips(open: char, cur: Cursor, a: string, b: string)
    requires After(open, cur, a).Live?
    ensures match SegmentLength(open, After(open, cur, a), b)
            case None => SegmentLength(open, cur, a + b) == None
            case Some(k) => SegmentLength(open, cur, a + b) == Some(|a| + k)
    decreases a
  {
    if a == "" {
      assert a + b == b;
    } else {
      assert (a + b)[1..] == a[1..] + b;
      if cur == Closed {
        ClosedStays(open, a);
      } else {
        SegmentLengthSkips(open, Step(open, cur, a[0]), a[1..], b);
      }
    }
  }

  lemma {:induction false} ClosedStays(open: char, s: string)
    ensures After(open, Closed, s) == Closed
    decreases s
  {
    if s == "" {
    } else {
      ClosedStays(open, s[1..]);
    }
  }

  /** An object or array at the front of a text is cut off at its own closing bracket. */
  lemma SegmentOfDocument(v: Json, tail: string)
    requires JsonOk(v) && (v.Array? || v.Object?)
    ensures Print(v) != "" && IsOpening(Print(v)[0])
    ensures SegmentLength(Print(v)[0], START, Print(v) + tail) == Some(|Print(v)|)
  {
    var open := if v.Array? then '[' else '{';
    var body := Inside(v);
    InsideIsNeutral(open, 1, v);
    var text := Print(v) + tail;
    assert Print(v) == [open] + body + [ClosingFor(open)];
    assert text[1..] == body + ([ClosingFor(open)] + tail);
    var closing := [ClosingFor(open)] + tail;
    assert SegmentLength(open, Live(1, false, false), closing) == Some(1) by {
      assert closing[1..] == tail;
      assert Step(open, Live(1, false, false), closing[0]) == Closed;
    }
    SegmentLengthSkips(open, Live(1, false, false), body, closing);
    assert Step(open, START, text[0]) == Live(1, false, false);
  }

  /** No bracket that opens in the gap is ever closed, in the gap or in what follows. */
  ghost predicate Silent(gap: string, rest: string) {
    forall i | 0 <= i < |gap| && IsOpening(gap[i]) :: SegmentLength(gap[i], START, gap[i..] + rest) == None
  }

  lemma {:induction false} GapIsSkipped(gap: string, rest: string, at: nat)
    requires Silent(gap, rest)
    ensures Candidates(gap + rest) == Candidates(rest) && Starts(gap + rest, at) == Starts(rest, at + |gap|)
    decreases gap
  {
    if gap == "" {
      assert gap + rest == rest;
    } else {
      GapTail(gap, rest);
      GapIsSkipped(gap[1..], rest, at + 1);
    }
  }

  lemma GapTail(gap: string, rest: string)
    requires gap != ""
    ensures (gap + rest)[0] == gap[0] && (gap + rest)[1..] == gap[1..] + rest
    ensures Silent(gap, rest)
       <==> (IsOpening(gap[0]) ==> SegmentLength(gap[0], START, gap + rest) == None) && Silent(gap[1..], rest)
  {
    hide SegmentLength;
    assert gap[0..] == gap;
    assert forall i | 0 <= i < |gap| - 1 :: gap[1..][i] == gap[i + 1] && gap[1..][i..] == gap[i + 1..];
    if Silent(gap[1..], rest) {
      forall i | 0 < i < |gap| && IsOpening(gap[i]) ensures SegmentLength(gap[i], START, gap[i..] + rest) == None {
        assert gap[1..][i - 1..] == gap[i..] && gap[1..][i - 1] == gap[i];
      }
    }
  }

  /** A segment starts in a gap that is not silent. */
  lemma {:induction false} SegmentStartsInGap(gap: string, rest: string, at: nat)
    requires !Silent(gap, rest)
    ensures Starts(gap + rest, at) != [] && Starts(gap + rest, at)[0] < at + |gap|
    decreases gap
  {
    GapTail(gap, rest);
    if !IsOpening(gap[0]) || SegmentLength(gap[0], START, gap + rest) == None {
      SegmentStartsInGap(gap[1..], rest, at + 1);
    }
  }

  /** Each document after its gap, then the last gap. */
  function Reply(gaps: seq<string>, docs: seq<Json>): string
    requires |gaps| == |docs| + 1
  {
    if docs == [] then gaps[0] else gaps[0] + (Print(docs[0]) + Reply(gaps[1..], docs[1..]))
  }

  /** Where the documents start in a reply that starts at position at. */
  function DocStarts(gaps: seq<string>, docs: seq<Json>, at: nat): seq<nat>
    requires |gaps| == |docs| + 1
  {
    if docs == [] then []
    else
      var start := at + |gaps[0]|;
      [start] + DocStarts(gaps[1..], docs[1..], start + |Print(docs[0])|)
  }

  predicate AreDocuments(docs: seq<Json>) {
    forall k | 0 <= k < |docs| :: JsonOk(docs[k]) && (docs[k].Array? || docs[k].Object?)
  }

  /** Every gap is silent before what follows it. */
  ghost predicate GapsAreSilent(gaps: seq<string>, docs: seq<Json>)
    requires |gaps| == |docs| + 1
    decreases docs
  {
    if docs == [] then Silent(gaps[0], "")
    else
      Silent(gaps[0], Print(docs[0]) + Reply(gaps[1..], docs[1..])) && GapsAreSilent(gaps[1..], docs[1..])
  }

  lemma ReplyStep(gaps: seq<string>, docs: seq<Json>, at: nat)
    requires |gaps| == |docs| + 1 && docs != [] && AreDocuments(docs)
    requires Silent(gaps[0], Print(docs[0]) + Reply(gaps[1..], docs[1..]))
    ensures var tail, start := Reply(gaps[1..], docs[1..]), at + |gaps[0]|;
            && Candidates(Reply(gaps, docs)) == [Print(docs[0])] + Candidates(tail)
            && Starts(Reply(gaps, docs), at) == [start] + Starts(tail, start + |Print(docs[0])|)
  {
    var tail := Reply(gaps[1..], docs[1..]);
    var text := Print(docs[0]) + tail;
    GapIsSkipped(gaps[0], text, at);
    SegmentOfDocument(docs[0], tail);
    assert text[..|Print(docs[0])|] == Print(docs[0]) && text[|Print(docs[0])|..] == tail;
    hide SegmentLength, Silent, JsonOk;
  }

  /** When all gaps are silent the scanner returns exactly the texts of the documents. */
  lemma {:induction false} ScannerFindsEveryDocument(gaps: seq<string>, docs: seq<Json>)
    requires |gaps| == |docs| + 1 && AreDocuments(docs) && GapsAreSilent(gaps, docs)
    ensures Candidates(Reply(gaps, docs)) == seq(|docs|, k requires 0 <= k < |docs| => Print(docs[k]))
    decreases docs
  {
    if docs == [] {
      GapIsSkipped(gaps[0], "", 0);
      assert gaps[0] + "" == gaps[0];
    } else {
      ReplyStep(gaps, docs, 0);
      ScannerFindsEveryDocument(gaps[1..], docs[1..]);
    }
  }

  /** The segments that the scanner finds are the documents, each in its own place, exactly when all gaps are silent. */
  lemma {:induction false} ScannerFindsThePlacesIff(gaps: seq<string>, docs: seq<Json>, at: nat)
    requires |gaps| == |docs| + 1 && AreDocuments(docs)
    ensures Starts(Reply(gaps, docs), at) == DocStarts(gaps, docs, at) <==> GapsAreSilent(gaps, docs)
    decreases docs
  {
    hide SegmentLength, Silent, JsonOk, Print;
    var rest := if docs == [] then "" else Print(docs[0]) + Reply(gaps[1..], docs[1..]);
    assert Reply(gaps, docs) == gaps[0] + rest;
    if !Silent(gaps[0], rest) {
      SegmentStartsInGap(gaps[0], rest, at);
    } else if docs == [] {
      GapIsSkipped(gaps[0], "", at);
    } else {
      ReplyStep(gaps, docs, at);
      var next := at + |gaps[0]| + |Print(docs[0])|;
      ScannerFindsThePlacesIff(gaps[1..], docs[1..], next);
      SameTails(at + |gaps[0]|, Starts(Reply(gaps[1..], docs[1..]), next), DocStarts(gaps[1..], docs[1..], next));
    }
  }

  lemma SameTails(x: nat, a: seq<nat>, b: seq<nat>)
    ensures [x] + a == [x] + b <==> a == b
  {
    assert ([x] + a)[1..] == a && ([x] + b)[1..] == b;
  }

  /** Text without opening brackets is silent wherever it stands. */
  lemma {:induction false} PlainGapsAreSilent(gaps: seq<string>, docs: seq<Json>)
    requires |gaps| == |docs| + 1
    requires forall k, i | 0 <= k < |gaps| && 0 <= i < |gaps[k]| :: !IsOpening(gaps[k][i])
    ensures GapsAreSilent(gaps, docs)
    decreases docs
  {
    if docs == [] {
    } else {
      PlainGapsAreSilent(gaps[1..], docs[1..]);
    }
  }

  // ----- two replies with a gap that is not silent

  /** The gaps may not hold an opening bracket that the text closes: it swallows the document behind it. */
  lemma StrayBracketSwallowsADocument(v: Json)
    requires JsonOk(v) && v.Object?
    ensures Candidates("{" + Print(v) + "}") == ["{" + Print(v) + "}"]
  {
    var text := "{" + Print(v) + "}";
    ValueIsNeutral('{', 1, v);
    assert text[1..] == Print(v) + "}";
    SegmentLengthSkips('{', Live(1, false, false), Print(v), "}");
    assert SegmentLength('{', Live(1, false, false), "}") == Some(1) by {
      assert Step('{', Live(1, false, false), '}') == Closed;
    }
    assert Step('{', START, text[0]) == Live(1, false, false);
    assert SegmentLength('{', START, text) == Some(|text|);
    assert text[..|text|] == text && text[|text|..] == "";
  }

  /**
    The places are needed: behind a gap that is not silent the scanner can still return the text of the
    document, cut out three characters before it.
   */
  lemma RightTextFromTheWrongPlace()
    ensures var doc := Array("", Item("", Str([Plain(']'), Plain('[')]), "", NoItems));
            var reply := Reply(["[\"]", ""], [doc]);
            && JsonOk(doc) && Candidates(reply) == [Print(doc)]
            && Starts(reply, 0) == [0] && DocStarts(["[\"]", ""], [doc], 0) == [3]
  {
    var units := [Plain(']'), Plain('[')];
    var doc := Array("", Item("", Str(units), "", NoItems));
    var text, tail := "[\"][\"]", "[\"]";
    assert PrintUnits(units) == "][" by {
      assert units[1..] == [Plain('[')] && units[1..][1..] == [];
    }
    assert Print(doc) == text by {
      assert PrintItems(doc.items) == "\"][\"";
    }
    assert ["[\"]", ""][1..] == [""] && [doc][1..] == [];
    assert Reply(["[\"]", ""], [doc]) == text + tail;
    SegmentOfDocument(doc, tail);
    var whole := text + tail;
    assert whole[..6] == text && whole[6..] == tail;
    NothingCloses();
    hide Print, Reply, SegmentLength;
  }

  lemma NothingCloses()
    ensures Candidates("[\"]") == [] && Starts("[\"]", 6) == []
  {
    var s := "[\"]";
    PlainRunStaysInString('[', 1, "]");
    assert s[1..] == "\"]" && s[1..][1..] == "]" && "]"[1..] == "";
    assert SegmentLength('[', Live(1, true, false), "]") == None;
    assert SegmentLength('[', START, s) == None;
  }
}
