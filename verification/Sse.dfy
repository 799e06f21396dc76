/**
  Server-sent events: the writer of the agents server and the incremental line parser of the two
  browser clients. The format is that of section 9.2.6 of the WHATWG HTML Living Standard, except
  that the parser trims field values where the standard removes one leading space.
 */
module Sse {
  import opened Wrappers
  import opened Text

  /** What the parser hands on when a blank line ends an event, before its data is decoded. */
  datatype Dispatch = Dispatch(event: Option<string>, id: Option<string>, data: string)

  /** The fields seen since the last blank line. */
  datatype Fields = Fields(event: Option<string>, id: Option<string>, lines: seq<string>)

  /** Where a parser stands: open fields, unfinished line, events dispatched so far. */
  datatype Progress = Progress(fields: Fields, rest: string, out: seq<Dispatch>)

  const NO_FIELDS := Fields(None, None, [])

  // ----- the meaning of a text

  function StripCr(line: string): string {
    if line != "" && line[|line| - 1] == '\r' then line[..|line| - 1] else line
  }

  predicate StartsWith(s: string, prefix: string): (b: bool)
    ensures b ==> |prefix| <= |s|
  {
    |prefix| <= |s| && s[..|prefix|] == prefix
  }

  function TakeLine(f: Fields, line: string): Fields {
    if line == "" then NO_FIELDS
    else if StartsWith(line, ":") then f
    else if StartsWith(line, "event:") then f.(event := Some(Trim(line[6..])))
    else if StartsWith(line, "id:") then f.(id := Some(Trim(line[3..])))
    else if StartsWith(line, "data:") then f.(lines := f.lines + [Trim(line[5..])])
    else f
  }

  function Dispatched(f: Fields, line: string): seq<Dispatch> {
    if line == "" && f.lines != [] then [Dispatch(f.event, f.id, Join(f.lines, "\n"))] else []
  }

  predicate OneLine(s: string) {
    forall i | 0 <= i < |s| :: s[i] != '\n'
  }

  /** The position of the first line feed, or |s|. */
  function LineEnd(s: string): (k: nat)
    ensures k <= |s| && forall i | 0 <= i < k :: s[i] != '\n'
    ensures k < |s| ==> s[k] == '\n'
  {
    if s == "" || s[0] == '\n' then 0
    else LineEnd(s[1..]) + 1
  }

  /** Reads every complete line of a text. */
  function Read(f: Fields, text: string): Progress
    decreases |text|
  {
    var nl := LineEnd(text);
    if nl == |text| then Progress(f, text, [])
    else
      var line := StripCr(text[..nl]);
      var p := Read(TakeLine(f, line), text[nl + 1..]);
      p.(out := Dispatched(f, line) + p.out)
  }

  function Concat(chunks: seq<string>): string {
    if chunks == [] then "" else chunks[0] + Concat(chunks[1..])
  }

  // ----- the parser

  datatype Client = Agent | Flex

  /** What a client hands on: a dispatch under the name that the client gives it. */
  datatype Event = Event(name: string, id: Option<string>, data: string)

  /** The agent client takes the first name that is not nullish, the flex client the first that is not falsy. */
  function NameOf(client: Client, decoded: Option<string>, event: Option<string>): string {
    match client
    case Agent =>
      if decoded.Some? then decoded.value else if event.Some? then event.value else "message"
    case Flex =>
      if decoded.Some? && decoded.value != "" then decoded.value
      else if event.Some? && event.value != "" then event.value
      else "log"
  }

  /** nameIn is the type field of decoded data. */
  function EventFor(client: Client, nameIn: string -> Option<string>, d: Dispatch): Event {
    Event(NameOf(client, nameIn(d.data), d.event), d.id, d.data)
  }

  function Events(client: Client, nameIn: string -> Option<string>, out: seq<Dispatch>): seq<Event> {
    seq(|out|, i requires 0 <= i < |out| => EventFor(client, nameIn, out[i]))
  }

  /**
    The event that stands for a dispatch. For the agent client a name in the data goes before that of
    the event line, even an empty one; for the flex client the first of the two that is not empty counts.
   */
  ghost predicate StandsFor(client: Client, nameIn: string -> Option<string>, d: Dispatch, e: Event) {
    var inData, inLine := nameIn(d.data), d.event.GetOr("");
    && e.id == d.id && e.data == d.data
    && (client == Agent ==> e.name == inData.GetOr(d.event.GetOr("message")))
    && (client == Flex && inData.GetOr("") != "" ==> e.name == inData.value)
    && (client == Flex && inData.GetOr("") == "" && inLine != "" ==> e.name == inLine)
    && (client == Flex && inData.GetOr("") == "" && inLine == "" ==> e.name == "log")
  }

  lemma EventsStandForDispatches(client: Client, nameIn: string -> Option<string>, out: seq<Dispatch>)
    ensures |Events(client, nameIn, out)| == |out|
    ensures forall k | 0 <= k < |out| :: StandsFor(client, nameIn, out[k], Events(client, nameIn, out)[k])
  {
  }

  /** Chunk boundaries do not matter: the events are those of the text as a whole, for both clients. */
  method ParseSse(client: Client, nameIn: string -> Option<string>, chunks: seq<string>) returns (events: seq<Event>)
    ensures events == Events(client, nameIn, Read(NO_FIELDS, Concat(chunks)).out)
    ensures var out := Read(NO_FIELDS, Concat(chunks)).out;
            |events| == |out| && forall k | 0 <= k < |out| :: StandsFor(client, nameIn, out[k], events[k])
  {
    EventsStandForDispatches(client, nameIn, Read(NO_FIELDS, Concat(chunks)).out);
    hide StandsFor;
    hide Read, Concat, Trim, Join, LineEnd, StartsWith, NameOf, Events, Dispatched, OneLine;
    ghost var total := Read(NO_FIELDS, Concat(chunks)).out;
    ghost var out: seq<Dispatch> := [];
    events := [];
    NoEvents(client, nameIn);
    var buf := "";
    var eventType: Option<string>, eventId: Option<string>, dataLines: seq<string> := None, None, [];
    var k := 0;
    assert buf + Concat(chunks) == Concat(chunks) && chunks[0..] == chunks;
    NothingLeft("");
    while k < |chunks|
      invariant 0 <= k <= |chunks|
      invariant OneLine(buf) && events == Events(client, nameIn, out)
      invariant out + Read(Fields(eventType, eventId, dataLines), buf + Concat(chunks[k..])).out == total
    {
      ghost var tail := Concat(chunks[k + 1..]);
      ConcatFrom(chunks, k);
      assert (buf + chunks[k]) + tail == buf + (chunks[k] + tail);
      buf := buf + chunks[k];
      k := k + 1;
      while true
        invariant events == Events(client, nameIn, out)
        invariant out + Read(Fields(eventType, eventId, dataLines), buf + tail).out == total
        decreases |buf|
      {
        var nl := LineEnd(buf);
        if nl == |buf| {
          NothingLeft(buf);
          break;
        }
        var line := buf[..nl];
        ghost var fields := Fields(eventType, eventId, dataLines);
        LineStep(fields, buf, tail, out, total);
        buf := buf[nl + 1..];
        if line != "" && line[|line| - 1] == '\r' {
          line := line[..|line| - 1];
        }
        EventsStep(client, nameIn, out, fields, line);
        out := out + Dispatched(fields, line);
        if line == "" {
          if |dataLines| > 0 {
            var data := Join(dataLines, "\n");
            events := events + [Event(NameOf(client, nameIn(data), eventType), eventId, data)];
          }
          eventType, eventId, dataLines := None, None, [];
        } else if StartsWith(line, ":") {
        } else if StartsWith(line, "event:") {
          eventType := Some(Trim(line[6..]));
        } else if StartsWith(line, "id:") {
          eventId := Some(Trim(line[3..]));
        } else if StartsWith(line, "data:") {
          dataLines := dataLines + [Trim(line[5..])];
        }
      }
    }
    ConcatFrom(chunks, k);
    assert buf + "" == buf;
    UnfinishedLineIsSilent(Fields(eventType, eventId, dataLines), buf);
    assert out + [] == out;
  }

  lemma NothingLeft(buf: string)
    requires LineEnd(buf) == |buf|
    ensures OneLine(buf)
  {
  }

  /** Taking one line off the buffer leaves the dispatches of the whole text. */
  lemma LineStep(f: Fields, buf: string, tail: string, out: seq<Dispatch>, total: seq<Dispatch>)
    requires LineEnd(buf) < |buf| && out + Read(f, buf + tail).out == total
    ensures var line := StripCr(buf[..LineEnd(buf)]);
            out + Dispatched(f, line) + Read(TakeLine(f, line), buf[LineEnd(buf) + 1..] + tail).out == total
  {
    hide Read, TakeLine, Dispatched, StripCr, LineEnd;
    ReadFirstLine(f, buf, tail);
  }

  /** What a line adds to the events. */
  lemma EventsStep(client: Client, nameIn: string -> Option<string>, out: seq<Dispatch>, f: Fields, line: string)
    ensures Events(client, nameIn, out + Dispatched(f, line))
            == if line == "" && f.lines != []
               then Events(client, nameIn, out)
                   + [Event(NameOf(client, nameIn(Join(f.lines, "\n")), f.event), f.id, Join(f.lines, "\n"))]
               else Events(client, nameIn, out)
  {
    if line == "" && f.lines != [] {
      EventsSnoc(client, nameIn, out, Dispatch(f.event, f.id, Join(f.lines, "\n")));
    } else {
      assert out + [] == out;
    }
  }

  lemma NoEvents(client: Client, nameIn: string -> Option<string>)
    ensures Events(client, nameIn, []) == []
  {
  }

  lemma EventsSnoc(client: Client, nameIn: string -> Option<string>, out: seq<Dispatch>, d: Dispatch)
    ensures Events(client, nameIn, out + [d]) == Events(client, nameIn, out) + [EventFor(client, nameIn, d)]
  {
  }

  lemma ConcatFrom(chunks: seq<string>, k: nat)
    requires k <= |chunks|
    ensures Concat(chunks[k..]) == if k == |chunks| then "" else chunks[k] + Concat(chunks[k + 1..])
  {
  }

  lemma UnfinishedLineIsSilent(f: Fields, s: string)
    requires OneLine(s)
    ensures Read(f, s) == Progress(f, s, [])
  {
  }

  lemma LineEndOfConcat(a: string, b: string)
    ensures LineEnd(a) < |a| ==> LineEnd(a + b) == LineEnd(a)
    ensures LineEnd(a) == |a| ==> LineEnd(a + b) == |a| + LineEnd(b)
  {
    if a == "" {
      assert a + b == b;
    } else if a[0] != '\n' {
      assert (a + b)[1..] == a[1..] + b;
      LineEndOfConcat(a[1..], b);
    }
  }

  lemma ReadStep(f: Fields, text: string)
    requires LineEnd(text) < |text|
    ensures var nl := LineEnd(text);
            var line := StripCr(text[..nl]);
            var p := Read(TakeLine(f, line), text[nl + 1..]);
            Read(f, text) == Progress(p.fields, p.rest, Dispatched(f, line) + p.out)
  {
  }

  lemma ReadFirstLine(f: Fields, buf: string, tail: string)
    requires LineEnd(buf) < |buf|
    ensures var nl := LineEnd(buf);
            var line := StripCr(buf[..nl]);
            Read(f, buf + tail).out == Dispatched(f, line) + Read(TakeLine(f, line), buf[nl + 1..] + tail).out
  {
    hide Read, TakeLine, Dispatched, StripCr;
    var nl, text := LineEnd(buf), buf + tail;
    LineEndOfConcat(buf, tail);
    assert text[..nl] == buf[..nl] && text[nl + 1..] == buf[nl + 1..] + tail;
    ReadStep(f, text);
  }

  /** Reading a then b is reading both at once, with the unfinished line carried over. */
  lemma {:induction false} ReadConcat(f: Fields, a: string, b: string)
    ensures var p := Read(f, a);
            var q := Read(p.fields, p.rest + b);
            Read(f, a + b) == Progress(q.fields, q.rest, p.out + q.out)
    decreases |a|
  {
    hide Read, TakeLine, Dispatched, StripCr, LineEnd;
    var nl := LineEnd(a);
    if nl == |a| {
      UnfinishedLineIsSilent(f, a);
      assert [] + Read(f, a + b).out == Read(f, a + b).out;
    } else {
      LineEndOfConcat(a, b);
      var line := StripCr(a[..nl]);
      ReadStep(f, a);
      ReadStep(f, a + b);
      assert (a + b)[..nl] == a[..nl] && (a + b)[nl + 1..] == a[nl + 1..] + b;
      ReadConcat(TakeLine(f, line), a[nl + 1..], b);
      var p := Read(TakeLine(f, line), a[nl + 1..]);
      var q := Read(p.fields, p.rest + b);
      assert (Dispatched(f, line) + p.out) + q.out == Dispatched(f, line) + (p.out + q.out);
    }
  }

  /** A truncated stream dispatches a prefix of what the whole stream dispatches. */
  lemma TruncationDispatchesPrefix(f: Fields, text: string, n: nat)
    requires n <= |text|
    ensures Read(f, text[..n]).out <= Read(f, text).out
  {
    hide Read;
    ReadConcat(f, text[..n], text[n..]);
    assert text[..n] + text[n..] == text;
  }

  // ----- the writer

  datatype Sent = Sent(name: string, payload: string)

  const PROLOGUE := ":\n\n"

  function Frame(frame: Sent, id: nat): (r: string)
    ensures r != ""
  {
    "event: " + frame.name + "\nid: " + Decimal(id) + "\ndata: " + frame.payload + "\n\n"
  }

  /** The frames one after another, numbered from id. */
  function Stream(frames: seq<Sent>, id: nat): string {
    if frames == [] then "" else Frame(frames[0], id) + Stream(frames[1..], id + 1)
  }

  lemma {:induction false} StreamSnoc(frames: seq<Sent>, frame: Sent, id: nat)
    ensures Stream(frames + [frame], id) == Stream(frames, id) + Frame(frame, id + |frames|)
    decreases frames
  {
    if frames == [] {
      assert frames + [frame] == [frame] && [frame][1..] == [];
      assert Stream([frame], id) == Frame(frame, id) + Stream([], id + 1);
    } else {
      assert (frames + [frame])[1..] == frames[1..] + [frame];
      StreamSnoc(frames[1..], frame, id + 1);
    }
  }

  class SseWriter {
    var id: nat
    var closed: bool
    var wire: string
    ghost var frames: seq<Sent>

    ghost predicate Valid()
      reads this
    {
      && wire == PROLOGUE + Stream(frames, 1)
      && (!closed ==> id == |frames| + 1)
    }

    constructor ()
      ensures Valid() && frames == [] && !closed
      ensures wire == ":\n\n"
    {
      id, closed := 1, false;
      wire, frames := PROLOGUE, [];
    }

    /** ended says that the connection underneath has already ended or been destroyed. */
    method WriteRaw(chunk: string, ended: bool) returns (ghost written: bool)
      modifies this`closed, this`wire
      ensures written == (!old(closed) && !ended)
      ensures closed == !written
      ensures wire == if written then old(wire) + chunk else old(wire)
    {
      if closed || ended {
        closed := true;
        return false;
      }
      wire := wire + chunk;
      return true;
    }

    /** A frame is written whole with the next number, or not at all; after a lost frame nothing is. */
    method SendNamed(name: string, payload: string, ended: bool)
      requires Valid()
      modifies this
      ensures Valid()
      ensures closed == (old(closed) || ended)
      ensures frames == if closed then old(frames) else old(frames) + [Sent(name, payload)]
      ensures !closed ==>
                wire == old(wire)
                        + ("event: " + name + "\nid: " + Decimal(old(id)) + "\ndata: " + payload + "\n\n")
    {
      if closed {
        return;
      }
      var frame := "event: " + name + "\nid: " + Decimal(id) + "\ndata: " + payload + "\n\n";
      assert frame == Frame(Sent(name, payload), id);
      hide Frame, Stream, Decimal;
      id := id + 1;
      ghost var written := WriteRaw(frame, ended);
      if written {
        StreamSnoc(frames, Sent(name, payload), 1);
        assert wire == PROLOGUE + Stream(frames + [Sent(name, payload)], 1);
        frames := frames + [Sent(name, payload)];
      }
    }
  }

  // ----- write, then parse

  /** A field that survives the parser's trimming and line splitting. */
  predicate Clean(s: string) {
    IsTrimmed(s) && OneLine(s)
  }

  predicate FrameClean(frame: Sent) {
    Clean(frame.name) && Clean(frame.payload)
  }

  function Expected(frame: Sent, id: nat): Dispatch {
    Dispatch(Some(frame.name), Some(Decimal(id)), frame.payload)
  }

  lemma ReadLine(f: Fields, line: string, rest: string)
    requires OneLine(line)
    ensures var l := StripCr(line);
            var p := Read(TakeLine(f, l), rest);
            Read(f, line + "\n" + rest) == p.(out := Dispatched(f, l) + p.out)
  {
    hide TakeLine, Dispatched, StripCr;
    var text := line + "\n" + rest;
    LineEndOfConcat(line, "\n" + rest);
    assert line + ("\n" + rest) == text;
    assert LineEnd(line) == |line|;
    assert text[..|line|] == line && text[|line| + 1..] == rest;
  }

  /** The line that carries one field of a frame. */
  lemma FieldLineIsPlain(field: string, value: string)
    requires field != "" && OneLine(field) && Clean(value)
    ensures OneLine(field + " " + value) && StripCr(field + " " + value) == field + " " + value
  {
  }

  lemma OtherField(line: string, field: string)
    requires line != "" && field != "" && line[0] != field[0]
    ensures !StartsWith(line, field)
  {
  }

  lemma FieldValue(field: string, value: string)
    ensures StartsWith(field + " " + value, field) && Trim((field + " " + value)[|field|..]) == Trim(value)
    ensures IsTrimmed(Trim(value)) && |Trim(value)| <= |value| && (IsTrimmed(value) ==> Trim(value) == value)
  {
    assert (field + " " + value)[|field|..] == " " + value;
    hide Trim;
    TrimAfterOneSpace(value);
    TrimIsTrimmed(value);
  }

  /** The three lines of a frame, as the parser takes them. */
  lemma EventLine(f: Fields, value: string)
    requires Clean(value)
    ensures var line := "event:" + " " + value;
            OneLine(line) && StripCr(line) == line
            && TakeLine(f, line) == f.(event := Some(value)) && Dispatched(f, line) == []
  {
    var line := "event:" + " " + value;
    assert line[0] == 'e';
    hide StripCr, Trim, StartsWith;
    FieldLineIsPlain("event:", value);
    FieldValue("event:", value);
    OtherField(line, ":");
  }

  lemma IdLine(f: Fields, value: string)
    requires Clean(value)
    ensures var line := "id:" + " " + value;
            OneLine(line) && StripCr(line) == line
            && TakeLine(f, line) == f.(id := Some(value)) && Dispatched(f, line) == []
  {
    var line := "id:" + " " + value;
    assert line[0] == 'i';
    hide StripCr, Trim, StartsWith;
    FieldLineIsPlain("id:", value);
    FieldValue("id:", value);
    OtherField(line, ":");
    OtherField(line, "event:");
  }

  lemma DataLine(f: Fields, value: string)
    requires Clean(value)
    ensures var line := "data:" + " " + value;
            OneLine(line) && StripCr(line) == line
            && TakeLine(f, line) == f.(lines := f.lines + [value]) && Dispatched(f, line) == []
  {
    hide StripCr, Trim, StartsWith;
    FieldLineIsPlain("data:", value);
    TakeDataLine(f, value);
  }

  lemma DecimalIsClean(n: nat)
    ensures Clean(Decimal(n))
  {
  }

  /** Everything of a frame but its last line feed leaves the three fields open and dispatches nothing. */
  lemma OpenFrame(frame: Sent, id: nat, rest: string)
    requires FrameClean(frame)
    ensures var body := Frame(frame, id)[..|Frame(frame, id)| - 1];
            Read(NO_FIELDS, body + rest)
            == Read(Fields(Some(frame.name), Some(Decimal(id)), [frame.payload]), rest)
  {
    var e, i, d := "event:" + " " + frame.name, "id:" + " " + Decimal(id), "data:" + " " + frame.payload;
    var f1 := Fields(Some(frame.name), None, []);
    var f2 := Fields(Some(frame.name), Some(Decimal(id)), []);
    OpenFrameText(frame, id, rest);
    hide Read, TakeLine, Dispatched, StripCr, Decimal, Frame;
    DecimalIsClean(id);
    EventLine(NO_FIELDS, frame.name);
    IdLine(f1, Decimal(id));
    DataLine(f2, frame.payload);
    ReadLine(NO_FIELDS, e, i + "\n" + (d + "\n" + rest));
    ReadLine(f1, i, d + "\n" + rest);
    ReadLine(f2, d, rest);
    assert f2.lines + [frame.payload] == [frame.payload];
  }

  lemma OpenFrameText(frame: Sent, id: nat, rest: string)
    ensures var e, i, d := "event:" + " " + frame.name, "id:" + " " + Decimal(id), "data:" + " " + frame.payload;
            Frame(frame, id)[..|Frame(frame, id)| - 1] + rest == e + "\n" + (i + "\n" + (d + "\n" + rest))
  {
    hide Decimal;
  }

  lemma ReadFrame(frame: Sent, id: nat, rest: string)
    requires FrameClean(frame)
    ensures var p := Read(NO_FIELDS, rest);
            Read(NO_FIELDS, Frame(frame, id) + rest) == p.(out := [Expected(frame, id)] + p.out)
  {
    hide Decimal, FrameClean, Read;
    var whole := Frame(frame, id);
    var body := whole[..|whole| - 1];
    OpenFrame(frame, id, "\n" + rest);
    assert whole + rest == body + ("\n" + rest);
    ReadLine(Fields(Some(frame.name), Some(Decimal(id)), [frame.payload]), "", rest);
    assert "" + "\n" + rest == "\n" + rest;
    assert TakeLine(Fields(Some(frame.name), Some(Decimal(id)), [frame.payload]), StripCr("")) == NO_FIELDS;
  }

  function ExpectedAll(frames: seq<Sent>, id: nat): seq<Dispatch> {
    if frames == [] then [] else [Expected(frames[0], id)] + ExpectedAll(frames[1..], id + 1)
  }

  /** How many frames end within the first n characters of their stream. */
  function FramesWithin(frames: seq<Sent>, id: nat, n: int): (k: nat)
    ensures k <= |frames|
  {
    if frames == [] || n < |Frame(frames[0], id)| then 0
    else 1 + FramesWithin(frames[1..], id + 1, n - |Frame(frames[0], id)|)
  }

  lemma {:induction false} ReadStreamPrefix(frames: seq<Sent>, id: nat, n: nat)
    requires forall k | 0 <= k < |frames| :: FrameClean(frames[k])
    requires n <= |Stream(frames, id)|
    ensures Read(NO_FIELDS, Stream(frames, id)[..n]).out == ExpectedAll(frames[..FramesWithin(frames, id, n)], id)
    decreases frames
  {
    hide Read, Frame, FrameClean, Decimal;
    if frames == [] {
      UnfinishedLineIsSilent(NO_FIELDS, "");
    } else {
      var first := Frame(frames[0], id);
      var tail := Stream(frames[1..], id + 1);
      if n < |first| {
        var body := first[..|first| - 1];
        assert Stream(frames, id)[..n] == body[..n];
        TruncationDispatchesPrefix(NO_FIELDS, body, n);
        OpenFrame(frames[0], id, "");
        UnfinishedLineIsSilent(Fields(Some(frames[0].name), Some(Decimal(id)), [frames[0].payload]), "");
        assert body + "" == body;
      } else {
        assert Stream(frames, id)[..n] == first + tail[..n - |first|];
        ReadFrame(frames[0], id, tail[..n - |first|]);
        ReadStreamPrefix(frames[1..], id + 1, n - |first|);
        var k := FramesWithin(frames[1..], id + 1, n - |first|);
        assert frames[..k + 1][1..] == frames[1..][..k];
      }
    }
  }

  lemma {:induction false} AllFramesWithin(frames: seq<Sent>, id: nat)
    ensures FramesWithin(frames, id, |Stream(frames, id)|) == |frames|
    decreases frames
  {
    if frames == [] {
    } else {
      AllFramesWithin(frames[1..], id + 1);
    }
  }

  lemma {:induction false} ExpectedAllAt(frames: seq<Sent>, id: nat)
    ensures |ExpectedAll(frames, id)| == |frames|
    ensures forall k | 0 <= k < |frames| :: ExpectedAll(frames, id)[k] == Expected(frames[k], id + k)
    decreases frames
  {
    if frames == [] {
    } else {
      ExpectedAllAt(frames[1..], id + 1);
    }
  }

  /**
    A stream cut off after n characters dispatches exactly the frames that are complete in it,
    with the ids 1, 2, 3, ..., however it is split into chunks.
   */
  lemma WriteThenParse(frames: seq<Sent>, n: nat, chunks: seq<string>)
    requires forall k | 0 <= k < |frames| :: FrameClean(frames[k])
    requires var wire := PROLOGUE + Stream(frames, 1); n <= |wire| && Concat(chunks) == wire[..n]
    ensures var out := Read(NO_FIELDS, Concat(chunks)).out;
            var complete := FramesWithin(frames, 1, n - |PROLOGUE|);
            && |out| == complete
            && (n == |PROLOGUE| + |Stream(frames, 1)| ==> complete == |frames|)
            && forall k | 0 <= k < complete ::
                 out[k] == Dispatch(Some(frames[k].name), Some(Decimal(k + 1)), frames[k].payload)
  {
    hide Read, Frame, FrameClean, Decimal, Stream, ExpectedAll, Concat;
    var stream := Stream(frames, 1);
    var wire := PROLOGUE + stream;
    if n < 3 {
      TruncationDispatchesPrefix(NO_FIELDS, PROLOGUE, n);
      assert wire[..n] == PROLOGUE[..n];
      PrologueIsSilent("");
      UnfinishedLineIsSilent(NO_FIELDS, "");
      assert PROLOGUE + "" == PROLOGUE;
    } else {
      assert wire[..n] == PROLOGUE + stream[..n - 3];
      PrologueIsSilent(stream[..n - 3]);
      ReadStreamPrefix(frames, 1, n - 3);
      AllFramesWithin(frames, 1);
      ExpectedAllAt(frames[..FramesWithin(frames, 1, n - 3)], 1);
    }
  }

  lemma PrologueIsSilent(rest: string)
    ensures Read(NO_FIELDS, PROLOGUE + rest) == Read(NO_FIELDS, rest)
  {
    hide Read;
    ReadLine(NO_FIELDS, ":", "\n" + rest);
    ReadLine(NO_FIELDS, "", rest);
    assert ":" + "\n" + ("\n" + rest) == PROLOGUE + rest;
    assert "" + "\n" + rest == "\n" + rest;
  }

  // ----- what else a stream may hold

  lemma StripCrKeepsStart(line: string, field: string)
    requires StartsWith(StripCr(line), field)
    ensures StartsWith(line, field)
  {
    assert StripCr(line)[..|field|] == line[..|field|];
  }

  lemma OtherLineIsIgnored(f: Fields, line: string)
    requires line != ""
    requires !StartsWith(line, "event:") && !StartsWith(line, "id:") && !StartsWith(line, "data:")
    ensures TakeLine(f, line) == f && Dispatched(f, line) == []
  {
    hide StartsWith;
  }

  /** A comment, and any other line that is none of the three fields, changes nothing. */
  lemma OtherLinesAreIgnored(f: Fields, line: string, rest: string)
    requires OneLine(line) && line != "" && line != "\r"
    requires !StartsWith(line, "event:") && !StartsWith(line, "id:") && !StartsWith(line, "data:")
    ensures Read(f, line + "\n" + rest) == Read(f, rest)
  {
    var l := StripCr(line);
    assert l != "";
    hide Read, StripCr, StartsWith, TakeLine, Dispatched;
    if StartsWith(l, "event:") { StripCrKeepsStart(line, "event:"); }
    if StartsWith(l, "id:") { StripCrKeepsStart(line, "id:"); }
    if StartsWith(l, "data:") { StripCrKeepsStart(line, "data:"); }
    OtherLineIsIgnored(f, l);
    ReadLine(f, line, rest);
    assert [] + Read(f, rest).out == Read(f, rest).out;
  }

  function DataField(line: string): string {
    "data: " + line + "\n"
  }

  /** The lines of one event, each in a data field of its own. */
  function DataText(lines: seq<string>): string {
    if lines == [] then "" else DataField(lines[0]) + DataText(lines[1..])
  }

  lemma ReadDataField(f: Fields, value: string, rest: string)
    requires Clean(value)
    ensures Read(f, DataField(value) + rest) == Read(f.(lines := f.lines + [value]), rest)
  {
    hide Read, TakeLine, StripCr, Clean, Dispatched;
    DataLine(f, value);
    ReadLine(f, "data:" + " " + value, rest);
    assert DataField(value) + rest == "data:" + " " + value + "\n" + rest;
    var p := Read(f.(lines := f.lines + [value]), rest);
    assert p.(out := [] + p.out) == p;
  }

  lemma {:induction false} ReadDataText(f: Fields, lines: seq<string>, rest: string)
    requires forall line | line in lines :: Clean(line)
    ensures Read(f, DataText(lines) + rest) == Read(f.(lines := f.lines + lines), rest)
    decreases lines
  {
    hide Read, Clean, DataField;
    if lines == [] {
      assert "" + rest == rest && f.lines + [] == f.lines;
    } else {
      var first, tail := DataField(lines[0]), DataText(lines[1..]);
      assert first + tail + rest == first + (tail + rest);
      ReadDataField(f, lines[0], tail + rest);
      ReadDataText(f.(lines := f.lines + [lines[0]]), lines[1..], rest);
      assert f.lines + [lines[0]] + lines[1..] == f.lines + lines;
    }
  }

  /** Lines that each end with a line feed. */
  function Unlines(lines: seq<string>): string {
    if lines == [] then "" else lines[0] + "\n" + Unlines(lines[1..])
  }

  lemma {:induction false} JoinIsUnlines(lines: seq<string>)
    requires lines != []
    ensures Join(lines, "\n") + "\n" == Unlines(lines)
    decreases lines
  {
    if |lines| == 1 {
      assert Unlines(lines[1..]) == "";
    } else {
      JoinIsUnlines(lines[1..]);
    }
  }

  /** Several lines of data are one event, with a line feed between them. */
  lemma DataLinesAreOneEvent(lines: seq<string>)
    requires lines != [] && forall line | line in lines :: Clean(line)
    ensures var out := Read(NO_FIELDS, DataText(lines) + "\n").out;
            && |out| == 1 && out[0].event == None && out[0].id == None
            && out[0].data + "\n" == Unlines(lines)
  {
    var g := Fields(None, None, lines);
    hide Read, Clean;
    ReadDataText(NO_FIELDS, lines, "\n");
    assert [] + lines == lines && "" + "\n" + "" == "\n";
    ReadLine(g, "", "");
    StripCrEmpty();
    UnfinishedLineIsSilent(NO_FIELDS, "");
    JoinIsUnlines(lines);
  }

  /** The text with a carriage return before every line feed. */
  function WithCr(text: string): string {
    if text == "" then ""
    else (if text[0] == '\n' then "\r\n" else [text[0]]) + WithCr(text[1..])
  }

  lemma {:induction false} WithCrOfLine(line: string, rest: string)
    requires OneLine(line)
    ensures WithCr(line + rest) == line + WithCr(rest)
    decreases line
  {
    if line == "" {
      assert "" + rest == rest;
    } else {
      assert (line + rest)[1..] == line[1..] + rest;
      WithCrOfLine(line[1..], rest);
    }
  }

  lemma WithCrOfOneLine(line: string)
    requires OneLine(line)
    ensures WithCr(line) == line
  {
    assert line + "" == line;
    WithCrOfLine(line, "");
  }

  lemma WithCrAt(line: string, rest: string)
    requires OneLine(line)
    ensures WithCr(line + "\n" + rest) == (line + "\r") + "\n" + WithCr(rest)
  {
    assert line + "\n" + rest == line + ("\n" + rest) && ("\n" + rest)[1..] == rest;
    WithCrOfLine(line, "\n" + rest);
  }

  lemma StripCrOnce(line: string)
    requires '\r' !in line && OneLine(line)
    ensures StripCr(line + "\r") == line && StripCr(line) == line && OneLine(line + "\r")
  {
  }

  /** Both line ends are read alike. */
  lemma {:induction false} CrLfIsLf(f: Fields, text: string)
    requires '\r' !in text
    ensures Read(f, WithCr(text)) == Read(f, text)
    decreases |text|
  {
    hide Read, TakeLine, Dispatched, StripCr, WithCr;
    var nl := LineEnd(text);
    var line := text[..nl];
    assert OneLine(line);
    if nl == |text| {
      assert line == text;
      WithCrOfOneLine(line);
    } else {
      var rest := text[nl + 1..];
      SplitAt(text, nl);
      WithCrAt(line, rest);
      StripCrOnce(line);
      ReadLine(f, line, rest);
      ReadLine(f, line + "\r", WithCr(rest));
      CrLfIsLf(TakeLine(f, line), rest);
    }
  }

  // ----- which frames survive

  lemma {:induction false} DispatchedNamesAreClean(f: Fields, text: string)
    requires f.event.Some? ==> Clean(f.event.value)
    ensures forall d | d in Read(f, text).out :: d.event.Some? ==> Clean(d.event.value)
    decreases |text|
  {
    var nl := LineEnd(text);
    if nl < |text| {
      var line := StripCr(text[..nl]);
      var g := TakeLine(f, line);
      assert OneLine(line);
      TakenNameIsClean(f, line);
      hide Read, TakeLine, StripCr, Clean, LineEnd;
      ReadStep(f, text);
      DispatchedNamesAreClean(g, text[nl + 1..]);
    } else {
      UnfinishedLineIsSilent(f, text);
    }
  }

  lemma TakenNameIsClean(f: Fields, line: string)
    requires (f.event.Some? ==> Clean(f.event.value)) && OneLine(line)
    ensures TakeLine(f, line).event.Some? ==> Clean(TakeLine(f, line).event.value)
  {
    hide Trim;
    if StartsWith(line, "event:") {
      TrimIsTrimmed(line[6..]);
      assert OneLine(line[6..]);
      TrimKeepsOneLine(line[6..]);
    }
  }

  lemma TrimKeepsOneLine(s: string)
    requires OneLine(s)
    ensures OneLine(Trim(s))
  {
  }

  lemma {:induction false} JoinSnocLength(lines: seq<string>, last: string)
    requires lines != []
    ensures |Join(lines + [last], "\n")| == |Join(lines, "\n")| + 1 + |last|
    decreases lines
  {
    if |lines| > 1 {
      assert (lines + [last])[1..] == lines[1..] + [last];
      JoinSnocLength(lines[1..], last);
    } else {
      assert (lines + [last])[1..] == [last];
    }
  }

  lemma DataGrowsLessThanTheLine(f: Fields, line: string)
    requires f.lines != [] && line != ""
    ensures var g := TakeLine(f, line); g.lines != [] && |Join(g.lines, "\n")| <= |Join(f.lines, "\n")| + |line|
  {
    hide Trim;
    if StartsWith(line, "data:") {
      TrimIsTrimmed(line[5..]);
      JoinSnocLength(f.lines, Trim(line[5..]));
    }
  }

  /** Data of the next dispatch: what is collected already plus at most the text in between. */
  lemma {:induction false} FirstDispatchIsBounded(f: Fields, s: string)
    requires f.lines != []
    ensures var out := Read(f, s + "\n\n").out; out != [] && |out[0].data| <= |Join(f.lines, "\n")| + |s|
    decreases |s|
  {
    var nl := LineEnd(s);
    var raw := s[..nl];
    var line := StripCr(raw);
    var rest := if nl < |s| then s[nl + 1..] + "\n\n" else "\n";
    assert s + "\n\n" == raw + "\n" + rest;
    assert |line| <= |raw| && (line == "" ==> Dispatched(f, line) == [Dispatch(f.event, f.id, Join(f.lines, "\n"))]);
    assert OneLine(raw);
    var g := TakeLine(f, line);
    hide Read, TakeLine, Join, StripCr, LineEnd, StartsWith;
    ReadLine(f, raw, rest);
    if line != "" {
      DataGrowsLessThanTheLine(f, line);
      if nl < |s| {
        FirstDispatchIsBounded(g, s[nl + 1..]);
      } else {
        ReadLine(g, "", "");
        assert "" + "\n" + "" == "\n" && StripCr("") == "" by { StripCrEmpty(); }
      }
    }
  }

  lemma StripCrEmpty()
    ensures StripCr("") == ""
  {
  }

  lemma StripCrAfter(prefix: string, s: string)
    requires prefix != "" && prefix[|prefix| - 1] != '\r'
    ensures StripCr(prefix + s) == prefix + StripCr(s) && |StripCr(s)| <= |s|
  {
  }

  /** Any data line, trimmed or not, adds one trimmed line of data. */
  lemma PayloadLine(f: Fields, a: string)
    requires f.lines == [] && OneLine(a)
    ensures var raw := "data:" + " " + a;
            var g := TakeLine(f, StripCr(raw));
            && OneLine(raw) && Dispatched(f, StripCr(raw)) == []
            && |g.lines| == 1 && IsTrimmed(g.lines[0]) && |g.lines[0]| <= |a|
  {
    var value := StripCr(a);
    StripCrAfter("data:" + " ", a);
    OneLineConcat("data:" + " ", a);
    TakeDataLine(f, value);
  }

  lemma TakeDataLine(f: Fields, value: string)
    ensures var line := "data:" + " " + value;
            TakeLine(f, line) == f.(lines := f.lines + [Trim(value)]) && Dispatched(f, line) == []
    ensures IsTrimmed(Trim(value)) && |Trim(value)| <= |value| && (IsTrimmed(value) ==> Trim(value) == value)
  {
    var line := "data:" + " " + value;
    assert line[0] == 'd';
    hide Trim, StartsWith;
    FieldValue("data:", value);
    OtherField(line, ":");
    OtherField(line, "event:");
    OtherField(line, "id:");
  }

  lemma EventAndIdLines(frame: Sent, id: nat, rest: string)
    requires Clean(frame.name)
    ensures Read(NO_FIELDS, "event: " + frame.name + "\nid: " + Decimal(id) + "\n" + rest)
            == Read(Fields(Some(frame.name), Some(Decimal(id)), []), rest)
  {
    var e, i := "event:" + " " + frame.name, "id:" + " " + Decimal(id);
    var f1 := Fields(Some(frame.name), None, []);
    hide Read, TakeLine, Dispatched, StripCr, Decimal;
    DecimalIsClean(id);
    EventLine(NO_FIELDS, frame.name);
    IdLine(f1, Decimal(id));
    ReadLine(NO_FIELDS, e, i + "\n" + rest);
    ReadLine(f1, i, rest);
    assert "event: " + frame.name + "\nid: " + Decimal(id) + "\n" + rest == e + "\n" + (i + "\n" + rest);
  }

  /** A frame comes back unchanged exactly when both of its fields are trimmed and on one line. */
  lemma SurvivesIffClean(frame: Sent, id: nat)
    ensures Read(NO_FIELDS, Frame(frame, id)).out == [Expected(frame, id)] <==> FrameClean(frame)
  {
    if FrameClean(frame) {
      hide Read, Frame, FrameClean;
      ReadFrame(frame, id, "");
      assert Frame(frame, id) + "" == Frame(frame, id);
      UnfinishedLineIsSilent(NO_FIELDS, "");
    } else {
      UncleanFrameChanges(frame, id);
    }
  }

  lemma UncleanFrameChanges(frame: Sent, id: nat)
    ensures Read(NO_FIELDS, Frame(frame, id)).out == [Expected(frame, id)] ==> FrameClean(frame)
  {
    hide Read, Decimal, Clean, TakeLine, StripCr, Dispatched, LineEnd;
    if Read(NO_FIELDS, Frame(frame, id)).out == [Expected(frame, id)] {
      DispatchedNamesAreClean(NO_FIELDS, Frame(frame, id));
      assert Expected(frame, id) in Read(NO_FIELDS, Frame(frame, id)).out;
      assert Clean(frame.name);
      var payload, f2 := frame.payload, Fields(Some(frame.name), Some(Decimal(id)), []);
      EventAndIdLines(frame, id, "data:" + " " + payload + "\n\n");
      assert Frame(frame, id)
          == "event: " + frame.name + "\nid: " + Decimal(id) + "\n" + ("data:" + " " + payload + "\n\n");
      PayloadSurvives(f2, payload);
    }
  }

  lemma PayloadSurvives(f: Fields, payload: string)
    requires f.lines == []
    ensures var out := Read(f, "data:" + " " + payload + "\n\n").out;
            |out| == 1 && out[0].data == payload ==> Clean(payload)
  {
    var nl := LineEnd(payload);
    var a := payload[..nl];
    hide Read, LineEnd;
    if nl == |payload| {
      assert a == payload;
      PayloadOnOneLine(f, payload);
    } else {
      SplitAt(payload, nl);
      PayloadOnSeveralLines(f, payload, a, payload[nl + 1..]);
    }
  }

  lemma SplitAt(s: string, k: nat)
    requires k < |s| && s[k] == '\n'
    ensures s == s[..k] + "\n" + s[k + 1..]
  {
  }

  lemma OneLineConcat(a: string, b: string)
    requires OneLine(a) && OneLine(b)
    ensures OneLine(a + b)
  {
  }

  lemma PayloadOnOneLine(f: Fields, payload: string)
    requires f.lines == [] && OneLine(payload)
    ensures var out := Read(f, "data:" + " " + payload + "\n\n").out; |out| == 1 && IsTrimmed(out[0].data)
  {
    var raw := "data:" + " " + payload;
    var g := TakeLine(f, StripCr(raw));
    hide Read, TakeLine, StripCr;
    PayloadLine(f, payload);
    assert Join(g.lines, "\n") == g.lines[0];
    ReadLine(f, raw, "\n");
    assert raw + "\n\n" == raw + "\n" + "\n";
    ReadLine(g, "", "");
    StripCrEmpty();
    assert "" + "\n" + "" == "\n";
    UnfinishedLineIsSilent(TakeLine(g, ""), "");
  }

  lemma PayloadOnSeveralLines(f: Fields, payload: string, a: string, b: string)
    requires f.lines == [] && OneLine(a) && payload == a + "\n" + b
    ensures var out := Read(f, "data:" + " " + payload + "\n\n").out;
            out != [] && |out[0].data| < |payload|
  {
    var raw := "data:" + " " + a;
    var g := TakeLine(f, StripCr(raw));
    hide Read, TakeLine, StripCr;
    PayloadLine(f, a);
    assert Join(g.lines, "\n") == g.lines[0];
    ReadLine(f, raw, b + "\n\n");
    FirstDispatchIsBounded(g, b);
    Reassociate("data:" + " ", a, b);
  }

  lemma Reassociate(prefix: string, a: string, b: string)
    ensures prefix + (a + "\n" + b) + "\n\n" == prefix + a + "\n" + (b + "\n\n")
  {
  }

  // ----- the two clients

  /** The agent client finds a name, and one that is not empty. */
  predicate HasName(nameIn: string -> Option<string>, d: Dispatch) {
    var decoded := nameIn(d.data);
    if decoded.Some? then decoded.value != "" else d.event.Some? && d.event.value != ""
  }

  /** On a text the clients hand on the same events exactly when every one that it dispatches has a name. */
  lemma ClientsAgreeIff(nameIn: string -> Option<string>, text: string)
    ensures var out := Read(NO_FIELDS, text).out;
            Events(Agent, nameIn, out) == Events(Flex, nameIn, out) <==> forall d | d in out :: HasName(nameIn, d)
  {
    hide Read;
    var out := Read(NO_FIELDS, text).out;
    var a, b := Events(Agent, nameIn, out), Events(Flex, nameIn, out);
    assert forall i | 0 <= i < |out| :: out[i] in out && (a[i] == b[i] <==> HasName(nameIn, out[i]));
  }

  /**
    Both clients hand on the same events from a complete stream of clean frames exactly when every
    payload that carries a name carries one that is not empty, and every other frame has one.
   */
  lemma WrittenEventsAgreeIff(frames: seq<Sent>, nameIn: string -> Option<string>)
    requires forall k | 0 <= k < |frames| :: FrameClean(frames[k])
    ensures var out := Read(NO_FIELDS, PROLOGUE + Stream(frames, 1)).out;
            && |Events(Agent, nameIn, out)| == |Events(Flex, nameIn, out)| == |frames|
            && (Events(Agent, nameIn, out) == Events(Flex, nameIn, out)
                <==> forall k | 0 <= k < |frames| :: nameIn(frames[k].payload).GetOr(frames[k].name) != "")
  {
    var wire := PROLOGUE + Stream(frames, 1);
    assert Concat([wire]) == wire by {
      assert [wire][1..] == [] && wire + "" == wire;
    }
    assert wire[..|wire|] == wire;
    WriteThenParse(frames, |wire|, [wire]);
    ClientsAgreeIff(nameIn, wire);
    hide Read, Stream, Decimal, FramesWithin, FrameClean;
    var out := Read(NO_FIELDS, wire).out;
    forall k | 0 <= k < |frames|
      ensures HasName(nameIn, out[k]) <==> nameIn(frames[k].payload).GetOr(frames[k].name) != ""
    {
    }
  }

  /**
    What the clients hand on of a stream of clean frames, however it is cut off and split: one event for
    each complete frame, numbered from 1, with the name in the payload or else the name of the frame.
   */
  lemma WrittenEventsAre(client: Client, nameIn: string -> Option<string>, frames: seq<Sent>, n: nat,
                         chunks: seq<string>)
    requires forall k | 0 <= k < |frames| :: FrameClean(frames[k])
    requires var wire := PROLOGUE + Stream(frames, 1); n <= |wire| && Concat(chunks) == wire[..n]
    ensures var events := Events(client, nameIn, Read(NO_FIELDS, Concat(chunks)).out);
            && |events| == FramesWithin(frames, 1, n - 3)
            && (n == 3 + |Stream(frames, 1)| ==> |events| == |frames|)
            && forall k | 0 <= k < |events| ::
                 var name := nameIn(frames[k].payload).GetOr(frames[k].name);
                 && events[k].id == Some(Decimal(k + 1)) && events[k].data == frames[k].payload
                 && (name != "" ==> events[k].name == name)
                 && (name == "" ==> events[k].name
                                    == if client == Agent then ""
                                       else if frames[k].name != "" then frames[k].name else "log")
  {
    WriteThenParse(frames, n, chunks);
    EventsStandForDispatches(client, nameIn, Read(NO_FIELDS, Concat(chunks)).out);
    hide Read, Stream, Concat, Decimal, FramesWithin, FrameClean, Events;
    var out := Read(NO_FIELDS, Concat(chunks)).out;
    assert |PROLOGUE| == 3;
    forall k | 0 <= k < |out|
      ensures var e := Events(client, nameIn, out)[k];
              var name := nameIn(frames[k].payload).GetOr(frames[k].name);
              && e.id == Some(Decimal(k + 1)) && e.data == frames[k].payload
              && (name != "" ==> e.name == name)
              && (name == "" ==> e.name == if client == Agent then ""
                                           else if frames[k].name != "" then frames[k].name else "log")
    {
      assert StandsFor(client, nameIn, out[k], Events(client, nameIn, out)[k]);
    }
  }

  /** Data that comes without an event line has the name in it, or else a name of the client's own. */
  lemma DataAloneIsOneEvent(client: Client, nameIn: string -> Option<string>, payload: string)
    requires Clean(payload)
    ensures var events := Events(client, nameIn, Read(NO_FIELDS, "data: " + payload + "\n\n").out);
            var name := nameIn(payload);
            && |events| == 1 && events[0].id == None && events[0].data == payload
            && (client == Agent ==> events[0].name == if name.Some? then name.value else "message")
            && (client == Flex ==> events[0].name == if name.GetOr("") != "" then name.value else "log")
  {
    var line, g := "data:" + " " + payload, Fields(None, None, [payload]);
    assert "data: " + payload + "\n\n" == line + "\n" + "\n" && "" + "\n" + "" == "\n";
    DataLine(NO_FIELDS, payload);
    assert [] + [payload] == [payload];
    hide Read, StripCr, Clean, Trim;
    ReadLine(NO_FIELDS, line, "\n");
    ReadLine(g, "", "");
    StripCrEmpty();
    UnfinishedLineIsSilent(TakeLine(g, ""), "");
    assert Read(NO_FIELDS, "data: " + payload + "\n\n").out == [Dispatch(None, None, payload)];
    EventsStandForDispatches(client, nameIn, [Dispatch(None, None, payload)]);
  }

  /** A frame without a name has different names in the two clients. */
  lemma NamelessFrameDiffers(payload: string, nameIn: string -> Option<string>)
    requires Clean(payload) && nameIn(payload) == None
    ensures var out := Read(NO_FIELDS, PROLOGUE + Stream([Sent("", payload)], 1)).out;
            Events(Agent, nameIn, out) != Events(Flex, nameIn, out)
  {
    hide Read, Stream, Events;
    assert FrameClean(Sent("", payload));
    WrittenEventsAgreeIff([Sent("", payload)], nameIn);
    assert nameIn([Sent("", payload)][0].payload).GetOr("") == "";
  }
}
