/** The two Server-Sent-Events readers: the line-based one of apps/cli/lib/remote-chat.js and the
    frame-based one of packages/sdk-js/src/chat.js.

    Both readers finish an event by the same last step, `JSON.parse` of the joined data lines with
    the raw text as fallback. The specification functions stop just before it, so that an event carries
    the joined text; the readers themselves take the step, with any parse function. */
module Sse {
  import opened Options
  import opened Text

  datatype Event = Event(event: string, data: string)

  /** `JSON.parse`; None when it throws. */
  type Parse<V> = string -> Option<V>

  datatype Data<V> = Parsed(value: V) | Raw(text: string)

  datatype Yielded<V> = Yielded(event: string, data: Data<V>)

  function ParseData<V>(parse: Parse<V>, text: string): Data<V> {
    match parse(text) case Some(value) => Parsed(value) case None => Raw(text)
  }

  /** The last step, on every event. */
  function ParseAll<V>(parse: Parse<V>, events: seq<Event>): (r: seq<Yielded<V>>)
    ensures |r| == |events|
    ensures forall i | 0 <= i < |events| :: r[i] == Yielded(events[i].event, ParseData(parse, events[i].data))
  {
    seq(|events|, i requires 0 <= i < |events| => Yielded(events[i].event, ParseData(parse, events[i].data)))
  }

  /** Data lines joined with a newline. */
  function Join(lines: seq<string>): string {
    if lines == [] then ""
    else if |lines| == 1 then lines[0]
    else lines[0] + "\n" + Join(lines[1..])
  }

  /** A line cut at its first colon, one leading space removed from the value. */
  function ParseField(line: string): (string, string) {
    match IndexOf(line, ":")
    case None => (line, "")
    case Some(c) => (line[..c], DropSpace(line[c + 1..]))
  }

  function DropSpace(value: string): string {
    if value != "" && value[0] == ' ' then value[1..] else value
  }

  // ---------- The line-based reader ----------

  /** `currentEvent` and `dataLines`. */
  datatype Pending = Pending(event: Option<string>, data: seq<string>)

  const NOTHING_PENDING := Pending(None, [])

  function StripCr(line: string): string {
    if line != "" && line[|line| - 1] == '\r' then line[..|line| - 1] else line
  }

  /** `!currentEvent`: absent, or the empty string. */
  predicate Falsy(event: Option<string>) {
    event == None || event == Some("")
  }

  /** The local `flush`: nothing to yield leaves the pending fields as they are. */
  function FlushPending(p: Pending): (seq<Event>, Pending) {
    if p.data == [] && Falsy(p.event) then ([], p)
    else ([Event(p.event.GetOr("message"), Join(p.data))], NOTHING_PENDING)
  }

  function ApplyField(p: Pending, line: string): Pending {
    var (field, value) := ParseField(line);
    if field == "event" then p.(event := Some(value))
    else if field == "data" then p.(data := p.data + [value])
    else p
  }

  function ReadLine(p: Pending, rawLine: string): (seq<Event>, Pending) {
    var line := StripCr(rawLine);
    if line == "" then FlushPending(p)
    else if line[0] == ':' then ([], p)
    else ([], ApplyField(p, line))
  }

  function ReadLines(p: Pending, lines: seq<string>): (seq<Event>, Pending)
    decreases |lines|
  {
    if lines == [] then ([], p)
    else
      var (now, p') := ReadLine(p, lines[0]);
      var (later, p'') := ReadLines(p', lines[1..]);
      (now + later, p'')
  }

  /** The state of `streamChatEvents` between two chunks, and the events it yields on one. */
  datatype LineState = LineState(buf: string, pending: Pending)

  function FeedLines(s: LineState, chunk: string): (seq<Event>, LineState) {
    var split := SplitBy(s.buf + chunk, "\n");
    var (events, p) := ReadLines(s.pending, split.parts);
    (events, LineState(split.rest, p))
  }

  function RunLines(s: LineState, chunks: seq<string>): (seq<Event>, LineState)
    decreases |chunks|
  {
    if chunks == [] then ([], s)
    else
      var (now, s') := FeedLines(s, chunks[0]);
      var (later, s'') := RunLines(s', chunks[1..]);
      (now + later, s'')
  }

  /** Everything `streamChatEvents` yields for a body arriving in these chunks. */
  function LineEvents(chunks: seq<string>): seq<Event> {
    var (events, s) := RunLines(LineState("", NOTHING_PENDING), chunks);
    events + FlushPending(s.pending).0
  }

  class LineReader<V> {
    const parse: Parse<V>
    var buf: string
    var currentEvent: Option<string>
    var dataLines: seq<string>

    constructor (parse: Parse<V>)
      ensures this.parse == parse && Model() == LineState("", NOTHING_PENDING)
    {
      this.parse := parse;
      buf, currentEvent, dataLines := "", None, [];
    }

    function Model(): LineState
      reads this
    {
      LineState(buf, Pending(currentEvent, dataLines))
    }

    method Flush() returns (ev: Option<Yielded<V>>)
      modifies this
      ensures var (events, p) := FlushPending(old(Model()).pending);
              Model() == LineState(old(buf), p) && ParseAll(parse, events) == if ev.Some? then [ev.value] else []
    {
      if dataLines == [] && (currentEvent.None? || currentEvent.value == "") {
        return None;
      }
      var raw := Join(dataLines);
      var parsed := parse(raw);
      ev := Some(Yielded(currentEvent.GetOr("message"), if parsed.Some? then Parsed(parsed.value) else Raw(raw)));
      currentEvent := None;
      dataLines := [];
    }

    method OnChunk(chunk: string) returns (events: seq<Yielded<V>>)
      modifies this
      ensures var (all, s) := FeedLines(old(Model()), chunk);
              events == ParseAll(parse, all) && Model() == s
    {
      hide FlushPending, ApplyField, ParseField, ParseData, SplitBy, OccursAt;
      ghost var p0 := old(Model()).pending;
      SplitBy(buf + chunk, "\n").PrependNothing();
      ghost var done: seq<string> := [];
      buf := buf + chunk;
      events := [];
      var nl := IndexOf(buf, "\n");
      while nl.Some?
        invariant nl == IndexOf(buf, "\n")
        invariant SplitBy(old(buf) + chunk, "\n") == SplitBy(buf, "\n").Prepend(done)
        invariant events == ParseAll(parse, ReadLines(p0, done).0)
        invariant Pending(currentEvent, dataLines) == ReadLines(p0, done).1
        decreases |buf|
      {
        ghost var before := ReadLines(p0, done).0;
        ghost var more := ReadLine(Pending(currentEvent, dataLines), buf[..nl.value]).0;
        assert ParseAll(parse, before + more) == ParseAll(parse, before) + ParseAll(parse, more);
        SplitSome(buf, "\n", nl.value);
        ghost var rest := SplitBy(buf[nl.value + 1..], "\n");
        rest.PrependTwice(done, [buf[..nl.value]]);
        ReadLinesSnoc(p0, done, buf[..nl.value]);
        assert events + [] == events;
        done := done + [buf[..nl.value]];
        ghost var pending := Pending(currentEvent, dataLines);
        var line := StripCr(buf[..nl.value]);
        buf := buf[nl.value + 1..];
        nl := IndexOf(buf, "\n");
        if line == "" {
          var ev := Flush();
          if ev.Some? {
            events := events + [ev.value];
          }
          continue;
        }
        if line[0] == ':' {
          continue;
        }
        var (field, value) := ParseField(line);
        if field == "event" {
          currentEvent := Some(value);
        } else if field == "data" {
          dataLines := dataLines + [value];
        }
        FieldApplied(pending, line);
      }
      SplitNone(buf, "\n");
      assert done + [] == done;
    }
  }

  lemma FieldApplied(p: Pending, line: string)
    ensures var (field, value) := ParseField(line);
            ApplyField(p, line) == if field == "event" then p.(event := Some(value))
                                   else if field == "data" then p.(data := p.data + [value]) else p
  {
  }

  /** `streamChatEvents` on a body arriving in these chunks. */
  method StreamChatEvents<V>(parse: Parse<V>, chunks: seq<string>) returns (events: seq<Yielded<V>>)
    ensures events == ParseAll(parse, LineEvents(chunks))
  {
    hide FeedLines, FlushPending, ParseData;
    var reader := new LineReader(parse);
    events := [];
    ghost var raw: seq<Event> := [];
    for i := 0 to |chunks|
      invariant fresh(reader) && reader.parse == parse
      invariant events == ParseAll(parse, raw)
      invariant RunLines(LineState("", NOTHING_PENDING), chunks).0 == raw + RunLines(reader.Model(), chunks[i..]).0
      invariant RunLines(LineState("", NOTHING_PENDING), chunks).1 == RunLines(reader.Model(), chunks[i..]).1
    {
      RunLinesFirst(reader.Model(), chunks[i..]);
      assert chunks[i..][1..] == chunks[i + 1..];
      ghost var fed := FeedLines(reader.Model(), chunks[i]).0;
      assert ParseAll(parse, raw + fed) == ParseAll(parse, raw) + ParseAll(parse, fed);
      raw := raw + fed;
      var now := reader.OnChunk(chunks[i]);
      events := events + now;
    }
    ghost var last := FlushPending(reader.Model().pending).0;
    assert ParseAll(parse, raw + last) == ParseAll(parse, raw) + ParseAll(parse, last);
    assert events + [] == events;
    var tail := reader.Flush();
    if tail.Some? {
      events := events + [tail.value];
    }
  }

  lemma RunLinesFirst(s: LineState, chunks: seq<string>)
    requires chunks != []
    ensures var (now, s') := FeedLines(s, chunks[0]);
            RunLines(s, chunks) == (now + RunLines(s', chunks[1..]).0, RunLines(s', chunks[1..]).1)
  {
    hide FeedLines;
  }

  lemma {:induction false} ReadLinesAppend(p: Pending, a: seq<string>, b: seq<string>)
    ensures var (now, p') := ReadLines(p, a);
            var (later, p'') := ReadLines(p', b);
            ReadLines(p, a + b) == (now + later, p'')
    decreases |a|
  {
    if a == [] {
      assert a + b == b;
      assert [] + ReadLines(p, b).0 == ReadLines(p, b).0;
    } else {
      assert (a + b)[1..] == a[1..] + b;
      var (first, p') := ReadLine(p, a[0]);
      ReadLinesAppend(p', a[1..], b);
      var (mid, q) := ReadLines(p', a[1..]);
      assert first + (mid + ReadLines(q, b).0) == (first + mid) + ReadLines(q, b).0;
    }
  }

  lemma ReadLinesSnoc(p: Pending, done: seq<string>, line: string)
    ensures var (events, p') := ReadLines(p, done);
            var (more, p'') := ReadLine(p', line);
            ReadLines(p, done + [line]) == (events + more, p'')
  {
    ReadLinesAppend(p, done, [line]);
    var p' := ReadLines(p, done).1;
    ReadLinesOne(p', line);
  }

  lemma ReadLinesOne(p: Pending, line: string)
    ensures ReadLines(p, [line]) == ReadLine(p, line)
  {
    var more := ReadLine(p, line).0;
    assert more + [] == more;
    assert [line][1..] == [];
  }

  lemma {:induction false} RunLinesIsOneFeed(s: LineState, chunks: seq<string>)
    requires IndexOf(s.buf, "\n").None?
    ensures RunLines(s, chunks) == FeedLines(s, Concat(chunks))
    decreases |chunks|
  {
    hide OccursAt, SplitBy;
    if chunks == [] {
      assert s.buf + "" == s.buf;
      SplitNone(s.buf, "\n");
    } else {
      var (now, s') := FeedLines(s, chunks[0]);
      RunLinesIsOneFeed(s', chunks[1..]);
      SplitAppend(s.buf + chunks[0], Concat(chunks[1..]), "\n");
      assert s.buf + chunks[0] + Concat(chunks[1..]) == s.buf + Concat(chunks);
      ReadLinesAppend(s.pending, SplitBy(s.buf + chunks[0], "\n").parts,
                      SplitBy(s'.buf + Concat(chunks[1..]), "\n").parts);
    }
  }

  /** The line-based reader yields the same events for every way of cutting the same text. */
  lemma LineReaderIgnoresCuts(chunks: seq<string>, chunks': seq<string>)
    requires Concat(chunks) == Concat(chunks')
    ensures LineEvents(chunks) == LineEvents(chunks')
  {
    NoNewline("");
    RunLinesIsOneFeed(LineState("", NOTHING_PENDING), chunks);
    RunLinesIsOneFeed(LineState("", NOTHING_PENDING), chunks');
  }

  // ---------- The frame-based reader ----------

  datatype Frame = Frame(event: Event, id: Option<string>)

  datatype YieldedFrame<V> = YieldedFrame(event: string, data: Data<V>, id: Option<string>)

  function ParseFrames<V>(parse: Parse<V>, frames: seq<Frame>): (r: seq<YieldedFrame<V>>)
    ensures |r| == |frames|
    ensures forall i | 0 <= i < |frames| ::
              r[i] == YieldedFrame(frames[i].event.event, ParseData(parse, frames[i].event.data), frames[i].id)
  {
    seq(|frames|, i requires 0 <= i < |frames| =>
      YieldedFrame(frames[i].event.event, ParseData(parse, frames[i].event.data), frames[i].id))
  }

  /** `event`, `id` and `dataLines` while a frame is being parsed. */
  datatype FrameFields = FrameFields(event: string, id: Option<string>, data: seq<string>)

  const NO_FIELDS := FrameFields("message", None, [])

  function FrameLine(f: FrameFields, line: string): FrameFields {
    if line == "" then f
    else
      var (field, value) := ParseField(line);
      if field == "event" then f.(event := value)
      else if field == "id" then f.(id := Some(value))
      else if field == "data" then f.(data := f.data + [value])
      else f
  }

  function FrameLines(f: FrameFields, lines: seq<string>): FrameFields
    decreases |lines|
  {
    if lines == [] then f else FrameLines(FrameLine(f, lines[0]), lines[1..])
  }

  /** `raw.split("\n")`. */
  function LinesOf(raw: string): seq<string> {
    var split := SplitBy(raw, "\n");
    split.parts + [split.rest]
  }

  function FrameOf(raw: string): Option<Frame> {
    if raw == "" || raw[0] == ':' then None
    else
      var f := FrameLines(NO_FIELDS, LinesOf(raw));
      if f.data == [] then None else Some(Frame(Event(f.event, Join(f.data)), f.id))
  }

  method ParseFrame<V>(parse: Parse<V>, raw: string) returns (frame: Option<YieldedFrame<V>>)
    ensures ParseFrames(parse, Frames([raw])) == if frame.Some? then [frame.value] else []
  {
    assert Frames([raw]) == if FrameOf(raw).Some? then [FrameOf(raw).value] else [] by { OneFrameAtMost(raw); }
    if raw == "" || raw[0] == ':' {
      return None;
    }
    var event := "message";
    var id: Option<string> := None;
    var dataLines: seq<string> := [];
    var lines := LinesOf(raw);
    for i := 0 to |lines|
      invariant FrameLines(NO_FIELDS, lines) == FrameLines(FrameFields(event, id, dataLines), lines[i..])
    {
      assert lines[i..][1..] == lines[i + 1..];
      var line := lines[i];
      if line == "" {
        continue;
      }
      var (field, value) := ParseField(line);
      match field
      case "event" => event := value;
      case "id" => id := Some(value);
      case "data" => dataLines := dataLines + [value];
      case _ =>
    }
    if dataLines == [] {
      return None;
    }
    var text := Join(dataLines);
    var parsed := parse(text);
    frame := Some(YieldedFrame(event, if parsed.Some? then Parsed(parsed.value) else Raw(text), id));
  }

  lemma OneFrameAtMost(raw: string)
    ensures Frames([raw]) == if FrameOf(raw).Some? then [FrameOf(raw).value] else []
  {
    hide FrameOf;
    assert [raw][1..] == [];
  }

  function Frames(raws: seq<string>): seq<Frame> {
    if raws == [] then []
    else (match FrameOf(raws[0]) case None => [] case Some(f) => [f]) + Frames(raws[1..])
  }

  const SEPARATOR := "\n\n"

  function RunFrames(buf: string, chunks: seq<string>): (seq<Frame>, string)
    decreases |chunks|
  {
    if chunks == [] then ([], buf)
    else
      var split := SplitBy(buf + chunks[0], SEPARATOR);
      var (later, rest) := RunFrames(split.rest, chunks[1..]);
      (Frames(split.parts) + later, rest)
  }

  /** Everything `parseSseFrames` yields for a body arriving in these chunks. */
  function FrameEvents(chunks: seq<string>): seq<Frame> {
    var (frames, rest) := RunFrames("", chunks);
    frames + Frames([rest])
  }

  class FrameReader<V> {
    const parse: Parse<V>
    var buf: string

    constructor (parse: Parse<V>)
      ensures this.parse == parse && buf == ""
    {
      this.parse := parse;
      buf := "";
    }

    method OnChunk(chunk: string) returns (frames: seq<YieldedFrame<V>>)
      modifies this
      ensures var split := SplitBy(old(buf) + chunk, SEPARATOR);
              frames == ParseFrames(parse, Frames(split.parts)) && buf == split.rest
    {
      hide FrameOf, ParseData;
      ghost var done: seq<string> := [];
      buf := buf + chunk;
      frames := [];
      var splitAt := IndexOf(buf, SEPARATOR);
      while splitAt.Some?
        invariant splitAt == IndexOf(buf, SEPARATOR)
        invariant SplitBy(old(buf) + chunk, SEPARATOR) == SplitBy(buf, SEPARATOR).Prepend(done)
        invariant frames == ParseFrames(parse, Frames(done))
        decreases |buf|
      {
        var raw := buf[..splitAt.value];
        SplitBy(buf[splitAt.value + 2..], SEPARATOR).PrependTwice(done, [raw]);
        FramesAppend(done, [raw]);
        ParseFramesAppend(parse, Frames(done), Frames([raw]));
        assert frames + [] == frames;
        done := done + [raw];
        buf := buf[splitAt.value + 2..];
        var frame := ParseFrame(parse, raw);
        if frame.Some? {
          frames := frames + [frame.value];
        }
        splitAt := IndexOf(buf, SEPARATOR);
      }
      assert done + [] == done;
    }

    method Finish() returns (tail: Option<YieldedFrame<V>>)
      ensures ParseFrames(parse, Frames([buf])) == if tail.Some? then [tail.value] else []
    {
      tail := ParseFrame(parse, buf);
    }
  }

  lemma ParseFramesAppend<V>(parse: Parse<V>, a: seq<Frame>, b: seq<Frame>)
    ensures ParseFrames(parse, a + b) == ParseFrames(parse, a) + ParseFrames(parse, b)
  {
    hide ParseData;
  }

  /** `parseSseFrames` on a body arriving in these chunks. */
  method ParseSseFrames<V>(parse: Parse<V>, chunks: seq<string>) returns (frames: seq<YieldedFrame<V>>)
    ensures frames == ParseFrames(parse, FrameEvents(chunks))
  {
    hide SplitBy, OccursAt, Frames, ParseData;
    var reader := new FrameReader(parse);
    frames := [];
    ghost var raw: seq<Frame> := [];
    for i := 0 to |chunks|
      invariant fresh(reader) && reader.parse == parse
      invariant frames == ParseFrames(parse, raw)
      invariant RunFrames("", chunks).0 == raw + RunFrames(reader.buf, chunks[i..]).0
      invariant RunFrames("", chunks).1 == RunFrames(reader.buf, chunks[i..]).1
    {
      RunFramesFirst(reader.buf, chunks[i..]);
      assert chunks[i..][1..] == chunks[i + 1..];
      ghost var fed := Frames(SplitBy(reader.buf + chunks[i], SEPARATOR).parts);
      ParseFramesAppend(parse, raw, fed);
      raw := raw + fed;
      var now := reader.OnChunk(chunks[i]);
      frames := frames + now;
    }
    ParseFramesAppend(parse, raw, Frames([reader.buf]));
    assert frames + [] == frames;
    var tail := reader.Finish();
    if tail.Some? {
      frames := frames + [tail.value];
    }
  }

  lemma RunFramesFirst(buf: string, chunks: seq<string>)
    requires chunks != []
    ensures var split := SplitBy(buf + chunks[0], SEPARATOR);
            var (later, rest) := RunFrames(split.rest, chunks[1..]);
            RunFrames(buf, chunks) == (Frames(split.parts) + later, rest)
  {
    hide SplitBy, OccursAt, Frames;
  }

  lemma {:induction false} FramesAppend(a: seq<string>, b: seq<string>)
    ensures Frames(a + b) == Frames(a) + Frames(b)
  {
    if a == [] {
      assert a + b == b;
    } else {
      assert (a + b)[1..] == a[1..] + b;
      FramesAppend(a[1..], b);
    }
  }

  lemma {:induction false} RunFramesIsOneSplit(buf: string, chunks: seq<string>)
    requires IndexOf(buf, SEPARATOR).None?
    ensures var split := SplitBy(buf + Concat(chunks), SEPARATOR);
            RunFrames(buf, chunks) == (Frames(split.parts), split.rest)
    decreases |chunks|
  {
    hide OccursAt, SplitBy;
    if chunks == [] {
      assert buf + "" == buf;
      SplitNone(buf, SEPARATOR);
    } else {
      var now := SplitBy(buf + chunks[0], SEPARATOR);
      RunFramesIsOneSplit(now.rest, chunks[1..]);
      SplitAppend(buf + chunks[0], Concat(chunks[1..]), SEPARATOR);
      assert buf + chunks[0] + Concat(chunks[1..]) == buf + Concat(chunks);
      FramesAppend(now.parts, SplitBy(now.rest + Concat(chunks[1..]), SEPARATOR).parts);
    }
  }

  /** The frame-based reader yields the same events for every way of cutting the same text. */
  lemma FrameReaderIgnoresCuts(chunks: seq<string>, chunks': seq<string>)
    requires Concat(chunks) == Concat(chunks')
    ensures FrameEvents(chunks) == FrameEvents(chunks')
  {
    assert IndexOf("", SEPARATOR).None? by { assert forall j: nat :: !OccursAt("", SEPARATOR, j); }
    RunFramesIsOneSplit("", chunks);
    RunFramesIsOneSplit("", chunks');
  }
}
