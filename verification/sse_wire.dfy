/** The frames the chat stream route sends, apps/web/app/api/chat/stream/[jobId]/route.js, and what the
    two Server-Sent-Events readers make of them. */
module SseWire {
  import opened Options
  import opened Text
  import opened Sse
  import opened SseAgreement
  import Decimal

  /** A call of `sseFrame`, with the data already stringified, or a heartbeat. */
  datatype Item = Sent(id: Option<nat>, eventType: string, json: string) | Ping

  function SseFrame(item: Item): string {
    match item
    case Ping => ": ping\n\n"
    case Sent(id, eventType, json) =>
      (if id.Some? then "id: " + Decimal.Print(id.value) + "\n" else "")
      + ("event: " + eventType + "\n")
      + ("data: " + json + "\n\n")
  }

  function Wire(items: seq<Item>): string {
    if items == [] then "" else SseFrame(items[0]) + Wire(items[1..])
  }

  predicate OneLine(s: string) {
    '\n' !in s && '\r' !in s
  }

  predicate Sendable(item: Item) {
    item.Sent? ==> OneLine(item.eventType) && OneLine(item.json)
  }

  /** The frames sent, heartbeats left out. */
  function FramesSent(items: seq<Item>): seq<Frame> {
    if items == [] then []
    else
      (match items[0]
       case Ping => []
       case Sent(id, eventType, json) =>
         [Frame(Event(eventType, json), if id.Some? then Some(Decimal.Print(id.value)) else None)])
      + FramesSent(items[1..])
  }

  // ---------- A frame as lines ----------

  function FieldLine(name: string, value: string): string {
    name + ": " + value
  }

  /** The lines of a frame before the blank one. */
  function FrameLinesOf(item: Item): (lines: seq<string>)
    ensures lines != []
  {
    match item
    case Ping => [": ping"]
    case Sent(id, eventType, json) =>
      (if id.Some? then [FieldLine("id", Decimal.Print(id.value))] else [])
      + [FieldLine("event", eventType), FieldLine("data", json)]
  }

  function AllLines(items: seq<Item>): seq<string> {
    if items == [] then [] else FrameLinesOf(items[0]) + [""] + AllLines(items[1..])
  }

  lemma LinesAreClean(item: Item)
    requires Sendable(item)
    ensures forall l | l in FrameLinesOf(item) :: OneLine(l) && l != ""
  {
    if item.Sent? && item.id.Some? {
      Decimal.PrintIntHasNoNewline(item.id.value);
      assert '\r' !in Decimal.Print(item.id.value);
    }
  }

  lemma {:induction false} UnlinesAppend(a: seq<string>, b: seq<string>)
    ensures Unlines(a + b) == Unlines(a) + Unlines(b)
  {
    if a == [] {
      assert a + b == b;
    } else {
      assert (a + b)[1..] == a[1..] + b;
      UnlinesAppend(a[1..], b);
      assert a[0] + "\n" + (Unlines(a[1..]) + Unlines(b)) == a[0] + "\n" + Unlines(a[1..]) + Unlines(b);
    }
  }

  lemma {:induction false} UnlinesIsJoin(lines: seq<string>)
    requires lines != []
    ensures Unlines(lines) == Join(lines) + "\n"
  {
    if |lines| == 1 {
      assert Unlines(lines[1..]) == "";
      assert lines[0] + "\n" + "" == lines[0] + "\n";
    } else {
      UnlinesIsJoin(lines[1..]);
      assert lines[0] + "\n" + (Join(lines[1..]) + "\n") == lines[0] + "\n" + Join(lines[1..]) + "\n";
    }
  }

  lemma FrameIsJoin(item: Item)
    ensures SseFrame(item) == Join(FrameLinesOf(item)) + "\n\n"
  {
    hide Decimal.Print, FieldLine, Join;
    match item
    case Ping => assert Join([": ping"]) == ": ping" by { JoinOne(": ping"); }
    case Sent(id, eventType, json) =>
      FieldLineIs("event", eventType);
      FieldLineIs("data", json);
      var ev, data := FieldLine("event", eventType), FieldLine("data", json);
      JoinOne(data);
      JoinMore(ev, [data]);
      assert [ev] + [data] == [ev, data];
      LastLines(ev, data);
      if id.Some? {
        FieldLineIs("id", Decimal.Print(id.value));
        var idLine := FieldLine("id", Decimal.Print(id.value));
        JoinMore(idLine, [ev, data]);
        assert [idLine] + [ev, data] == FrameLinesOf(item);
        FirstLine(idLine, ev, data);
      } else {
        assert [] + [ev, data] == [ev, data];
        assert "" + (ev + "\n") + (data + "\n\n") == (ev + "\n") + (data + "\n\n");
      }
  }

  lemma FieldLineIs(name: string, value: string)
    ensures name == "id" ==> FieldLine(name, value) == "id: " + value
    ensures name == "event" ==> FieldLine(name, value) == "event: " + value
    ensures name == "data" ==> FieldLine(name, value) == "data: " + value
  {
    assert "id" + ": " == "id: " && "event" + ": " == "event: " && "data" + ": " == "data: ";
  }

  lemma JoinOne(line: string)
    ensures Join([line]) == line
  {
  }

  lemma JoinMore(line: string, lines: seq<string>)
    requires lines != []
    ensures Join([line] + lines) == line + "\n" + Join(lines)
  {
    assert ([line] + lines)[1..] == lines;
  }

  lemma LastLines(a: string, b: string)
    ensures (a + "\n") + (b + "\n\n") == (a + "\n" + b) + "\n\n"
  {
  }

  lemma FirstLine(a: string, b: string, c: string)
    ensures (a + "\n") + (b + "\n") + (c + "\n\n") == (a + "\n" + (b + "\n" + c)) + "\n\n"
  {
    LastLines(b, c);
    assert (a + "\n") + (b + "\n") + (c + "\n\n") == (a + "\n") + ((b + "\n") + (c + "\n\n"));
    assert (a + "\n") + ((b + "\n" + c) + "\n\n") == (a + "\n" + (b + "\n" + c)) + "\n\n";
  }

  lemma {:induction false} WireIsLines(items: seq<Item>)
    ensures Wire(items) == Unlines(AllLines(items))
  {
    if items != [] {
      var lines := FrameLinesOf(items[0]);
      FrameIsJoin(items[0]);
      UnlinesIsJoin(lines);
      assert Unlines([""]) == "\n" by { assert [""][1..] == []; assert "" + "\n" + "" == "\n"; }
      UnlinesAppend(lines, [""]);
      UnlinesAppend(lines + [""], AllLines(items[1..]));
      assert Join(lines) + "\n\n" == Join(lines) + "\n" + "\n";
      WireIsLines(items[1..]);
    }
  }

  // ---------- The line-based reader ----------

  lemma FieldLineParses(name: string, value: string)
    requires ':' !in name
    ensures ParseField(FieldLine(name, value)) == (name, value)
  {
    var line := FieldLine(name, value);
    assert line[|name|..|name| + 1] == ":";
    forall j: nat | j < |name| ensures !OccursAt(line, ":", j) {
      assert line[j..j + 1][0] == name[j];
    }
    IndexOfIs(line, ":", |name|);
    assert line[..|name|] == name && line[|name| + 1..] == " " + value;
    assert (" " + value)[1..] == value;
  }

  lemma FieldLineRead(p: Pending, name: string, value: string)
    requires OneLine(name) && OneLine(value) && name != "" && ':' !in name
    ensures ReadLine(p, FieldLine(name, value))
         == ([], if name == "event" then p.(event := Some(value))
                 else if name == "data" then p.(data := p.data + [value])
                 else p)
  {
    var line := FieldLine(name, value);
    FieldLineParses(name, value);
    assert StripCr(line) == line;
    assert line[0] == name[0] && name[0] in name;
  }

  /** Reading one frame line by line yields its event and leaves nothing pending. */
  lemma FrameRead(item: Item)
    requires Sendable(item)
    ensures ReadLines(NOTHING_PENDING, FrameLinesOf(item) + [""]) == (EventsOf(FramesSent([item])), NOTHING_PENDING)
  {
    hide ReadLine, ParseField, Decimal.Print, OneLine;
    assert [item][1..] == [];
    var lines := FrameLinesOf(item);
    match item
    case Ping =>
      PingRead();
    case Sent(id, eventType, json) =>
      var ev, data := FieldLine("event", eventType), FieldLine("data", json);
      OneFrameSent(item);
      OneLineNames();
      EventRead(eventType, json);
      if id.Some? {
        IdIsOneLine(id.value);
        var idLine := FieldLine("id", Decimal.Print(id.value));
        FieldLineRead(NOTHING_PENDING, "id", Decimal.Print(id.value));
        ReadLinesOne(NOTHING_PENDING, idLine);
        ReadLinesAppend(NOTHING_PENDING, [idLine], [ev, data, ""]);
        assert [] + [Event(eventType, json)] == [Event(eventType, json)];
        assert lines + [""] == [idLine] + [ev, data, ""];
      } else {
        assert lines + [""] == [ev, data, ""];
      }
  }

  lemma OneFrameSent(item: Item)
    requires item.Sent?
    ensures EventsOf(FramesSent([item])) == [Event(item.eventType, item.json)]
  {
    assert [item][1..] == [];
    assert |FramesSent([item])| == 1;
    assert EventsOf(FramesSent([item])[1..]) == [];
  }

  lemma OneLineNames()
    ensures OneLine("id") && OneLine("event") && OneLine("data")
  {
  }

  lemma IdIsOneLine(n: nat)
    ensures OneLine(Decimal.Print(n))
  {
  }

  lemma PingRead()
    ensures ReadLines(NOTHING_PENDING, [": ping", ""]) == ([], NOTHING_PENDING)
  {
    ReadLinesOne(NOTHING_PENDING, ": ping");
    ReadLinesSnoc(NOTHING_PENDING, [": ping"], "");
    assert [": ping"] + [""] == [": ping", ""];
  }

  lemma EventRead(eventType: string, json: string)
    requires OneLine(eventType) && OneLine(json)
    ensures ReadLines(NOTHING_PENDING, [FieldLine("event", eventType), FieldLine("data", json), ""])
         == ([Event(eventType, json)], NOTHING_PENDING)
  {
    hide ParseField, FieldLine, ApplyField, OneLine;
    OneLineNames();
    var ev, data := FieldLine("event", eventType), FieldLine("data", json);
    var named, full := Pending(Some(eventType), []), Pending(Some(eventType), [json]);
    FieldLineRead(NOTHING_PENDING, "event", eventType);
    FieldLineRead(named, "data", json);
    assert named.data + [json] == [json];
    assert ReadLine(full, "") == ([Event(eventType, json)], NOTHING_PENDING);
    var none: seq<Event> := [];
    assert none + none == none && none + [Event(eventType, json)] == [Event(eventType, json)];
    ReadLinesOne(NOTHING_PENDING, ev);
    ReadLinesSnoc(NOTHING_PENDING, [ev], data);
    assert [ev] + [data] == [ev, data];
    ReadLinesSnoc(NOTHING_PENDING, [ev, data], "");
    assert [ev, data] + [""] == [ev, data, ""];
  }

  lemma {:induction false} AllFramesRead(items: seq<Item>)
    requires forall item | item in items :: Sendable(item)
    ensures ReadLines(NOTHING_PENDING, AllLines(items)) == (EventsOf(FramesSent(items)), NOTHING_PENDING)
    ensures forall l | l in AllLines(items) :: '\n' !in l
  {
    if items != [] {
      var item, later := items[0], items[1..];
      assert item in items;
      LinesAreClean(item);
      AllFramesRead(later);
      hide ReadLines, FrameLinesOf, Sendable;
      FrameRead(item);
      ReadLinesAppend(NOTHING_PENDING, FrameLinesOf(item) + [""], AllLines(later));
      FramesSentFirst(items);
      EventsOfAppend(FramesSent([item]), FramesSent(later));
    }
  }

  lemma FramesSentFirst(items: seq<Item>)
    requires items != []
    ensures FramesSent(items) == FramesSent([items[0]]) + FramesSent(items[1..])
  {
    assert [items[0]][1..] == [];
  }

  lemma {:induction false} EventsOfAppend(a: seq<Frame>, b: seq<Frame>)
    ensures EventsOf(a + b) == EventsOf(a) + EventsOf(b)
  {
    if a == [] {
      assert a + b == b;
    } else {
      assert (a + b)[1..] == a[1..] + b;
      EventsOfAppend(a[1..], b);
    }
  }

  /** The command-line client reads back exactly the events sent, however the stream was cut. */
  lemma LineReaderReadsBack(items: seq<Item>, chunks: seq<string>)
    requires forall item | item in items :: Sendable(item)
    requires Concat(chunks) == Wire(items)
    ensures LineEvents(chunks) == EventsOf(FramesSent(items))
  {
    hide Sendable;
    var lines := AllLines(items);
    WireIsLines(items);
    AllFramesRead(items);
    LineEventsOf(lines, "");
    var text := Unlines(lines) + "";
    assert text == Wire(items);
    assert Concat([text]) == text + Concat([]) == text by { assert [text][1..] == []; }
    LineReaderIgnoresCuts(chunks, [text]);
    var events := EventsOf(FramesSent(items));
    assert events + [] == events;
  }

  // ---------- The frame-based reader ----------

  lemma {:induction false} JoinHasNoBlank(lines: seq<string>)
    requires lines != [] && forall l | l in lines :: OneLine(l) && l != ""
    ensures var s := Join(lines);
            s != "" && s[0] != '\n' && s[|s| - 1] != '\n'
                && forall k | 0 <= k < |s| - 1 :: !(s[k] == '\n' && s[k + 1] == '\n')
  {
    var l := lines[0];
    assert l in lines && l[0] in l && l[|l| - 1] in l;
    if |lines| == 1 {
      assert forall k | 0 <= k < |l| :: l[k] in l;
    } else {
      JoinHasNoBlank(lines[1..]);
      var s, t := Join(lines), Join(lines[1..]);
      forall k | 0 <= k < |s| - 1 ensures !(s[k] == '\n' && s[k + 1] == '\n') {
        if k < |l| { assert s[k] == l[k] && l[k] in l; }
        else if k == |l| { assert s[k + 1] == t[0]; }
        else { assert s[k] == t[k - |l| - 1] && s[k + 1] == t[k - |l|]; }
      }
    }
  }

  lemma FrameIsFirst(item: Item, rest: string)
    requires Sendable(item)
    ensures IndexOf(SseFrame(item) + rest, SEPARATOR) == Some(|Join(FrameLinesOf(item))|)
  {
    hide FrameLinesOf, Join, SseFrame, IndexOf, Sendable;
    var raw := Join(FrameLinesOf(item));
    FrameIsJoin(item);
    LinesAreClean(item);
    JoinHasNoBlank(FrameLinesOf(item));
    BlankLineEnds(raw, rest);
  }

  lemma BlankLineEnds(raw: string, rest: string)
    requires raw != "" && raw[|raw| - 1] != '\n'
    requires forall k | 0 <= k < |raw| - 1 :: !(raw[k] == '\n' && raw[k + 1] == '\n')
    ensures IndexOf(raw + "\n\n" + rest, SEPARATOR) == Some(|raw|)
  {
    hide OccursAt;
    var s := raw + "\n\n" + rest;
    BlankLineAt(s, |raw|);
    forall j: nat | j < |raw| ensures !OccursAt(s, SEPARATOR, j) { BlankLineAt(s, j); }
    IndexOfIs(s, SEPARATOR, |raw|);
  }

  function RawFrames(items: seq<Item>): seq<string> {
    if items == [] then [] else [Join(FrameLinesOf(items[0]))] + RawFrames(items[1..])
  }

  lemma {:induction false} WireSplits(items: seq<Item>)
    requires forall item | item in items :: Sendable(item)
    ensures SplitBy(Wire(items), SEPARATOR) == Split(RawFrames(items), "")
  {
    hide SplitBy, OccursAt, SseFrame, FrameLinesOf, Join, IndexOf, Sendable;
    if items == [] {
      NoSeparator("");
      SplitNone("", SEPARATOR);
    } else {
      assert items[0] in items;
      var raw, rest := Join(FrameLinesOf(items[0])), Wire(items[1..]);
      FrameIsFirst(items[0], rest);
      FrameIsJoin(items[0]);
      var s := raw + "\n\n" + rest;
      SplitSome(s, SEPARATOR, |raw|);
      assert s[..|raw|] == raw && s[|raw| + 2..] == rest;
      WireSplits(items[1..]);
    }
  }

  lemma LinesOfJoin(lines: seq<string>)
    requires lines != [] && forall l | l in lines :: '\n' !in l
    ensures LinesOf(Join(lines)) == lines
  {
    hide SplitBy, OccursAt, IndexOf;
    var init, last := lines[..|lines| - 1], lines[|lines| - 1];
    assert lines == init + [last];
    JoinSnoc(init, last);
    SplitUnlines(init);
    SplitAppend(Unlines(init), last, "\n");
    NoNewline(last);
    SplitNone(last, "\n");
    assert "" + last == last && init + [] == init;
  }

  lemma {:induction false} JoinSnoc(init: seq<string>, last: string)
    ensures Join(init + [last]) == Unlines(init) + last
  {
    if init == [] {
      assert init + [last] == [last];
    } else {
      assert (init + [last])[1..] == init[1..] + [last];
      JoinSnoc(init[1..], last);
      assert init[0] + "\n" + (Unlines(init[1..]) + last) == init[0] + "\n" + Unlines(init[1..]) + last;
    }
  }

  lemma FrameParsed(item: Item)
    requires Sendable(item)
    ensures Frames([Join(FrameLinesOf(item))]) == FramesSent([item])
  {
    var lines := FrameLinesOf(item);
    var raw := Join(lines);
    var raws: seq<string> := [raw];
    assert [item][1..] == [];
    assert raws[1..] == [];
    LinesAreClean(item);
    LinesOfJoin(lines);
    match item
    case Ping =>
    case Sent(id, eventType, json) =>
      FieldsSet(item);
      JoinStarts(lines);
      assert raw[0] != ':';
  }

  lemma JoinStarts(lines: seq<string>)
    requires lines != [] && lines[0] != ""
    ensures Join(lines) != "" && Join(lines)[0] == lines[0][0]
  {
  }

  lemma FieldsSet(item: Item)
    requires item.Sent?
    ensures FrameLines(NO_FIELDS, FrameLinesOf(item))
         == FrameFields(item.eventType, if item.id.Some? then Some(Decimal.Print(item.id.value)) else None, [item.json])
  {
    hide ParseField, Decimal.Print;
    var Sent(id, eventType, json) := item;
    var ev, data := FieldLine("event", eventType), FieldLine("data", json);
    FieldLineParses("event", eventType);
    FieldLineParses("data", json);
    var start := NO_FIELDS;
    if id.Some? {
      var idLine := FieldLine("id", Decimal.Print(id.value));
      FieldLineParses("id", Decimal.Print(id.value));
      start := NO_FIELDS.(id := Some(Decimal.Print(id.value)));
      assert FrameLinesOf(item) == [idLine, ev, data];
      assert [idLine, ev, data][1..] == [ev, data];
      assert FrameLine(NO_FIELDS, idLine) == start;
    } else {
      assert FrameLinesOf(item) == [ev, data];
    }
    TwoFields(start, eventType, json);
  }

  lemma TwoFields(f: FrameFields, eventType: string, json: string)
    requires f.data == []
    ensures FrameLines(f, [FieldLine("event", eventType), FieldLine("data", json)])
        == FrameFields(eventType, f.id, [json])
  {
    hide ParseField;
    var ev, data := FieldLine("event", eventType), FieldLine("data", json);
    FieldLineParses("event", eventType);
    FieldLineParses("data", json);
    assert [ev, data][1..] == [data] && [data][1..] == [];
    assert f.data + [json] == [json];
    var named := f.(event := eventType);
    assert FrameLine(f, ev) == named;
    assert FrameLine(named, data) == named.(data := [json]);
    assert FrameLines(named, [data]) == FrameLines(named.(data := [json]), []);
  }

  lemma {:induction false} AllFramesParsed(items: seq<Item>)
    requires forall item | item in items :: Sendable(item)
    ensures Frames(RawFrames(items)) == FramesSent(items)
  {
    hide FrameLinesOf, FrameOf, Sendable;
    if items != [] {
      var raw := Join(FrameLinesOf(items[0]));
      assert items[0] in items;
      FrameParsed(items[0]);
      AllFramesParsed(items[1..]);
      FramesAppend([raw], RawFrames(items[1..]));
      FramesSentFirst(items);
    }
  }

  lemma NoFrame()
    ensures FrameOf("") == None
  {
  }

  /** The SDK reads back exactly the frames sent, ids included, however the stream was cut. */
  lemma FrameReaderReadsBack(items: seq<Item>, chunks: seq<string>)
    requires forall item | item in items :: Sendable(item)
    requires Concat(chunks) == Wire(items)
    ensures FrameEvents(chunks) == FramesSent(items)
  {
    hide SplitBy, OccursAt, IndexOf, Sendable, FrameOf, FramesSent, RawFrames, Wire;
    NoSeparator("");
    assert FrameOf("") == None by { NoFrame(); }
    RunFramesIsOneSplit("", chunks);
    assert "" + Wire(items) == Wire(items);
    WireSplits(items);
    AllFramesParsed(items);
    assert Frames([""]) == [] by { assert [""][1..] == []; }
    assert FramesSent(items) + [] == FramesSent(items);
  }
}
