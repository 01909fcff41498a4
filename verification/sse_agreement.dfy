/** When do the two Server-Sent-Events readers of the repository yield the same events? */
module SseAgreement {
  import opened Options
  import opened Text
  import opened Sse

  /** The events of the frame-based reader, without the ids the line-based reader ignores. */
  function EventsOf(frames: seq<Frame>): seq<Event> {
    if frames == [] then [] else [frames[0].event] + EventsOf(frames[1..])
  }

  /** A text cut at its blank lines, the part after the last one included. */
  function Blocks(text: string): seq<string> {
    var split := SplitBy(text, SEPARATOR);
    split.parts + [split.rest]
  }

  /** The event name and data lines a block's lines set, blank lines ignored. */
  function Collect(p: Pending, lines: seq<string>): Pending
    decreases |lines|
  {
    if lines == [] then p
    else Collect(if lines[0] == "" then p else ApplyField(p, lines[0]), lines[1..])
  }

  function FieldsOf(raw: string): Pending {
    Collect(NOTHING_PENDING, LinesOf(raw))
  }

  /** The frame-based reader skips a block that opens with a comment or has no data line. */
  predicate Skipped(raw: string) {
    (raw != "" && raw[0] == ':') || FieldsOf(raw).data == []
  }

  /** One block, given the event name left over from earlier blocks (which is absent or empty):
      a skipped block must not hold anything the line-based reader would yield, and a block that is
      yielded must name its event itself when an empty name is left over. */
  predicate BlockAgrees(carry: Option<string>, raw: string) {
    var f := FieldsOf(raw);
    if Skipped(raw) then f.data == [] && Falsy(f.event)
    else carry.None? || f.event.Some?
  }

  /** The event name left over after a block. */
  function CarryAfter(carry: Option<string>, raw: string): Option<string> {
    var f := FieldsOf(raw);
    if f.data != [] || !Falsy(f.event) then None else if f.event.Some? then f.event else carry
  }

  predicate BlocksAgree(carry: Option<string>, raws: seq<string>)
    decreases |raws|
  {
    raws == [] || (BlockAgrees(carry, raws[0]) && BlocksAgree(CarryAfter(carry, raws[0]), raws[1..]))
  }

  // ---------- One block, read by both ----------

  predicate AtBoundary(p: Pending) {
    p.data == [] && Falsy(p.event)
  }

  predicate NoCr(lines: seq<string>) {
    forall l | l in lines :: '\r' !in l
  }

  lemma {:induction false} CollectAppend(p: Pending, a: seq<string>, b: seq<string>)
    ensures Collect(p, a + b) == Collect(Collect(p, a), b)
    decreases |a|
  {
    if a == [] {
      assert a + b == b;
    } else {
      assert (a + b)[1..] == a[1..] + b;
      CollectAppend(if a[0] == "" then p else ApplyField(p, a[0]), a[1..], b);
    }
  }

  lemma CommentSetsNothing(p: Pending, line: string)
    requires line != "" && line[0] == ':'
    ensures ApplyField(p, line) == p
  {
    assert line[0..1] == ":";
    IndexOfIs(line, ":", 0);
    assert ParseField(line).0 == "";
  }

  lemma {:induction false} ReadInner(p: Pending, lines: seq<string>)
    requires NoCr(lines) && "" !in lines
    ensures ReadLines(p, lines) == ([], Collect(p, lines))
    decreases |lines|
  {
    if lines != [] {
      var line := lines[0];
      assert line in lines && lines[1..] == lines[1..|lines|];
      assert StripCr(line) == line;
      var none: seq<Event> := [];
      assert none + none == none;
      if line[0] == ':' { CommentSetsNothing(p, line); }
      ReadInner(ApplyField(p, line), lines[1..]);
    }
  }

  /** A block and the blank line after it: at most one event, at the end. */
  lemma ReadBlock(p: Pending, lines: seq<string>)
    requires AtBoundary(p) && NoCr(lines)
    requires forall i | 0 < i < |lines| :: lines[i] != ""
    ensures ReadLines(p, lines + [""]) == FlushPending(Collect(p, lines))
  {
    if lines == [] || lines[0] != "" {
      ReadInner(p, lines);
    } else {
      assert lines == [""] + lines[1..];
      ReadInner(p, lines[1..]);
      ReadLinesAppend(p, [""], lines[1..]);
      ReadLinesSnoc(p, [], "");
      assert [] + [""] == [""];
    }
    ReadLinesSnoc(p, lines, "");
    assert [] + FlushPending(Collect(p, lines)).0 == FlushPending(Collect(p, lines)).0;
  }

  lemma {:induction false} CollectCarry(carry: Option<string>, p: Pending, lines: seq<string>)
    ensures var q := p.(event := if p.event.Some? then p.event else carry);
            var r := Collect(p, lines);
            Collect(q, lines) == r.(event := if r.event.Some? then r.event else carry)
    decreases |lines|
  {
    if lines != [] {
      CollectCarry(carry, if lines[0] == "" then p else ApplyField(p, lines[0]), lines[1..]);
    }
  }

  lemma {:induction false} FrameCollects(f: FrameFields, p: Pending, lines: seq<string>)
    requires f.event == p.event.GetOr("message") && f.data == p.data
    ensures var g, q := FrameLines(f, lines), Collect(p, lines);
            g.event == q.event.GetOr("message") && g.data == q.data
    decreases |lines|
  {
    if lines != [] {
      FrameCollects(FrameLine(f, lines[0]), if lines[0] == "" then p else ApplyField(p, lines[0]), lines[1..]);
    }
  }

  function LineBlock(carry: Option<string>, raw: string): seq<Event> {
    FlushPending(Collect(Pending(carry, []), LinesOf(raw))).0
  }

  function FrameBlock(raw: string): seq<Event> {
    match FrameOf(raw) case None => [] case Some(f) => [f.event]
  }

  lemma BlockEvents(carry: Option<string>, raw: string)
    requires Falsy(carry)
    ensures var f := FieldsOf(raw);
            LineBlock(carry, raw) == if f.data == [] && Falsy(f.event) then []
                                     else [Event(if f.event.Some? then f.event.value else carry.GetOr("message"),
                                                 Join(f.data))]
    ensures var f := FieldsOf(raw);
            FrameBlock(raw) == if Skipped(raw) then [] else [Event(f.event.GetOr("message"), Join(f.data))]
    ensures FlushPending(Collect(Pending(carry, []), LinesOf(raw))).1 == Pending(CarryAfter(carry, raw), [])
  {
    CollectCarry(carry, NOTHING_PENDING, LinesOf(raw));
    FrameCollects(NO_FIELDS, NOTHING_PENDING, LinesOf(raw));
    if raw == "" {
      NoNewline("");
      assert LinesOf("") == [""];
    }
  }

  // ---------- All blocks ----------

  function LineBlocks(carry: Option<string>, raws: seq<string>): seq<Event>
    decreases |raws|
  {
    if raws == [] then [] else LineBlock(carry, raws[0]) + LineBlocks(CarryAfter(carry, raws[0]), raws[1..])
  }

  lemma {:induction false} FrameReaderSeesBlocks(raws: seq<string>)
    requires raws != []
    ensures EventsOf(Frames(raws)) == FrameBlock(raws[0]) + EventsOf(Frames(raws[1..]))
  {
    match FrameOf(raws[0]) {
      case None => assert [] + Frames(raws[1..]) == Frames(raws[1..]);
      case Some(f) => assert ([f] + Frames(raws[1..]))[1..] == Frames(raws[1..]);
    }
  }

  /** Block for block the line-based reader yields whenever the frame-based one does, so the two
      outputs are equal only if they agree on every block. */
  lemma {:induction false} AgreeBlockwise(carry: Option<string>, raws: seq<string>)
    requires Falsy(carry)
    ensures |EventsOf(Frames(raws))| <= |LineBlocks(carry, raws)|
    ensures LineBlocks(carry, raws) == EventsOf(Frames(raws)) <==> BlocksAgree(carry, raws)
    decreases |raws|
  {
    if raws != [] {
      var next := CarryAfter(carry, raws[0]);
      AgreeBlockwise(next, raws[1..]);
      BlockEvents(carry, raws[0]);
      FrameReaderSeesBlocks(raws);
      var a, b := LineBlock(carry, raws[0]), FrameBlock(raws[0]);
      var as', bs' := LineBlocks(next, raws[1..]), EventsOf(Frames(raws[1..]));
      assert |b| <= |a| <= 1;
      assert (a + as')[|a|..] == as' && (b + bs')[|b|..] == bs';
      assert (a + as')[..|a|] == a && (b + bs')[..|b|] == b;
    }
  }

  /** The same after the last step of both readers, whatever the parse function: parsing does not hide a
      disagreement, because two events of one block can differ in their names only. */
  lemma {:induction false} AgreeBlockwiseParsed<V>(parse: Parse<V>, carry: Option<string>, raws: seq<string>)
    requires Falsy(carry)
    ensures ParseAll(parse, LineBlocks(carry, raws)) == ParseAll(parse, EventsOf(Frames(raws)))
        <==> BlocksAgree(carry, raws)
    decreases |raws|
  {
    hide ParseAll, Skipped, FieldsOf, LineBlock, FrameBlock, Frames, EventsOf, BlockAgrees, CarryAfter;
    if raws != [] {
      var next := CarryAfter(carry, raws[0]);
      CarryIsFalsy(carry, raws[0]);
      AgreeBlockwise(next, raws[1..]);
      AgreeBlockwiseParsed(parse, next, raws[1..]);
      FrameReaderSeesBlocks(raws);
      BlockDiffers(carry, raws[0]);
      AgreeInParts(parse, LineBlock(carry, raws[0]), LineBlocks(next, raws[1..]), FrameBlock(raws[0]),
                   EventsOf(Frames(raws[1..])));
    } else {
      assert EventsOf(Frames(raws)) == [] by { NoBlocks(); }
    }
  }

  lemma NoBlocks()
    ensures EventsOf(Frames([])) == []
  {
  }

  lemma AgreeInParts<V>(parse: Parse<V>, a: seq<Event>, as': seq<Event>, b: seq<Event>, bs': seq<Event>)
    requires |b| <= |a| <= 1 && |bs'| <= |as'|
    requires |a| == |b| == 1 ==> a[0].data == b[0].data
    ensures ParseAll(parse, a + as') == ParseAll(parse, b + bs')
       <==> |a| == |b| && (a != [] ==> a[0].event == b[0].event) && ParseAll(parse, as') == ParseAll(parse, bs')
  {
    hide ParseData;
    ParseAllAppend(parse, a, as');
    ParseAllAppend(parse, b, bs');
    var p, ps', q, qs' := ParseAll(parse, a), ParseAll(parse, as'), ParseAll(parse, b), ParseAll(parse, bs');
    if |a| == |b| {
      assert (p + ps')[|a|..] == ps' && (q + qs')[|a|..] == qs';
      assert (p + ps')[..|a|] == p && (q + qs')[..|a|] == q;
      if a != [] { assert p == q <==> p[0] == q[0]; }
    }
  }

  lemma ParseAllAppend<V>(parse: Parse<V>, a: seq<Event>, b: seq<Event>)
    ensures ParseAll(parse, a + b) == ParseAll(parse, a) + ParseAll(parse, b)
  {
    hide ParseData;
  }

  lemma CarryIsFalsy(carry: Option<string>, raw: string)
    requires Falsy(carry)
    ensures Falsy(CarryAfter(carry, raw))
  {
    hide FieldsOf;
  }

  /** Of one block the line-based reader yields at least what the frame-based one does, and where both
      yield, a disagreement is one of names. */
  lemma BlockDiffers(carry: Option<string>, raw: string)
    requires Falsy(carry)
    ensures var a, b := LineBlock(carry, raw), FrameBlock(raw);
            && |b| <= |a| <= 1
            && (|a| == |b| == 1 ==> a[0].data == b[0].data)
            && (BlockAgrees(carry, raw) <==> |a| == |b| && (a != [] ==> a[0].event == b[0].event))
  {
    hide FieldsOf, LineBlock, FrameBlock;
    BlockEvents(carry, raw);
  }

  // ---------- From text to blocks ----------

  lemma {:induction false} PartsNoCr(s: string)
    requires '\r' !in s
    ensures NoCr(SplitBy(s, "\n").parts) && '\r' !in SplitBy(s, "\n").rest
    decreases |s|
  {
    match IndexOf(s, "\n")
    case None =>
    case Some(i) => PartsNoCr(s[i + 1..]);
  }

  /** Without a blank line inside, only the first line of a text can be empty. */
  lemma {:induction false} OnlyFirstLineEmpty(s: string)
    requires IndexOf(s, SEPARATOR).None?
    ensures var lines := SplitBy(s, "\n").parts;
            forall i | 0 < i < |lines| :: lines[i] != ""
    decreases |s|
  {
    if IndexOf(s, "\n").Some? {
      var k := IndexOf(s, "\n").value;
      var t := s[k + 1..];
      assert s == s[..k + 1] + t;
      forall j: nat ensures !OccursAt(t, SEPARATOR, j) {
        OccursDrop(s[..k + 1], t, SEPARATOR, j);
      }
      OnlyFirstLineEmpty(t);
      NewlineAt(s, k);
      BlankLineAt(s, k);
      FirstLineNonEmpty(t);
      var lines := SplitBy(t, "\n").parts;
      assert SplitBy(s, "\n").parts == [s[..k]] + lines;
    }
  }

  lemma BlankLineAt(s: string, k: nat)
    ensures OccursAt(s, SEPARATOR, k) <==> k + 1 < |s| && s[k] == '\n' && s[k + 1] == '\n'
  {
    if k + 1 < |s| { assert s[k..k + 2] == [s[k], s[k + 1]]; }
  }

  lemma FirstLineNonEmpty(t: string)
    requires t == "" || t[0] != '\n'
    ensures var lines := SplitBy(t, "\n").parts; lines != [] ==> lines[0] != ""
  {
    if t != "" {
      assert t[0..1] == [t[0]];
    }
  }

  lemma SplitTerminated(raw: string, more: string)
    ensures SplitBy(raw + "\n" + more, "\n") == SplitBy(more, "\n").Prepend(LinesOf(raw))
  {
    hide OccursAt, SplitBy;
    var s := SplitBy(raw, "\n");
    SplitAppend(raw, "\n" + more, "\n");
    NoNewline(s.rest);
    FirstNewline(s.rest, more);
    var t := s.rest + "\n" + more;
    assert raw + "\n" + more == raw + ("\n" + more) && t == s.rest + ("\n" + more);
    SplitSome(t, "\n", |s.rest|);
    assert t[..|s.rest|] == s.rest && t[|s.rest| + 1..] == more;
    SplitBy(more, "\n").PrependTwice(s.parts, [s.rest]);
  }

  predicate Terminated(text: string) {
    text == "" || text[|text| - 1] == '\n'
  }

  lemma {:induction false} TerminatedRest(text: string)
    requires Terminated(text)
    ensures SplitBy(text, "\n").rest == ""
    decreases |text|
  {
    NoNewline(text);
    if IndexOf(text, "\n").Some? {
      TerminatedRest(text[IndexOf(text, "\n").value + 1..]);
    }
  }

  /** Reading a text line by line is reading its blocks one after the other. */
  lemma {:induction false} TextIsBlocks(carry: Option<string>, text: string)
    requires Falsy(carry) && '\r' !in text && Terminated(text)
    ensures var (events, p) := ReadLines(Pending(carry, []), SplitBy(text, "\n").parts);
            events + FlushPending(p).0 == LineBlocks(carry, Blocks(text))
    decreases |text|
  {
    hide OccursAt, SplitBy, LineBlocks, LinesOf, FieldsOf, Collect, FlushPending, ReadLines;
    var p := Pending(carry, []);
    if IndexOf(text, SEPARATOR).None? {
      SplitNone(text, SEPARATOR);
      assert Blocks(text) == [text];
      LastBlock(carry, text);
    } else {
      var i := IndexOf(text, SEPARATOR).value;
      var raw, more := text[..i], text[i + 2..];
      SplitSome(text, SEPARATOR, i);
      assert Blocks(text) == [raw] + Blocks(more);
      FirstBlock(carry, text);
      BlockEvents(carry, raw);
      TextIsBlocks(CarryAfter(carry, raw), more);
      ReadLinesAppend(p, LinesOf(raw) + [""], SplitBy(more, "\n").parts);
      var (later, q) := ReadLines(Pending(CarryAfter(carry, raw), []), SplitBy(more, "\n").parts);
      LineBlocksFirst(carry, raw, Blocks(more));
      assert (LineBlock(carry, raw) + later) + FlushPending(q).0 == LineBlock(carry, raw) + (later + FlushPending(q).0);
    }
  }

  lemma LineBlocksFirst(carry: Option<string>, raw: string, raws: seq<string>)
    ensures LineBlocks(carry, [raw] + raws) == LineBlock(carry, raw) + LineBlocks(CarryAfter(carry, raw), raws)
  {
    hide LineBlock, CarryAfter;
    assert ([raw] + raws)[1..] == raws;
  }

  lemma LastBlock(carry: Option<string>, text: string)
    requires Falsy(carry) && '\r' !in text && Terminated(text) && IndexOf(text, SEPARATOR).None?
    ensures var (events, p) := ReadLines(Pending(carry, []), SplitBy(text, "\n").parts);
            events + FlushPending(p).0 == LineBlocks(carry, [text])
  {
    hide OccursAt, SplitBy, ReadLines, FieldsOf, FlushPending;
    var p := Pending(carry, []);
    var lines := SplitBy(text, "\n").parts;
    PartsNoCr(text);
    OnlyFirstLineEmpty(text);
    TerminatedRest(text);
    ReadBlock(p, lines);
    ReadLinesSnoc(p, lines, "");
    CollectAppend(p, lines, [""]);
    assert LinesOf(text) == lines + [""];
    assert Collect(p, LinesOf(text)) == Collect(p, lines);
    assert LineBlocks(carry, [text]) == LineBlock(carry, text);
  }

  lemma FirstBlock(carry: Option<string>, text: string)
    requires Falsy(carry) && '\r' !in text && Terminated(text) && IndexOf(text, SEPARATOR).Some?
    ensures var i := IndexOf(text, SEPARATOR).value;
            Terminated(text[i + 2..])
            && SplitBy(text, "\n").parts == (LinesOf(text[..i]) + [""]) + SplitBy(text[i + 2..], "\n").parts
            && ReadLines(Pending(carry, []), LinesOf(text[..i]) + [""])
                 == FlushPending(Collect(Pending(carry, []), LinesOf(text[..i])))
  {
    hide SplitBy, OccursAt, IndexOf, ReadLines, LinesOf, Collect, FlushPending;
    var i := IndexOf(text, SEPARATOR).value;
    var raw, more := text[..i], text[i + 2..];
    CutAtBlankLine(text, i);
    TwoNewlines(raw, more);
    assert text == raw + "\n" + ("\n" + more);
    forall c | c in raw ensures c in text {}
    ReadClosedBlock(carry, raw);
  }

  lemma ReadClosedBlock(carry: Option<string>, raw: string)
    requires Falsy(carry) && '\r' !in raw && IndexOf(raw + "\n", SEPARATOR).None?
    ensures ReadLines(Pending(carry, []), LinesOf(raw) + [""])
         == FlushPending(Collect(Pending(carry, []), LinesOf(raw)))
  {
    hide SplitBy, OccursAt, IndexOf, ReadLines, Collect, FlushPending;
    OnlyFirstLineEmpty(raw + "\n");
    PartsNoCr(raw + "\n");
    NoNewline("");
    SplitNone("", "\n");
    SplitTerminated(raw, "");
    assert raw + "\n" + "" == raw + "\n";
    assert LinesOf(raw) + [] == LinesOf(raw);
    ReadBlock(Pending(carry, []), LinesOf(raw));
  }

  lemma CutAtBlankLine(text: string, i: nat)
    requires IndexOf(text, SEPARATOR) == Some(i)
    ensures text == text[..i] + "\n" + ("\n" + text[i + 2..])
    ensures IndexOf(text[..i] + "\n", SEPARATOR).None?
  {
    var closed := text[..i] + "\n";
    assert text[i..i + 2] == SEPARATOR;
    assert text == text[..i] + SEPARATOR + text[i + 2..];
    assert text == closed + ("\n" + text[i + 2..]);
    forall j: nat ensures !OccursAt(closed, SEPARATOR, j) {
      if j + 2 <= |closed| { OccursAppend(closed, "\n" + text[i + 2..], SEPARATOR, j); }
    }
  }

  lemma TwoNewlines(raw: string, more: string)
    ensures SplitBy(raw + "\n" + ("\n" + more), "\n").parts == (LinesOf(raw) + [""]) + SplitBy(more, "\n").parts
  {
    hide SplitBy, OccursAt;
    SplitTerminated(raw, "\n" + more);
    SplitTerminated("", more);
    NoNewline("");
    SplitNone("", "\n");
    assert LinesOf("") == [""];
    assert "" + "\n" + more == "\n" + more;
    assert LinesOf(raw) + ([""] + SplitBy(more, "\n").parts) == (LinesOf(raw) + [""]) + SplitBy(more, "\n").parts;
  }

  /** The exact class on which the two readers agree: over every stream free of carriage returns
      that ends with a newline, however it is cut for either of them. */
  lemma ReadersAgreeIff<V>(parse: Parse<V>, chunks: seq<string>, chunks': seq<string>)
    requires Concat(chunks) == Concat(chunks')
    requires '\r' !in Concat(chunks) && Terminated(Concat(chunks))
    ensures LineEvents(chunks) == EventsOf(FrameEvents(chunks')) <==> BlocksAgree(None, Blocks(Concat(chunks)))
    ensures ParseAll(parse, LineEvents(chunks)) == ParseAll(parse, EventsOf(FrameEvents(chunks')))
            <==> BlocksAgree(None, Blocks(Concat(chunks)))
  {
    hide SplitBy, OccursAt, BlocksAgree, LineBlocks;
    var text := Concat(chunks);
    NoNewline("");
    NoSeparator("");
    assert "" + text == text;
    RunLinesIsOneFeed(LineState("", NOTHING_PENDING), chunks);
    RunFramesIsOneSplit("", chunks');
    var split := SplitBy(text, SEPARATOR);
    FramesAppend(split.parts, [split.rest]);
    TextIsBlocks(None, text);
    AgreeBlockwise(None, Blocks(text));
    AgreeBlockwiseParsed(parse, None, Blocks(text));
  }

  /** A simple sufficient condition: no block opens with a comment, and every block that names an
      event has data. */
  lemma {:induction false} PlainBlocksAgree(raws: seq<string>)
    requires forall raw | raw in raws ::
               (raw == "" || raw[0] != ':') && (FieldsOf(raw).event.Some? ==> FieldsOf(raw).data != [])
    ensures BlocksAgree(None, raws)
    decreases |raws|
  {
    if raws != [] {
      PlainBlocksAgree(raws[1..]);
    }
  }

  // ---------- A last line without its newline ----------

  /** The blocks of a text when a partial line follows it. */
  function WithTail(raws: seq<string>, rest: string): seq<string>
    requires raws != []
  {
    if |raws| == 1 then [raws[0] + rest] else [raws[0]] + WithTail(raws[1..], rest)
  }

  /** What the two readers yield of one block, its data parsed. */
  function LineYield<V>(parse: Parse<V>, carry: Option<string>, raw: string): seq<Yielded<V>> {
    ParseAll(parse, LineBlock(carry, raw))
  }

  function FrameYield<V>(parse: Parse<V>, raw: string): seq<Yielded<V>> {
    ParseAll(parse, FrameBlock(raw))
  }

  /** The line-based reader has yielded one event more. The frame-based one makes up for it exactly when
      it stays one event behind, repeating the same events, until its last block yields the one owed. */
  ghost predicate CatchesUp<V>(parse: Parse<V>, owed: Yielded<V>, carry: Option<string>, raws: seq<string>,
                               rest: string)
    requires raws != []
    decreases |raws|
  {
    var a, b, next := LineYield(parse, carry, raws[0]), FrameYield(parse, raws[0]), CarryAfter(carry, raws[0]);
    if |raws| == 1 then a == [] && FrameYield(parse, raws[0] + rest) == [owed]
    else if a == [] then CatchesUp(parse, owed, next, raws[1..], rest)
    else b == [owed] && CatchesUp(parse, a[0], next, raws[1..], rest)
  }

  /** Both read every block alike, the last one with the partial line for the frame-based reader only and
      its data compared after parsing; or that reader skips one block and catches up. */
  ghost predicate AgreeWithTail<V>(parse: Parse<V>, carry: Option<string>, raws: seq<string>, rest: string)
    requires raws != []
    decreases |raws|
  {
    var a, b, next := LineYield(parse, carry, raws[0]), FrameYield(parse, raws[0]), CarryAfter(carry, raws[0]);
    if |raws| == 1 then a == FrameYield(parse, raws[0] + rest)
    else if a != [] && b == [] then CatchesUp(parse, a[0], next, raws[1..], rest)
    else BlockAgrees(carry, raws[0]) && AgreeWithTail(parse, next, raws[1..], rest)
  }

  lemma {:induction false} CatchUp<V>(parse: Parse<V>, owed: Yielded<V>, carry: Option<string>, raws: seq<string>,
                                      rest: string)
    requires Falsy(carry) && raws != []
    ensures |EventsOf(Frames(WithTail(raws, rest)))| <= |LineBlocks(carry, raws)| + 1
    ensures [owed] + ParseAll(parse, LineBlocks(carry, raws)) == ParseAll(parse, EventsOf(Frames(WithTail(raws, rest))))
       <==> CatchesUp(parse, owed, carry, raws, rest)
    decreases |raws|
  {
    hide FieldsOf, LineBlock, FrameBlock, Frames, EventsOf, BlockAgrees, CarryAfter, ParseData;
    var a, b := LineBlock(carry, raws[0]), FrameBlock(raws[0]);
    var all := WithTail(raws, rest);
    BlockDiffers(carry, raws[0]);
    CarryIsFalsy(carry, raws[0]);
    FrameReaderSeesBlocks(all);
    if |raws| == 1 {
      LastTwo(carry, raws, rest);
      BlockDiffers(carry, raws[0] + rest);
      OneOwed(owed, LineYield(parse, carry, raws[0]), FrameYield(parse, raws[0] + rest));
    } else {
      var next, later := CarryAfter(carry, raws[0]), raws[1..];
      assert all[1..] == WithTail(later, rest);
      var as', bs' := LineBlocks(next, later), EventsOf(Frames(WithTail(later, rest)));
      if a == [] {
        CatchUp(parse, owed, next, later, rest);
        assert a + as' == as' && b + bs' == bs';
      } else {
        CatchUp(parse, LineYield(parse, carry, raws[0])[0], next, later, rest);
        ParseAllAppend(parse, a, as');
        ParseAllAppend(parse, b, bs');
        OneBehind(owed, LineYield(parse, carry, raws[0]), ParseAll(parse, as'), FrameYield(parse, raws[0]),
                  ParseAll(parse, bs'));
      }
    }
  }

  lemma OneOwed<T>(owed: T, a: seq<T>, b: seq<T>)
    requires |b| <= 1
    ensures [owed] + a == b <==> a == [] && b == [owed]
  {
    if a == [] {
      assert [owed] + a == [owed];
    } else {
      assert |[owed] + a| == 1 + |a|;
    }
  }

  /** One event owed and one more yielded: the next one read must be the one owed. */
  lemma OneBehind<T>(owed: T, now: seq<T>, as': seq<T>, b: seq<T>, bs': seq<T>)
    requires |now| == 1 && |b| <= 1 && |bs'| <= |as'| + 1
    ensures [owed] + (now + as') == b + bs' <==> b == [owed] && [now[0]] + as' == bs'
  {
    var l, f := [owed] + (now + as'), b + bs';
    assert now == [now[0]];
    assert l[1..] == now + as' && l[0] == owed;
    if b != [] {
      assert f[1..] == bs' && f[0] == b[0] && b == [b[0]];
    }
  }

  lemma SameHeads<T>(p: seq<T>, ps': seq<T>, q: seq<T>, qs': seq<T>)
    requires |p| == |q|
    ensures p + ps' == q + qs' <==> p == q && ps' == qs'
  {
    assert (p + ps')[|p|..] == ps' && (q + qs')[|p|..] == qs';
    assert (p + ps')[..|p|] == p && (q + qs')[..|p|] == q;
  }

  lemma LastTwo(carry: Option<string>, raws: seq<string>, rest: string)
    requires |raws| == 1
    ensures LineBlocks(carry, raws) == LineBlock(carry, raws[0])
    ensures EventsOf(Frames(WithTail(raws, rest))) == FrameBlock(raws[0] + rest)
  {
    hide LineBlock, FrameBlock, Frames, CarryAfter;
    var all := [raws[0] + rest];
    assert raws[1..] == [] && all[1..] == [];
    FrameReaderSeesBlocks(all);
    NoBlocks();
    assert LineBlock(carry, raws[0]) + [] == LineBlock(carry, raws[0]);
    assert FrameBlock(raws[0] + rest) + [] == FrameBlock(raws[0] + rest);
  }

  lemma {:induction false} TailBlockwise<V>(parse: Parse<V>, carry: Option<string>, raws: seq<string>, rest: string)
    requires Falsy(carry) && raws != []
    ensures ParseAll(parse, LineBlocks(carry, raws)) == ParseAll(parse, EventsOf(Frames(WithTail(raws, rest))))
       <==> AgreeWithTail(parse, carry, raws, rest)
    decreases |raws|
  {
    hide FieldsOf, LineBlock, FrameBlock, Frames, EventsOf, BlockAgrees, CarryAfter, CatchesUp, ParseData;
    var a, b := LineBlock(carry, raws[0]), FrameBlock(raws[0]);
    var all := WithTail(raws, rest);
    if |raws| == 1 {
      LastTwo(carry, raws, rest);
    } else {
      var next, later := CarryAfter(carry, raws[0]), raws[1..];
      BlockDiffers(carry, raws[0]);
      CarryIsFalsy(carry, raws[0]);
      FrameReaderSeesBlocks(all);
      assert all[1..] == WithTail(later, rest);
      var as', bs' := LineBlocks(next, later), EventsOf(Frames(WithTail(later, rest)));
      ParseAllAppend(parse, a, as');
      ParseAllAppend(parse, b, bs');
      if a != [] && b == [] {
        var p := ParseAll(parse, a);
        CatchUp(parse, p[0], next, later, rest);
        assert p == [p[0]] && b + bs' == bs';
      } else {
        TailBlockwise(parse, next, later, rest);
        SameHeads(ParseAll(parse, a), ParseAll(parse, as'), ParseAll(parse, b), ParseAll(parse, bs'));
        assert ParseAll(parse, a) == ParseAll(parse, b)
            <==> (a != [] ==> ParseAll(parse, a)[0] == ParseAll(parse, b)[0]);
      }
    }
  }

  lemma {:induction false} PrependTail(parts: seq<string>, last: string, rest: string)
    ensures WithTail(parts + [last], rest) == parts + [last + rest]
  {
    if parts != [] {
      assert (parts + [last])[1..] == parts[1..] + [last];
      PrependTail(parts[1..], last, rest);
    }
  }

  lemma BlocksWithTail(whole: string, rest: string)
    requires '\n' !in rest
    ensures Blocks(whole + rest) == WithTail(Blocks(whole), rest)
  {
    hide SplitBy, OccursAt, IndexOf;
    var now := SplitBy(whole, SEPARATOR);
    SplitAppend(whole, rest, SEPARATOR);
    NoSeparatorAfter(now.rest, rest);
    SplitNone(now.rest + rest, SEPARATOR);
    assert now.parts + [] == now.parts;
    PrependTail(now.parts, now.rest, rest);
  }

  lemma NoSeparatorAfter(s: string, rest: string)
    requires IndexOf(s, SEPARATOR).None? && '\n' !in rest
    ensures IndexOf(s + rest, SEPARATOR).None?
  {
    hide OccursAt;
    forall j: nat ensures !OccursAt(s + rest, SEPARATOR, j) {
      BlankLineAt(s + rest, j);
      BlankLineAt(s, j);
      assert !OccursAt(s, SEPARATOR, j);
    }
  }

  /** The exact class of streams free of carriage returns on which the two readers yield the same, a last
      line without its newline included, for every parse function: every text is its terminated lines
      and such a rest. */
  lemma ReadersAgreeWithTailIff<V>(parse: Parse<V>, chunks: seq<string>, chunks': seq<string>, whole: string,
                                   rest: string)
    requires Concat(chunks) == Concat(chunks') == whole + rest
    requires '\r' !in whole && Terminated(whole) && '\n' !in rest
    ensures ParseAll(parse, LineEvents(chunks)) == ParseAll(parse, EventsOf(FrameEvents(chunks')))
       <==> AgreeWithTail(parse, None, Blocks(whole), rest)
  {
    hide AgreeWithTail, LineBlocks, ParseAll;
    EventsWithTail(chunks, chunks', whole, rest);
    TailBlockwise(parse, None, Blocks(whole), rest);
  }

  lemma EventsWithTail(chunks: seq<string>, chunks': seq<string>, whole: string, rest: string)
    requires Concat(chunks) == Concat(chunks') == whole + rest
    requires '\r' !in whole && Terminated(whole) && '\n' !in rest
    ensures LineEvents(chunks) == LineBlocks(None, Blocks(whole))
    ensures FrameEvents(chunks') == Frames(WithTail(Blocks(whole), rest))
  {
    hide SplitBy, OccursAt, IndexOf, LineBlocks, FlushPending, ReadLines;
    LinesBeforeTail(whole, rest);
    NoNewline("");
    NoSeparator("");
    assert "" + (whole + rest) == whole + rest;
    RunLinesIsOneFeed(LineState("", NOTHING_PENDING), chunks);
    RunFramesIsOneSplit("", chunks');
    var split := SplitBy(whole + rest, SEPARATOR);
    FramesAppend(split.parts, [split.rest]);
    BlocksWithTail(whole, rest);
    TextIsBlocks(None, whole);
  }

  /** `JSON.parse` without a single valid text. */
  function NeverParses(text: string): Option<string> {
    None
  }

  lemma UnparsedIsRaw(a: seq<Event>, b: seq<Event>)
    ensures ParseAll(NeverParses, a) == ParseAll(NeverParses, b) <==> a == b
  {
    var p, q := ParseAll(NeverParses, a), ParseAll(NeverParses, b);
    if p == q {
      forall i | 0 <= i < |a| ensures a[i] == b[i] {
        assert p[i] == Yielded(a[i].event, Raw(a[i].data)) && q[i] == Yielded(b[i].event, Raw(b[i].data));
      }
    }
  }

  /** The same for the data texts themselves. */
  lemma TextsAgreeWithTailIff(chunks: seq<string>, chunks': seq<string>, whole: string, rest: string)
    requires Concat(chunks) == Concat(chunks') == whole + rest
    requires '\r' !in whole && Terminated(whole) && '\n' !in rest
    ensures LineEvents(chunks) == EventsOf(FrameEvents(chunks'))
        <==> AgreeWithTail(NeverParses, None, Blocks(whole), rest)
  {
    ReadersAgreeWithTailIff(NeverParses, chunks, chunks', whole, rest);
    UnparsedIsRaw(LineEvents(chunks), EventsOf(FrameEvents(chunks')));
  }

  /** A difference that parsing hides: the data texts of the readers are "1" and "1" with a newline, which
      are the same number. */
  lemma ParsingHidesTail<V>(parse: Parse<V>, line: string)
    requires line == "data:1" && parse("1").Some? && parse("1" + "\n") == parse("1")
    ensures LineEvents([line + "\n" + "data"]) == [Event("message", "1")]
    ensures EventsOf(FrameEvents([line + "\n" + "data"])) == [Event("message", "1" + "\n")]
    ensures ParseAll(parse, LineEvents([line + "\n" + "data"]))
        == ParseAll(parse, EventsOf(FrameEvents([line + "\n" + "data"])))
  {
    hide LineEvents, FrameEvents, EventsOf;
    DataOneLine(line, "data");
    DataOneFrame(line, "data");
  }

  lemma DataOneLine(line: string, rest: string)
    requires line == "data:1" && rest == "data"
    ensures LineEvents([line + "\n" + rest]) == [Event("message", "1")]
  {
    hide SplitBy, OccursAt, IndexOf, ReadLines, ParseField;
    DataFields(line);
    assert Unlines([line]) == line + "\n" by { UnlinesOne(line); }
    LineEventsOf([line], rest);
    OneDataLine(line, "1");
    var none: seq<Event> := [];
    assert none + [Event("message", "1")] == [Event("message", "1")];
  }

  lemma UnlinesOne(line: string)
    ensures Unlines([line]) == line + "\n"
  {
    assert [line][1..] == [];
    assert line + "\n" + "" == line + "\n";
  }

  lemma DataOneFrame(line: string, rest: string)
    requires line == "data:1" && rest == "data"
    ensures EventsOf(FrameEvents([line + "\n" + rest])) == [Event("message", "1" + "\n")]
  {
    hide FrameEvents, EventsOf, FrameBlock, IndexOf;
    NoTwoNewlines(line, rest);
    OneFrame(line + "\n" + rest);
    TwoDataLines(line, rest);
  }

  lemma DataFields(line: string)
    requires line == "data:1"
    ensures ParseField(line) == ("data", "1") && ParseField("data") == ("data", "")
  {
    assert line[4..5] == ":";
    forall j: nat | j < 4 ensures !OccursAt(line, ":", j) { assert line[j..j + 1] == [line[j]]; }
    IndexOfIs(line, ":", 4);
    assert line[..4] == "data" && line[5..] == "1";
    FieldOfPlainLine("data");
  }

  lemma OneDataLine(line: string, value: string)
    requires ParseField(line) == ("data", value) && line != "" && line[0] != ':' && StripCr(line) == line
    ensures ReadLines(NOTHING_PENDING, [line]) == ([], Pending(None, [value]))
  {
    hide ParseField;
    ReadLinesOne(NOTHING_PENDING, line);
    assert NOTHING_PENDING.data + [value] == [value];
  }

  lemma NoTwoNewlines(line: string, rest: string)
    requires '\n' !in line && '\n' !in rest && rest != ""
    ensures IndexOf(line + "\n" + rest, SEPARATOR).None?
  {
    var s := line + "\n" + rest;
    forall j: nat ensures !OccursAt(s, SEPARATOR, j) {
      BlankLineAt(s, j);
      if j + 1 < |s| {
        if j < |line| { assert s[j] == line[j] && line[j] in line; }
        else { assert s[j + 1] == rest[j - |line|] && rest[j - |line|] in rest; }
      }
    }
  }

  lemma TwoDataLines(line: string, rest: string)
    requires line == "data:1" && rest == "data"
    ensures FrameBlock(line + "\n" + rest) == [Event("message", "1" + "\n")]
  {
    hide SplitBy, OccursAt, IndexOf, ParseField;
    DataFields(line);
    NoNewline(rest);
    SplitTerminated(line, rest);
    NoNewline(line);
    SplitNone(line, "\n");
    SplitNone(rest, "\n");
    assert LinesOf(line) == [line] by { assert [] + [line] == [line]; }
    assert LinesOf(line + "\n" + rest) == [line, rest] by { assert [line] + [] + [rest] == [line, rest]; }
    var f := NO_FIELDS.(data := ["1"]);
    assert NO_FIELDS.data + ["1"] == ["1"] && ["1"] + [""] == ["1", ""];
    assert [line, rest][1..] == [rest] && [rest][1..] == [];
    assert FrameLine(NO_FIELDS, line) == f && FrameLine(f, rest) == f.(data := ["1", ""]);
    assert FrameLines(f, [rest]) == FrameLines(f.(data := ["1", ""]), []);
    assert ["1", ""][1..] == [""] && Join(["1", ""]) == "1" + "\n" + Join([""]);
    assert "1" + "\n" + Join([""]) == "1" + "\n";
    assert FrameLines(NO_FIELDS, [line, rest]) == FrameFields("message", None, ["1", ""]);
    assert (line + "\n" + rest)[0] == 'd';
  }

  lemma LinesBeforeTail(whole: string, rest: string)
    requires Terminated(whole) && '\n' !in rest
    ensures SplitBy(whole + rest, "\n").parts == SplitBy(whole, "\n").parts
  {
    hide SplitBy, OccursAt, IndexOf;
    TerminatedRest(whole);
    SplitAppend(whole, rest, "\n");
    NoNewline(rest);
    SplitNone(rest, "\n");
    assert "" + rest == rest;
    assert SplitBy(whole, "\n").parts + [] == SplitBy(whole, "\n").parts;
  }

  // ---------- Why each hypothesis is there ----------

  lemma LineEventsOf(lines: seq<string>, rest: string)
    requires (forall l | l in lines :: '\n' !in l) && '\n' !in rest
    ensures var (events, p) := ReadLines(NOTHING_PENDING, lines);
            LineEvents([Unlines(lines) + rest]) == events + FlushPending(p).0
  {
    hide SplitBy, OccursAt;
    var text := Unlines(lines) + rest;
    NoNewline("");
    NoNewline(rest);
    SplitUnlines(lines);
    SplitAppend(Unlines(lines), rest, "\n");
    SplitNone(rest, "\n");
    assert "" + rest == rest && lines + [] == lines;
    assert Concat([text]) == text + "" == text;
    assert "" + text == text;
    RunLinesIsOneFeed(LineState("", NOTHING_PENDING), [text]);
  }

  lemma FieldOfPlainLine(line: string)
    requires ':' !in line
    ensures ParseField(line) == (line, "")
  {
    forall i: nat ensures !OccursAt(line, ":", i) {
      if i < |line| { assert line[i..i + 1] == [line[i]]; }
    }
  }

  lemma DataLineRead(line: string)
    requires StripCr(line) == "data"
    ensures ReadLines(NOTHING_PENDING, [line]) == ([], Pending(None, [""]))
    ensures ReadLines(NOTHING_PENDING, [line, ""]) == ([Event("message", "")], NOTHING_PENDING)
  {
    FieldOfPlainLine("data");
    assert NOTHING_PENDING.data + [""] == [""];
    assert ApplyField(NOTHING_PENDING, "data") == Pending(None, [""]);
    ReadLinesOne(NOTHING_PENDING, line);
    ReadLinesSnoc(NOTHING_PENDING, [line], "");
    assert Join([""]) == "";
    var none: seq<Event> := [];
    assert none + [Event("message", "")] == [Event("message", "")];
    assert [line] + [""] == [line, ""];
  }

  /** A comment as the first line of a block: only the line-based reader sees the data. */
  lemma CommentFirstDisagrees(text: string)
    requires text == ":" + "\n" + ("data" + "\n" + ("\n" + ""))
    ensures LineEvents([text]) == [Event("message", "")]
    ensures EventsOf(FrameEvents([text])) == []
  {
    CommentFirstLines(text);
    CommentFirstFrames(text);
  }

  lemma CommentFirstText()
    ensures Unlines([":", "data", ""]) == ":" + "\n" + ("data" + "\n" + ("\n" + ""))
  {
    assert Unlines([""]) == "\n" + "";
    assert Unlines(["data", ""]) == "data" + "\n" + Unlines([""]) by { assert ["data", ""][1..] == [""]; }
    assert [":", "data", ""][1..] == ["data", ""];
  }

  lemma CommentFirstLines(text: string)
    requires text == ":" + "\n" + ("data" + "\n" + ("\n" + ""))
    ensures LineEvents([text]) == [Event("message", "")]
  {
    hide SplitBy, OccursAt, IndexOf, ApplyField, ReadLines;
    CommentFirstText();
    assert text + "" == text;
    LineEventsOf([":", "data", ""], "");
    DataLineRead("data");
    ReadLinesOne(NOTHING_PENDING, ":");
    ReadLinesAppend(NOTHING_PENDING, [":"], ["data", ""]);
    assert [":"] + ["data", ""] == [":", "data", ""];
  }

  lemma CommentFirstFrames(text: string)
    requires text == ":" + "\n" + ("data" + "\n" + ("\n" + ""))
    ensures EventsOf(FrameEvents([text])) == []
  {
    hide SplitBy, IndexOf;
    assert text[6..8] == SEPARATOR;
    forall j: nat | j < 6 ensures !OccursAt(text, SEPARATOR, j) {
      assert text[j..j + 2] == [text[j], text[j + 1]];
    }
    IndexOfIs(text, SEPARATOR, 6);
    SplitSome(text, SEPARATOR, 6);
    assert text[8..] == "";
    assert IndexOf("", SEPARATOR).None? by { assert forall j: nat :: !OccursAt("", SEPARATOR, j); }
    SplitNone("", SEPARATOR);
    assert "" + text == text && Concat([text]) == text + "" == text;
    RunFramesIsOneSplit("", [text]);
    var raw := text[..6];
    assert [raw] + [] == [raw];
    assert FrameOf(raw).None?;
    FrameReaderSeesBlocks([raw]);
    FrameReaderSeesBlocks([""]);
    FramesAppend([raw], [""]);
  }

  /** A last line without its newline: only the frame-based reader sees it. */
  lemma UnterminatedDisagrees()
    ensures LineEvents(["data"]) == []
    ensures EventsOf(FrameEvents(["data"])) == [Event("message", "")]
  {
    hide SplitBy, OccursAt, IndexOf;
    assert Unlines([]) + "data" == "data";
    LineEventsOf([], "data");
    FieldOfPlainLine("data");
    NoNewline("data");
    SplitNone("data", "\n");
    assert IndexOf("data", SEPARATOR).None? by { NoSeparator("data"); }
    OneFrame("data");
    assert LinesOf("data") == ["data"];
    assert FrameLines(NO_FIELDS, ["data"]).data == [""];
  }

  /** Carriage returns before the newlines: only the line-based reader strips them. */
  lemma CarriageReturnDisagrees(line: string)
    requires line == "data\r"
    ensures LineEvents([line + "\n"]) == [Event("message", "")]
    ensures EventsOf(FrameEvents([line + "\n"])) == []
  {
    hide SplitBy, OccursAt, IndexOf;
    assert Unlines([line]) + "" == line + "\n" by { assert Unlines([line]) == line + "\n" + ""; }
    LineEventsOf([line], "");
    DataLineRead(line);
    NoDataInCrFrame(line);
  }

  lemma NoDataInCrFrame(line: string)
    requires line == "data\r"
    ensures EventsOf(FrameEvents([line + "\n"])) == []
  {
    hide SplitBy;
    FieldOfPlainLine(line);
    SplitTerminated(line, "");
    NoNewline(line);
    NoNewline("");
    SplitNone(line, "\n");
    SplitNone("", "\n");
    assert line + "\n" + "" == line + "\n";
    assert LinesOf(line + "\n") == [line, ""];
    assert [line, ""][1..] == [""];
    assert line[4] == '\r' && |line| == 5;
    var f := FrameLines(NO_FIELDS, [""]);
    assert FrameLines(NO_FIELDS, [line, ""]) == f == NO_FIELDS;
    forall j: nat ensures !OccursAt(line + "\n", SEPARATOR, j) {
      if j + 2 <= 6 { assert (line + "\n")[j..j + 2][0] == line[j]; }
    }
    OneFrame(line + "\n");
  }

  lemma NoSeparator(line: string)
    requires '\n' !in line
    ensures IndexOf(line, SEPARATOR).None?
  {
    forall j: nat ensures !OccursAt(line, SEPARATOR, j) {
      if j + 2 <= |line| { assert line[j..j + 2][0] == line[j]; }
    }
  }

  lemma OneFrame(raw: string)
    requires IndexOf(raw, SEPARATOR).None?
    ensures EventsOf(FrameEvents([raw])) == FrameBlock(raw)
  {
    hide SplitBy;
    assert IndexOf("", SEPARATOR).None? by { assert forall j: nat :: !OccursAt("", SEPARATOR, j); }
    assert "" + raw == raw && Concat([raw]) == raw + "" == raw;
    RunFramesIsOneSplit("", [raw]);
    SplitNone(raw, SEPARATOR);
    assert Frames([]) + Frames([raw]) == Frames([raw]);
    FrameReaderSeesBlocks([raw]);
  }
}
