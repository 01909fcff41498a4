/** From the events a job posted, over the stream route's frames, to what the clients read: the second
    half of the way a chat answer takes. */
module ChatWire {
  import opened Options
  import opened Messages
  import opened AsyncQueues
  import opened Engine
  import opened ChatExecutor
  import opened ChatClient
  import opened Sse
  import opened SseAgreement
  import opened SseWire
  import Decimal
  import Demultiplexing
  import EndToEnd
  import FlatJson
  import Protocol
  import Text

  /** The properties of the data an event carries: raw text, which is what is left when parsing fails,
      has none. */
  function Properties(data: string): Message {
    match FlatJson.Parse(data) case Some(m) => m case None => []
  }

  function ClientEvents(events: seq<Event>): seq<JobEvent> {
    if events == [] then []
    else [JobEvent(Some(Str(events[0].event)), Properties(events[0].data))] + ClientEvents(events[1..])
  }

  /** The items are the frames of these job events, in order, with any heartbeats between them. */
  predicate Serves(items: seq<Item>, events: seq<JobEvent>)
    decreases |items|
  {
    if items == [] then events == []
    else match items[0]
      case Ping => Serves(items[1..], events)
      case Sent(_, eventType, json) =>
        events != [] && events[0].kind == Some(Str(eventType)) && json == FlatJson.Stringify(events[0].data)
        && Serves(items[1..], events[1..])
  }

  /** An event whose type is one line of text and whose data is an object. */
  predicate Tidy(ev: JobEvent) {
    ev.kind.Some? && ev.kind.value.Str? && OneLine(ev.kind.value.s) && DistinctKeys(ev.data)
  }

  lemma ObjectIsOneLine(m: Message)
    ensures OneLine(FlatJson.Stringify(m))
  {
    FlatJson.StringifiedIsPrintable(m);
  }

  /** What is served can be sent, and reads back as the events it was made of. */
  lemma {:induction false} ServedReadsBack(items: seq<Item>, events: seq<JobEvent>)
    requires Serves(items, events) && forall ev | ev in events :: Tidy(ev)
    ensures forall item | item in items :: Sendable(item)
    ensures ClientEvents(EventsOf(FramesSent(items))) == events
    decreases |items|
  {
    hide FlatJson.Parse, FlatJson.Stringify, DistinctKeys, OneLine;
    if items != [] {
      var later := FramesSent(items[1..]);
      match items[0]
      case Ping =>
        ServedReadsBack(items[1..], events);
        assert [] + later == later;
      case Sent(id, eventType, json) =>
        var ev := events[0];
        assert ev in events;
        ObjectIsOneLine(ev.data);
        ServedReadsBack(items[1..], events[1..]);
        ObjectReadsBack(ev.data);
        var frame := Frame(Event(eventType, json), if id.Some? then Some(Decimal.Print(id.value)) else None);
        assert FramesSent(items) == [frame] + later;
        assert EventsOf([frame] + later) == [frame.event] + EventsOf(later)
            by { assert ([frame] + later)[1..] == later; }
        assert ([frame.event] + EventsOf(later))[1..] == EventsOf(later);
        assert [ev] + events[1..] == events;
    }
  }

  lemma ObjectReadsBack(m: Message)
    requires DistinctKeys(m)
    ensures Properties(FlatJson.Stringify(m)) == m
  {
    hide FlatJson.Parse, FlatJson.Stringify, DistinctKeys;
    FlatJson.CodecRoundTrips(m);
  }

  /** A message with a one-line type and distinct property names. */
  predicate TidyMessage(m: Message) {
    DistinctKeys(m) && match Get(m, "type") case Some(Str(t)) => OneLine(t) case _ => false
  }

  lemma TranslationIsTidy(ctx: Context, m: Message, acc: string, iso: string)
    requires TidyMessage(m)
    ensures Tidy(Translate(ctx, m, acc, iso))
  {
    hide Get, Or, Accumulate;
  }

  lemma {:induction false} TranslationsAreTidy(ctx: Context, world: World, k: nat, acc: string, msgs: seq<Message>)
    requires forall m | m in msgs :: TidyMessage(m)
    ensures forall ev | ev in Translations(ctx, world, k, acc, msgs) :: Tidy(ev)
    decreases |msgs|
  {
    hide Translate, Tidy, TidyMessage, Accumulate, HasType;
    if msgs != [] {
      assert msgs[0] in msgs;
      TranslationIsTidy(ctx, msgs[0], acc, world(k).iso);
      TranslationsAreTidy(ctx, world, k + 1, Accumulate(acc, msgs[0]), msgs[1..]);
    }
  }

  /** The stream of a job: the job row, then its events. */
  function Stream(jobJson: string, items: seq<Item>): seq<Item> {
    [Sent(None, "job", jobJson)] + items
  }

  /** Both clients read back exactly the events of the job, after the job row, however the response was
      cut and wherever heartbeats fell. */
  lemma ClientsReadBack(jobJson: string, items: seq<Item>, events: seq<JobEvent>, chunks: seq<string>)
    requires OneLine(jobJson) && Serves(items, events) && forall ev | ev in events :: Tidy(ev)
    requires Text.Concat(chunks) == Wire(Stream(jobJson, items))
    ensures var read := [JobEvent(Some(Str("job")), Properties(jobJson))] + events;
            && ClientEvents(LineEvents(chunks)) == read
            && ClientEvents(EventsOf(FrameEvents(chunks))) == read
  {
    hide FlatJson.Parse, Serves, Tidy;
    ServedReadsBack(items, events);
    var all := Stream(jobJson, items);
    assert all[1..] == items && Sendable(all[0]);
    forall item | item in all ensures Sendable(item) { if item != all[0] { assert item in items; } }
    LineReaderReadsBack(all, chunks);
    FrameReaderReadsBack(all, chunks);
    var job := Frame(Event("job", jobJson), None);
    assert FramesSent(all) == [job] + FramesSent(items);
    assert ([job] + FramesSent(items))[1..] == FramesSent(items);
    var sent := EventsOf(FramesSent(items));
    assert EventsOf(FramesSent(all)) == [job.event] + sent;
    assert ([job.event] + sent)[1..] == sent;
  }

  /** From a generation's messages to the caller of `sendChat`: for an answer that ends with `done`,
      the text collected is the concatenation of the streamed tokens. The job id and the provider are
      those of the job row in the stream, whatever the request that created the job had returned. */
  lemma AnswerReachesCaller(ctx: Context, world: World, own: seq<Message>, init: Message, jobJson: string,
                            items: seq<Item>, chunks: seq<string>)
    requires own != [] && HasType(own[|own| - 1], "done") && EndToEnd.OnlyLastTerminal(own)
    requires forall m | m in own :: TidyMessage(m)
    requires OneLine(jobJson) && Serves(items, Translations(ctx, world, 0, "", own))
    requires Text.Concat(chunks) == Wire(Stream(jobJson, items))
    ensures var r := ChatClient.Collect([JobCreated(init)] + ClientEvents(EventsOf(FrameEvents(chunks))), NO_ANSWER);
            && r.Answered? && r.answer.text == TokenText(own)
            && ((forall m | m in own :: !HasType(m, "job")) ==>
                  r.answer.jobId == Get(Properties(jobJson), "jobId")
                      && r.answer.provider == Get(Properties(jobJson), "provider"))
  {
    hide Translations, TidyMessage, Tidy, Serves, Properties, HasType, TokenText, Stream, Wire, Get, JobCreated;
    var events := Translations(ctx, world, 0, "", own);
    TranslationsAreTidy(ctx, world, 0, "", own);
    ClientsReadBack(jobJson, items, events, chunks);
    var row := Properties(jobJson);
    var a := Answer("", Get(row, "jobId"), Get(row, "provider"), None);
    ClientGetsStreamedText(ctx, world, 0, "", own, a);
    RowReplacesCreated(init, row, events);
    assert "" + TokenText(own) == TokenText(own);
  }

  lemma RowReplacesCreated(init: Message, row: Message, events: seq<JobEvent>)
    ensures ChatClient.Collect([JobCreated(init)] + ([JobEvent(Some(Str("job")), row)] + events), NO_ANSWER)
         == ChatClient.Collect(events, Answer("", Get(row, "jobId"), Get(row, "provider"), None))
  {
    hide Get;
    var later := [JobEvent(Some(Str("job")), row)] + events;
    assert later[1..] == events;
    assert ([JobCreated(init)] + later)[1..] == later;
  }

  /** The whole way. Engine output cut anyhow and mixed with other generations, exits after the answer
      included; the job's posts stored and served; the response cut anyhow: once the job has read its
      stream to the end, whoever called `sendChat` holds exactly the tokens the engine streamed for this
      generation. */
  lemma StdoutReachesCaller(json: Protocol.Json, before: seq<Demultiplexing.Event>, id: string,
                            after: seq<Demultiplexing.Event>,
                            ctx: Context, world: World, start: int, init: Message, jobJson: string, items: seq<Item>,
                                chunks: seq<string>)
    requires !Demultiplexing.RunEvents(json, STARTED, before).closed
    requires EndToEnd.ViewOf(json, before, id, after).ending.Ended?
    requires var own := EndToEnd.OwnMessages(json, before, id, after);
             own != [] && HasType(own[|own| - 1], "done") && forall m | m in own :: TidyMessage(m)
    requires forall i: nat :: world(i).ok
    requires OneLine(jobJson) && Text.Concat(chunks) == Wire(Stream(jobJson, items))
    ensures var q, own := EndToEnd.StreamAfter(json, before, id, after), EndToEnd.OwnMessages(json, before, id, after);
            && q.Some?
            && (|own| < q.value.tickets ==>
                  var posts := Execute(ctx, world, 0, Buffer([], start, []), "", 0, EndToEnd.ReadBack(q.value, 0),
                                       None).0.posts;
                  var r := ChatClient.Collect([JobCreated(init)] + ClientEvents(EventsOf(FrameEvents(chunks))),
                                              NO_ANSWER);
                  Serves(items, Delivered(posts)) ==> r.Answered? && r.answer.text == TokenText(own))
  {
    hide Demultiplexing.RunEvents, Protocol.MessagesIn, Execute, Translations, TidyMessage, Serves, ClientEvents,
         Stream, Wire, EndToEnd.Own, EndToEnd.ReadBack, EndToEnd.ViewOf, EndToEnd.StreamAfter, ChatClient.Collect,
         TokenText, HasType, JobCreated;
    EndToEnd.PipelineIsFaithful(json, before, id, after, ctx, world, start);
    var own := EndToEnd.OwnMessages(json, before, id, after);
    EndToEnd.OwnShape(id, Protocol.MessagesIn(json,
                                              Demultiplexing.RunEvents(json, STARTED, before).buf
                                                  + Demultiplexing.StdoutText(after)));
    if Serves(items, Translations(ctx, world, 0, "", own)) {
      AnswerReachesCaller(ctx, world, own, init, jobJson, items, chunks);
    }
  }

  /** A generation that ends with an engine error: `sendChat` throws the engine's message. */
  lemma ErrorReachesCaller(ctx: Context, world: World, own: seq<Message>, init: Message, jobJson: string,
                           items: seq<Item>, chunks: seq<string>)
    requires own != [] && HasType(own[|own| - 1], "error") && EndToEnd.OnlyLastTerminal(own)
    requires forall m | m in own :: TidyMessage(m)
    requires OneLine(jobJson) && Serves(items, Translations(ctx, world, 0, "", own))
    requires Text.Concat(chunks) == Wire(Stream(jobJson, items))
    ensures ChatClient.Collect([JobCreated(init)] + ClientEvents(EventsOf(FrameEvents(chunks))), NO_ANSWER)
         == ChatClient.Failed(Or(Get(own[|own| - 1], "message"), Str("engine error")))
  {
    hide Translations, TidyMessage, Tidy, Serves, Properties, HasType, Stream, Wire, Get, Or, JobCreated;
    var events := Translations(ctx, world, 0, "", own);
    TranslationsAreTidy(ctx, world, 0, "", own);
    TranslationsOneByOne(ctx, world, 0, "", own);
    var init', last := events[..|events| - 1], events[|events| - 1];
    assert events == init' + [last];
    EventsReachCaller(init', last, init, jobJson, items, chunks);
  }

  /** A stream whose events hold no `done` or `error` before the last, which is an error. */
  lemma EventsReachCaller(events: seq<JobEvent>, last: JobEvent, init: Message, jobJson: string, items: seq<Item>,
                          chunks: seq<string>)
    requires forall e | e in events :: !IsKind(e, "done") && !IsKind(e, "error") && Tidy(e)
    requires IsKind(last, "error") && Tidy(last)
    requires OneLine(jobJson) && Serves(items, events + [last]) && Text.Concat(chunks) == Wire(Stream(jobJson, items))
    ensures ChatClient.Collect([JobCreated(init)] + ClientEvents(EventsOf(FrameEvents(chunks))), NO_ANSWER)
         == ChatClient.Failed(Or(Get(last.data, "message"), Str("chat error")))
  {
    hide Tidy, Serves, Properties, Stream, Wire, Get, Or, JobCreated, IsKind, ChatClient.Collect;
    ClientsReadBack(jobJson, items, events + [last], chunks);
    var row := Properties(jobJson);
    RowReplacesCreated(init, row, events + [last]);
    CollectThrows(events, last, Answer("", Get(row, "jobId"), Get(row, "provider"), None));
  }

  lemma FailureIsTidy(message: string)
    ensures Tidy(JobFailed(message)) && IsKind(JobFailed(message), "error")
    ensures Or(Get(JobFailed(message).data, "message"), Str("chat error")) == Str(message)
  {
  }

  /** A job that threw before its answer ended: `sendChat` throws what the job threw. */
  lemma FailureReachesCaller(ctx: Context, world: World, msgs: seq<Message>, delivered: seq<JobEvent>, message: string,
                             init: Message, jobJson: string, items: seq<Item>, chunks: seq<string>)
    requires forall m | m in msgs :: TidyMessage(m) && !Terminal(m)
    requires delivered <= Translations(ctx, world, 0, "", msgs)
    requires OneLine(jobJson) && Serves(items, delivered + [JobFailed(message)])
        && Text.Concat(chunks) == Wire(Stream(jobJson, items))
    ensures ChatClient.Collect([JobCreated(init)] + ClientEvents(EventsOf(FrameEvents(chunks))), NO_ANSWER)
        == ChatClient.Failed(Str(message))
  {
    hide Translations, TidyMessage, Tidy, Serves, Stream, Wire, HasType, IsKind, JobCreated, ChatClient.Collect,
         JobFailed, Get, Or;
    var events := Translations(ctx, world, 0, "", msgs);
    assert forall m | m in msgs :: !HasType(m, "done") && !HasType(m, "error");
    TranslationsAreTidy(ctx, world, 0, "", msgs);
    TranslationsOneByOne(ctx, world, 0, "", msgs);
    forall e | e in delivered ensures !IsKind(e, "done") && !IsKind(e, "error") && Tidy(e) {
      var i :| 0 <= i < |delivered| && delivered[i] == e;
      assert events[i] == e && msgs[i] in msgs;
    }
    FailureIsTidy(message);
    EventsReachCaller(delivered, JobFailed(message), init, jobJson, items, chunks);
  }

  /** The whole way for the answers that do not end with `done`: what the engine's error says, or what
      the exit says once the daemon has posted it, is what `sendChat` throws. */
  lemma StdoutFailureReachesCaller(json: Protocol.Json, before: seq<Demultiplexing.Event>, id: string,
                                   after: seq<Demultiplexing.Event>,
                                   ctx: Context, world: World, start: int, init: Message, jobJson: string,
                                       items: seq<Item>, chunks: seq<string>)
    requires !Demultiplexing.RunEvents(json, STARTED, before).closed
    requires forall i: nat :: world(i).ok
    requires OneLine(jobJson) && Text.Concat(chunks) == Wire(Stream(jobJson, items))
    ensures var q, v, own := EndToEnd.StreamAfter(json, before, id, after), EndToEnd.ViewOf(json, before, id, after),
                             EndToEnd.OwnMessages(json, before, id, after);
            var r := ChatClient.Collect([JobCreated(init)] + ClientEvents(EventsOf(FrameEvents(chunks))), NO_ANSWER);
            && q.Some?
            && (v.ending.Ended? && own != [] && HasType(own[|own| - 1], "error")
                 && (forall m | m in own :: TidyMessage(m)) ==>
                  |own| <= q.value.tickets ==>
                    Serves(items, Delivered(JobPosts(ctx, world, start, q.value, None))) ==>
                      r == ChatClient.Failed(Or(Get(own[|own| - 1], "message"), Str("engine error"))))
            && (v.ending.Failed? && (forall m | m in v.items :: TidyMessage(m)) ==>
                  |v.items| < q.value.tickets ==>
                    Serves(items, Delivered(JobPosts(ctx, world, start, q.value, Some(v.ending.error)))
                        + [JobFailed(v.ending.error)]) ==>
                      r == ChatClient.Failed(Str(v.ending.error)))
  {
    hide Demultiplexing.RunEvents, Protocol.MessagesIn, Execute, Translations, TidyMessage, Serves, ClientEvents,
         Stream, Wire, EndToEnd.Own, EndToEnd.ReadBack, EndToEnd.ViewOf, EndToEnd.StreamAfter, ChatClient.Collect,
         HasType, JobCreated, JobFailed, Waiting, Demultiplexing.Shows, Queue.Valid, Delivered, Get, Or, Terminal;
    EndToEnd.PipelineFailsFaithfully(json, before, id, after, ctx, world, start);
    EndToEnd.StreamFromText(json, before, id, after);
    var q, v, own := EndToEnd.StreamAfter(json, before, id, after).value, EndToEnd.ViewOf(json, before, id, after),
                     EndToEnd.OwnMessages(json, before, id, after);
    if v.ending.Ended? {
      EndToEnd.OwnShape(id, Protocol.MessagesIn(json,
                                                Demultiplexing.RunEvents(json, STARTED, before).buf
                                                    + Demultiplexing.StdoutText(after)));
      ErrorIsNotDone(own[|own| - 1]);
      if HasType(own[|own| - 1], "error") && |own| <= q.tickets && (forall m | m in own :: TidyMessage(m))
         && Serves(items, Translations(ctx, world, 0, "", own)) {
        ErrorReachesCaller(ctx, world, own, init, jobJson, items, chunks);
      }
    } else if v.ending.Failed? && |v.items| < q.tickets && (forall m | m in v.items :: TidyMessage(m)) {
      var delivered := Delivered(JobPosts(ctx, world, start, q, Some(v.ending.error)));
      if Serves(items, delivered + [JobFailed(v.ending.error)]) {
        FailureReachesCaller(ctx, world, v.items, delivered, v.ending.error, init, jobJson, items, chunks);
      }
    }
  }

  lemma ErrorIsNotDone(m: Message)
    ensures HasType(m, "error") ==> !HasType(m, "done")
  {
  }

  /** The posts of a job that has read this stream. */
  function JobPosts(ctx: Context, world: World, start: int, q: EventQueue, failure: Option<string>): seq<Post> {
    Execute(ctx, world, 0, Buffer([], start, []), "", 0, EndToEnd.ReadBack(q, 0), failure).0.posts
  }

  /** A job of the table `jobs`, whose key is `id`: `sendChat` has lost the job id and the provider its own
      first event had told it. */
  lemma JobIdIsLost(chunks: seq<string>)
    requires Text.Concat(chunks)
        == Wire(Stream(FlatJson.Stringify(ExampleRow()), [Sent(Some(1), "done", FlatJson.Stringify([]))]))
    ensures Get(JobCreated(ExampleInit()).data, "jobId") == Some(Str("j-1"))
    ensures Get(JobCreated(ExampleInit()).data, "provider") == Some(Str("p-1"))
    ensures ChatClient.Collect([JobCreated(ExampleInit())] + ClientEvents(EventsOf(FrameEvents(chunks))), NO_ANSWER)
         == ChatClient.Answered(Answer("", None, None, None))
  {
    hide FlatJson.Parse, FlatJson.Stringify, Stream, Wire, JobCreated, Properties, Get, ExampleInit, ExampleRow,
         DistinctKeys, OneLine, Serves, Tidy, ChatClient.Collect, IsKind, ClientEvents;
    var done, json := JobEvent(Some(Str("done")), []), FlatJson.Stringify([]);
    ExampleLookups();
    ExampleIsServed(done, json);
    ObjectReadsBack(ExampleRow());
    ObjectIsOneLine(ExampleRow());
    ClientsReadBack(FlatJson.Stringify(ExampleRow()), [Sent(Some(1), "done", json)], [done], chunks);
    RowReplacesCreated(ExampleInit(), ExampleRow(), [done]);
    CollectStops([done], Answer("", None, None, None));
  }

  lemma ExampleIsServed(done: JobEvent, json: string)
    requires done == JobEvent(Some(Str("done")), []) && json == FlatJson.Stringify([])
    ensures DistinctKeys(ExampleRow()) && Tidy(done) && Serves([Sent(Some(1), "done", json)], [done])
    ensures IsKind(done, "done") && !IsKind(done, "error")
  {
    hide FlatJson.Stringify;
    var items: seq<Item> := [Sent(Some(1), "done", json)];
    assert items[1..] == [] && [done][1..] == [];
  }

  function ExampleInit(): Message {
    [("jobId", Str("j-1")), ("provider", Str("p-1")), ("status", Str("assigned"))]
  }

  function ExampleRow(): Message {
    [("id", Str("j-1")), ("type", Str("chat")), ("status", Str("assigned")), ("provider_id", Str("p-1"))]
  }

  lemma ExampleLookups()
    ensures Get(JobCreated(ExampleInit()).data, "jobId") == Some(Str("j-1"))
    ensures Get(JobCreated(ExampleInit()).data, "provider") == Some(Str("p-1"))
    ensures Get(ExampleRow(), "jobId") == None && Get(ExampleRow(), "provider") == None
  {
    var init, row := ExampleInit(), ExampleRow();
    assert init[1..][0] == ("provider", Str("p-1")) && init[1..][1..][0] == ("status", Str("assigned"));
    assert Get(init, "jobId") == Some(Str("j-1")) && Get(init, "provider") == Some(Str("p-1"));
    assert Get(init, "status") == Some(Str("assigned"));
    var data := JobCreated(init).data;
    assert data == [("jobId", Str("j-1")), ("provider", Str("p-1")), ("status", Str("assigned"))];
    assert row[1..][1..][1..][1..] == [];
  }
}
