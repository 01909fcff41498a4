/** The accumulation of packages/sdk-js/src/chat.js: `streamChat` up to the terminal event and the loop
    of `sendChat` over it. */
module ChatClient {
  import opened Options
  import opened Messages
  import opened Engine
  import opened ChatExecutor

  /** The variables of `sendChat`; None stands for `undefined` in a value and for `null` in `meta`. */
  datatype Answer = Answer(text: string, jobId: Option<Value>, provider: Option<Value>, meta: Option<Message>)

  datatype ChatResult = Answered(answer: Answer) | Failed(message: Value)

  const NO_ANSWER := Answer("", Some(Null), Some(Null), None)

  predicate IsKind(ev: JobEvent, kind: string) {
    ev.kind == Some(Str(kind))
  }

  function TextIn(data: Message): string {
    Shown(Or(Get(data, "text"), Str("")))
  }

  /** What `sendChat` makes of the events still to come, given what it has so far. */
  function Collect(events: seq<JobEvent>, a: Answer): ChatResult
    decreases |events|
  {
    if events == [] then Answered(a)
    else
      var ev := events[0];
      if IsKind(ev, "error") then Failed(Or(Get(ev.data, "message"), Str("chat error")))
      else if IsKind(ev, "done") then Answered(a)
      else if IsKind(ev, "job")
          then Collect(events[1..], a.(jobId := Get(ev.data, "jobId"), provider := Get(ev.data, "provider")))
      else if IsKind(ev, "meta") then Collect(events[1..], a.(meta := Some(ev.data)))
      else if IsKind(ev, "token") then Collect(events[1..], a.(text := a.text + TextIn(ev.data)))
      else Collect(events[1..], a)
  }

  function Property(m: Message, key: string): Message {
    match Get(m, key) case Some(v) => [(key, v)] case None => []
  }

  /** The first event `streamChat` yields: the answer to the request that created the job. */
  function JobCreated(init: Message): JobEvent {
    JobEvent(Some(Str("job")), Property(init, "jobId") + Property(init, "provider") + Property(init, "status"))
  }

  /** `init` is the answer to the request, `frames` what the stream holds. */
  method SendChat(init: Message, frames: seq<JobEvent>) returns (result: ChatResult)
    ensures result == Collect([JobCreated(init)] + frames, Answer("", Some(Null), Some(Null), None))
  {
    hide Get, IsKind, TextIn;
    var events := [JobCreated(init)] + frames;
    var text := "";
    var jobId, provider := Some(Null), Some(Null);
    var meta: Option<Message> := None;
    for i := 0 to |events|
      invariant Collect(events, NO_ANSWER) == Collect(events[i..], Answer(text, jobId, provider, meta))
    {
      assert events[i..][1..] == events[i + 1..];
      var ev := events[i];
      if IsKind(ev, "error") {
        return Failed(Or(Get(ev.data, "message"), Str("chat error")));
      } else if IsKind(ev, "done") {
        return Answered(Answer(text, jobId, provider, meta));
      } else if IsKind(ev, "job") {
        jobId := Get(ev.data, "jobId");
        provider := Get(ev.data, "provider");
      } else if IsKind(ev, "meta") {
        meta := Some(ev.data);
      } else if IsKind(ev, "token") {
        text := text + TextIn(ev.data);
      }
    }
    result := Answered(Answer(text, jobId, provider, meta));
  }

  lemma GetText(v: Value)
    ensures Get([("text", v)], "text") == Some(v)
    ensures Get([("message", v)], "message") == Some(v)
  {
  }

  /** What the event made of a message is to the client. */
  lemma TranslatedKinds(ctx: Context, m: Message, acc: string, iso: string)
    ensures var ev := Translate(ctx, m, acc, iso);
            && (IsKind(ev, "token") <==> HasType(m, "token"))
            && (IsKind(ev, "done") <==> HasType(m, "done"))
            && (IsKind(ev, "error") <==> HasType(m, "error"))
            && (IsKind(ev, "job") <==> HasType(m, "job"))
            && (HasType(m, "token") ==> TextIn(ev.data) == TextIn(m))
            && (HasType(m, "error") ==>
                 Or(Get(ev.data, "message"), Str("chat error")) == Or(Get(m, "message"), Str("engine error")))
  {
    hide Get;
    GetText(Or(Get(m, "text"), Str("")));
    GetText(Or(Get(m, "message"), Str("engine error")));
  }

  /** A client reading the events of a job that ends with its only `done` collects exactly the text the
      engine streamed, and keeps its job id and provider unless a message is of type `job`. */
  lemma {:induction false} ClientGetsStreamedText(ctx: Context, world: World, k: nat, acc: string, msgs: seq<Message>,
                                                  a: Answer)
    requires msgs != [] && HasType(msgs[|msgs| - 1], "done")
    requires forall i | 0 <= i < |msgs| - 1 :: !HasType(msgs[i], "done") && !HasType(msgs[i], "error")
    ensures var r := Collect(Translations(ctx, world, k, acc, msgs), a);
            && r.Answered? && r.answer.text == a.text + TokenText(msgs)
            && ((forall m | m in msgs :: !HasType(m, "job")) ==>
                 r.answer.jobId == a.jobId && r.answer.provider == a.provider)
    decreases |msgs|
  {
    hide *;
    var m, later := msgs[0], msgs[1..];
    var ev := Translate(ctx, m, acc, world(k).iso);
    var events := Translations(ctx, world, k, acc, msgs);
    TranslatedKinds(ctx, m, acc, world(k).iso);
    TranslationsStep(ctx, world, k, acc, msgs);
    if |msgs| == 1 {
      NotBoth(m);
      CollectStops(events, a);
      OneText(msgs);
      assert a.text + "" == a.text;
    } else {
      var a' := CollectStep(events, a);
      assert later[|later| - 1] == msgs[|msgs| - 1];
      ClientGetsStreamedText(ctx, world, k + 1, Accumulate(acc, m), later, a');
      TextStep(msgs, a.text, a'.text);
      assert m in msgs && forall x | x in later :: x in msgs;
    }
  }

  lemma TranslationsStep(ctx: Context, world: World, k: nat, acc: string, msgs: seq<Message>)
    requires msgs != []
    ensures var events := Translations(ctx, world, k, acc, msgs);
            && events != [] && events[0] == Translate(ctx, msgs[0], acc, world(k).iso)
            && (!HasType(msgs[0], "error") ==>
                 events[1..] == Translations(ctx, world, k + 1, Accumulate(acc, msgs[0]), msgs[1..]))
  {
  }

  lemma OneText(msgs: seq<Message>)
    requires |msgs| == 1 && HasType(msgs[0], "done")
    ensures TokenText(msgs) == ""
  {
    assert msgs[1..] == [];
  }

  lemma TextStep(msgs: seq<Message>, text: string, text': string)
    requires msgs != []
    requires text' == text + (if HasType(msgs[0], "token") then TextIn(msgs[0]) else "")
    ensures text' + TokenText(msgs[1..]) == text + TokenText(msgs)
  {
    hide HasType, Get, Shown, Or;
    var piece := if HasType(msgs[0], "token") then TextIn(msgs[0]) else "";
    assert TokenText(msgs) == piece + TokenText(msgs[1..]);
    Regroup(text, piece, TokenText(msgs[1..]));
  }

  lemma Regroup(a: string, b: string, c: string)
    ensures (a + b) + c == a + (b + c)
  {
  }

  lemma CollectStops(events: seq<JobEvent>, a: Answer)
    requires events != [] && IsKind(events[0], "done") && !IsKind(events[0], "error")
    ensures Collect(events, a) == Answered(a)
  {
  }

  lemma CollectStep(events: seq<JobEvent>, a: Answer) returns (a': Answer)
    requires events != [] && !IsKind(events[0], "done") && !IsKind(events[0], "error")
    ensures Collect(events, a) == Collect(events[1..], a')
    ensures a'.text == a.text + (if IsKind(events[0], "token") then TextIn(events[0].data) else "")
    ensures !IsKind(events[0], "job") ==> a'.jobId == a.jobId && a'.provider == a.provider
  {
    hide Get, TextIn;
    var ev := events[0];
    a' := a;
    assert a.text + "" == a.text;
    if IsKind(ev, "job") {
      a' := a.(jobId := Get(ev.data, "jobId"), provider := Get(ev.data, "provider"));
    } else if IsKind(ev, "meta") {
      a' := a.(meta := Some(ev.data));
    } else if IsKind(ev, "token") {
      a' := a.(text := a.text + TextIn(ev.data));
    }
  }

  /** `sendChat` throws the message of the first error it reads. */
  lemma {:induction false} CollectThrows(events: seq<JobEvent>, ev: JobEvent, a: Answer)
    requires forall e | e in events :: !IsKind(e, "done") && !IsKind(e, "error")
    requires IsKind(ev, "error")
    ensures Collect(events + [ev], a) == Failed(Or(Get(ev.data, "message"), Str("chat error")))
    decreases |events|
  {
    hide IsKind, Get, Or, Collect;
    var all := events + [ev];
    if events == [] {
      assert all == [ev];
      CollectFails(all, a);
    } else {
      assert events[0] in events && all[1..] == events[1..] + [ev];
      var a' := CollectStep(all, a);
      CollectThrows(events[1..], ev, a');
    }
  }

  lemma CollectFails(events: seq<JobEvent>, a: Answer)
    requires events != [] && IsKind(events[0], "error")
    ensures Collect(events, a) == Failed(Or(Get(events[0].data, "message"), Str("chat error")))
  {
  }

  /** Without an `error` before the last message, every message has its event. */
  lemma {:induction false} TranslationsOneByOne(ctx: Context, world: World, k: nat, acc: string, msgs: seq<Message>)
    requires forall i | 0 <= i < |msgs| - 1 :: !HasType(msgs[i], "error")
    ensures var events := Translations(ctx, world, k, acc, msgs);
            && |events| == |msgs|
            && forall i | 0 <= i < |msgs| :: (IsKind(events[i], "done") <==> HasType(msgs[i], "done"))
                                             && (IsKind(events[i], "error") <==> HasType(msgs[i], "error"))
    ensures msgs != [] && HasType(msgs[|msgs| - 1], "error") ==>
              var events := Translations(ctx, world, k, acc, msgs);
              Or(Get(events[|events| - 1].data, "message"), Str("chat error"))
              == Or(Get(msgs[|msgs| - 1], "message"), Str("engine error"))
    decreases |msgs|
  {
    hide HasType, IsKind, Get, Or, Translate, Accumulate;
    if msgs != [] {
      var later := msgs[1..];
      TranslatedKinds(ctx, msgs[0], acc, world(k).iso);
      if 1 < |msgs| {
        TranslationsOneByOne(ctx, world, k + 1, Accumulate(acc, msgs[0]), later);
        assert later[|later| - 1] == msgs[|msgs| - 1];
      }
    }
  }

  /** The last event of such a job carries the text the job returns. */
  lemma {:induction false} DoneEventCarriesReturnedText(ctx: Context, world: World, k: nat, b: Buffer, acc: string,
                                                        tokens: nat, msgs: seq<Message>)
    requires msgs != [] && HasType(msgs[|msgs| - 1], "done")
    requires forall i | 0 <= i < |msgs| - 1 :: !HasType(msgs[i], "done") && !HasType(msgs[i], "error")
    ensures var events := Translations(ctx, world, k, acc, msgs);
            var r := Execute(ctx, world, k, b, acc, tokens, msgs, None).1;
            && events != [] && IsKind(events[|events| - 1], "done")
            && r.Returned? && Get(events[|events| - 1].data, "text") == Some(Str(r.text))
    decreases |msgs|
  {
    hide Accumulate, Buffer.Push, Buffer.Flush;
    var m := msgs[0];
    var b1 := b.Push(Translate(ctx, m, acc, world(k).iso), world(k));
    if |msgs| == 1 {
      assert msgs[1..] == [];
    } else {
      assert msgs[1..][|msgs| - 2] == msgs[|msgs| - 1];
      DoneEventCarriesReturnedText(ctx, world, k + 1, b1, Accumulate(acc, m), Counted(m, tokens), msgs[1..]);
    }
  }

  // ---------- Everything collected ----------

  /** No `done` and no `error` among the events. */
  predicate Quiet(events: seq<JobEvent>) {
    forall ev | ev in events :: ev.kind != Some(Str("done")) && ev.kind != Some(Str("error"))
  }

  /** The data of the last event of a kind. */
  function LastOf(events: seq<JobEvent>, kind: string): Option<Message> {
    if events == [] then None
    else
      var last := events[|events| - 1];
      if last.kind == Some(Str(kind)) then Some(last.data) else LastOf(events[..|events| - 1], kind)
  }

  /** The texts of the `token` events, one after the other. */
  function Streamed(events: seq<JobEvent>): string {
    if events == [] then ""
    else
      var last := events[|events| - 1];
      Streamed(events[..|events| - 1])
      + (if last.kind == Some(Str("token")) then Shown(Given(last.data, "text", Str(""))) else "")
  }

  /** What is collected before the first `done` or `error`: the streamed text, the data of the last `meta`, job id
      and provider of the last `job`. */
  function Collected(events: seq<JobEvent>): Answer {
    Answer(Streamed(events),
           match LastOf(events, "job") case None => Some(Null) case Some(data) => Get(data, "jobId"),
           match LastOf(events, "job") case None => Some(Null) case Some(data) => Get(data, "provider"),
           LastOf(events, "meta"))
  }

  lemma CollectedStep(events: seq<JobEvent>, ev: JobEvent, more: seq<JobEvent>)
    requires Quiet([ev])
    ensures Collect([ev] + more, Collected(events)) == Collect(more, Collected(events + [ev]))
  {
    hide Get, Shown, Streamed, LastOf;
    assert ev in [ev];
    assert ([ev] + more)[0] == ev && ([ev] + more)[1..] == more;
    LastStep(events, ev);
    assert TextIn(ev.data) == Shown(Given(ev.data, "text", Str("")));
  }

  lemma LastStep(events: seq<JobEvent>, ev: JobEvent)
    ensures Streamed(events + [ev])
         == if ev.kind == Some(Str("token")) then Streamed(events) + Shown(Given(ev.data, "text", Str("")))
            else Streamed(events)
    ensures forall kind :: LastOf(events + [ev], kind)
                           == if ev.kind == Some(Str(kind)) then Some(ev.data) else LastOf(events, kind)
  {
    assert (events + [ev])[..|events|] == events;
    assert Streamed(events) + "" == Streamed(events);
  }

  lemma {:induction false} CollectFrom(events: seq<JobEvent>, more: seq<JobEvent>, rest: seq<JobEvent>)
    requires Quiet(more)
    ensures Collect(more + rest, Collected(events)) == Collect(rest, Collected(events + more))
    decreases |more|
  {
    hide Collect, Collected;
    if more == [] {
      assert more + rest == rest && events + more == events;
    } else {
      var ev := more[0];
      assert ev in more && forall x | x in more[1..] :: x in more;
      assert more + rest == [ev] + (more[1..] + rest);
      CollectedStep(events, ev, more[1..] + rest);
      CollectFrom(events + [ev], more[1..], rest);
      assert events + [ev] + more[1..] == events + more;
    }
  }

  /** What `sendChat` makes of any list of events: up to the first `done` or `error` everything is collected; a
      `done`, or the end of the stream, returns it, and an `error` is thrown with its message. */
  lemma CollectIs(events: seq<JobEvent>, last: JobEvent, more: seq<JobEvent>)
    requires Quiet(events)
    ensures Collect(events, NO_ANSWER) == Answered(Collected(events))
    ensures last.kind == Some(Str("done")) ==> Collect(events + [last] + more, NO_ANSWER) == Answered(Collected(events))
    ensures last.kind == Some(Str("error")) ==>
              Collect(events + [last] + more, NO_ANSWER) == Failed(Given(last.data, "message", Str("chat error")))
  {
    hide Get;
    assert [] + events == events && events + [] == events;
    assert Collected([]) == NO_ANSWER;
    CollectFrom([], events, []);
    CollectFrom([], events, [last] + more);
    assert events + ([last] + more) == events + [last] + more;
    assert ([last] + more)[0] == last;
  }

  /** The first event carries over what the answer to the request holds. */
  lemma JobCreatedSays(init: Message)
    ensures var ev := JobCreated(init);
            && ev.kind == Some(Str("job"))
            && Get(ev.data, "jobId") == Get(init, "jobId") && Get(ev.data, "provider") == Get(init, "provider")
            && Get(ev.data, "status") == Get(init, "status")
  {
    hide Property, Get;
    PropertyIs(init, "jobId");
    PropertyIs(init, "provider");
    PropertyIs(init, "status");
    GetAppend(Property(init, "jobId") + Property(init, "provider"), Property(init, "status"));
    GetAppend(Property(init, "jobId"), Property(init, "provider"));
  }

  lemma PropertyIs(m: Message, key: string)
    ensures forall other :: Get(Property(m, key), other) == if other == key then Get(m, key) else None
  {
  }

  lemma {:induction false} GetAppend(a: Message, b: Message)
    ensures forall key :: Get(a + b, key) == if Get(a, key).Some? then Get(a, key) else Get(b, key)
  {
    if a == [] {
      assert a + b == b;
    } else {
      assert (a + b)[1..] == a[1..] + b;
      GetAppend(a[1..], b);
    }
  }
}
