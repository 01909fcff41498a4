/** apps/cli/lib/chat-executor.js: turning an engine stream into batches of job events. */
module ChatExecutor {
  import opened Options
  import opened Messages
  import opened Engine
  import Decimal

  const EVENT_BATCH_MAX := 16
  const EVENT_BATCH_FLUSH_MS := 250

  datatype JobEvent = JobEvent(kind: Option<Value>, data: Message)

  datatype Post = Post(batch: seq<JobEvent>, ok: bool)

  /** What the world answers while one event is pushed: the clock readings of the flush test and of
      the flush, whether the post succeeds, and the time stamp text. */
  datatype Moment = Moment(tested: int, flushed: int, ok: bool, iso: string)

  type World = nat -> Moment

  /** `events`, `lastFlush`, and the posts made so far. */
  datatype Buffer = Buffer(events: seq<JobEvent>, lastFlush: int, posts: seq<Post>) {
    function Flush(now: Moment): Buffer {
      if events == [] then this else Buffer([], now.flushed, posts + [Post(events, now.ok)])
    }

    function Push(ev: JobEvent, now: Moment): Buffer {
      var b := this.(events := events + [ev]);
      if EVENT_BATCH_MAX <= |b.events| || EVENT_BATCH_FLUSH_MS <= now.tested - lastFlush then b.Flush(now) else b
    }
  }

  function Posted(posts: seq<Post>): seq<JobEvent> {
    if posts == [] then [] else posts[0].batch + Posted(posts[1..])
  }

  function Delivered(posts: seq<Post>): seq<JobEvent> {
    if posts == [] then [] else (if posts[0].ok then posts[0].batch else []) + Delivered(posts[1..])
  }

  class EventBuffer {
    var events: seq<JobEvent>
    var lastFlush: int
    var posts: seq<Post>

    constructor (now: int)
      ensures Model() == Buffer([], now, [])
    {
      events, lastFlush, posts := [], now, [];
    }

    function Model(): Buffer
      reads this
    {
      Buffer(events, lastFlush, posts)
    }

    method Push(ev: JobEvent, now: Moment)
      modifies this
      ensures Model() == old(Model()).Push(ev, now)
    {
      events := events + [ev];
      if |events| >= EVENT_BATCH_MAX || now.tested - lastFlush >= EVENT_BATCH_FLUSH_MS {
        Flush(now);
      }
    }

    method Flush(now: Moment)
      modifies this
      ensures Model() == old(Model()).Flush(now)
    {
      if |events| == 0 {
        return;
      }
      var batch := events;
      events := [];
      lastFlush := now.flushed;
      posts := posts + [Post(batch, now.ok)];
    }
  }

  // ---------- Translation of engine messages ----------

  datatype Context = Context(nodeId: Value, nodeName: Value, jobModel: Value, engineKind: Value)

  /** `accumulated` after a message. */
  function Accumulate(acc: string, m: Message): string {
    if HasType(m, "token") then acc + Shown(Or(Get(m, "text"), Str("")))
    else if HasType(m, "done") then
      match Get(m, "text") case Some(Str(t)) => if |acc| < |t| then t else acc case _ => acc
    else acc
  }

  function Translate(ctx: Context, m: Message, acc: string, iso: string): JobEvent {
    if HasType(m, "meta") then
      JobEvent(Some(Str("meta")), [
        ("provider_node_id", ctx.nodeId),
        ("provider_name", ctx.nodeName),
        ("model", Or(Get(m, "model"), ctx.jobModel)),
        ("started_at", Or(Get(m, "started_at"), Str(iso))),
        ("engine", ctx.engineKind)])
    else if HasType(m, "token") then
      JobEvent(Some(Str("token")), [("text", Or(Get(m, "text"), Str("")))])
    else if HasType(m, "done") then
      JobEvent(Some(Str("done")), [
        ("text", Str(Accumulate(acc, m))),
        ("reason", Or(Get(m, "reason"), Str("stop"))),
        ("finished_at", Or(Get(m, "finished_at"), Str(iso)))])
    else if HasType(m, "error") then
      JobEvent(Some(Str("error")), [("message", Or(Get(m, "message"), Str("engine error")))])
    else JobEvent(Get(m, "type"), m)
  }

  /** The job events of a stream, one per message, through the first `error`. */
  function Translations(ctx: Context, world: World, k: nat, acc: string, msgs: seq<Message>): seq<JobEvent>
    decreases |msgs|
  {
    if msgs == [] then []
    else
      [Translate(ctx, msgs[0], acc, world(k).iso)]
      + (if HasType(msgs[0], "error") then [] else Translations(ctx, world, k + 1, Accumulate(acc, msgs[0]), msgs[1..]))
  }

  // ---------- The loop of executeChatJob ----------

  datatype Result = Returned(text: string, tokenCount: nat) | Threw(error: string)

  /** `tokenCount` after a message. */
  function Counted(m: Message, tokens: nat): nat {
    if HasType(m, "token") then tokens + 1 else tokens
  }

  /** The rest of a job from the k-th message on: `failure` is the error the stream fails with after
      its messages, if it does. */
  function Execute(ctx: Context, world: World, k: nat, b: Buffer, acc: string, tokens: nat,
                   msgs: seq<Message>, failure: Option<string>): (Buffer, Result)
    decreases |msgs|
  {
    if msgs == [] then
      if failure.Some? then (b, Threw(failure.value)) else (b.Flush(world(k)), Returned(acc, tokens))
    else
      var m := msgs[0];
      var b' := b.Push(Translate(ctx, m, acc, world(k).iso), world(k));
      if HasType(m, "error") then (b'.Flush(world(k + 1)), Threw(Shown(Or(Get(m, "message"), Str("engine error")))))
      else Execute(ctx, world, k + 1, b', Accumulate(acc, m), Counted(m, tokens), msgs[1..], failure)
  }

  /** The `for await` loop over the values a stream yields, then its end or failure. */
  method ExecuteChatJob(ctx: Context, world: World, buffer: EventBuffer, stream: seq<Message>, failure: Option<string>)
    returns (result: Result)
    modifies buffer
    ensures (buffer.Model(), result) == Execute(ctx, world, 0, old(buffer.Model()), "", 0, stream, failure)
  {
    var accumulated, tokenCount := "", 0;
    var k := 0;
    while k < |stream|
      invariant 0 <= k <= |stream|
      invariant Execute(ctx, world, 0, old(buffer.Model()), "", 0, stream, failure)
             == Execute(ctx, world, k, buffer.Model(), accumulated, tokenCount, stream[k..], failure)
    {
      var ev, now := stream[k], world(k);
      assert stream[k..][0] == ev && stream[k..][1..] == stream[k + 1..];
      if HasType(ev, "meta") {
        buffer.Push(Translate(ctx, ev, accumulated, now.iso), now);
      } else if HasType(ev, "token") {
        var text := Or(Get(ev, "text"), Str(""));
        buffer.Push(JobEvent(Some(Str("token")), [("text", text)]), now);
        accumulated := accumulated + Shown(text);
        tokenCount := tokenCount + 1;
      } else if HasType(ev, "done") {
        ghost var before := accumulated;
        var text := Get(ev, "text");
        if text.Some? && text.value.Str? && |text.value.s| > |accumulated| {
          accumulated := text.value.s;
        }
        buffer.Push(JobEvent(Some(Str("done")), [
          ("text", Str(accumulated)),
          ("reason", Or(Get(ev, "reason"), Str("stop"))),
          ("finished_at", Or(Get(ev, "finished_at"), Str(now.iso)))]), now);
        assert accumulated == Accumulate(before, ev);
      } else if HasType(ev, "error") {
        buffer.Push(Translate(ctx, ev, accumulated, now.iso), now);
        buffer.Flush(world(k + 1));
        return Threw(Shown(Or(Get(ev, "message"), Str("engine error"))));
      } else {
        buffer.Push(JobEvent(Get(ev, "type"), ev), now);
      }
      k := k + 1;
    }
    if failure.Some? {
      return Threw(failure.value);
    }
    buffer.Flush(world(k));
    result := Returned(accumulated, tokenCount);
  }

  /** What `failChatJob` posts for a job that threw. */
  function JobFailed(message: string): JobEvent {
    JobEvent(Some(Str("error")), [("message", Str(message))])
  }

  // ---------- What each event says ----------

  /** The value of a property, or a default when it is absent or `null`. */
  function Given(m: Message, key: string, default: Value): Value {
    match Get(m, key) case None => default case Some(Null) => default case Some(v) => v
  }

  /** The longer of what was streamed and what the engine reports in full. */
  function FullText(streamed: string, m: Message): string {
    match Get(m, "text") case Some(Str(t)) => if |streamed| < |t| then t else streamed case _ => streamed
  }

  lemma Lookup3(k0: string, v0: Value, k1: string, v1: Value, k2: string, v2: Value)
    requires k0 != k1 && k0 != k2 && k1 != k2
    ensures var m := [(k0, v0), (k1, v1), (k2, v2)];
            Get(m, k0) == Some(v0) && Get(m, k1) == Some(v1) && Get(m, k2) == Some(v2)
  {
    var m := [(k0, v0), (k1, v1), (k2, v2)];
    assert m[1..] == [(k1, v1), (k2, v2)] && m[1..][1..] == [(k2, v2)];
    assert Get(m[1..][1..], k2) == Some(v2);
    assert Get(m[1..], k2) == Some(v2);
  }

  /** The first event names the node, the job's model unless the engine names one, and the engine's kind. */
  lemma MetaEventSays(ctx: Context, m: Message, acc: string, iso: string)
    requires Get(m, "type") == Some(Str("meta"))
    ensures var ev := Translate(ctx, m, acc, iso);
            && ev.kind == Some(Str("meta"))
            && Get(ev.data, "provider_node_id") == Some(ctx.nodeId)
            && Get(ev.data, "provider_name") == Some(ctx.nodeName)
            && Get(ev.data, "model") == Some(Given(m, "model", ctx.jobModel))
            && Get(ev.data, "started_at") == Some(Given(m, "started_at", Str(iso)))
            && Get(ev.data, "engine") == Some(ctx.engineKind)
  {
    var ev := Translate(ctx, m, acc, iso);
    var a := ("provider_node_id", ctx.nodeId);
    var b := ("provider_name", ctx.nodeName);
    var later := [("model", Given(m, "model", ctx.jobModel)), ("started_at", Given(m, "started_at", Str(iso))),
                  ("engine", ctx.engineKind)];
    assert ev.data == [a] + ([b] + later);
    assert ev.data[1..] == [b] + later && ([b] + later)[1..] == later;
    Lookup3("model", Given(m, "model", ctx.jobModel), "started_at", Given(m, "started_at", Str(iso)), "engine",
            ctx.engineKind);
  }

  /** The last event holds the text, a reason and a time. */
  lemma DoneEventSays(ctx: Context, m: Message, acc: string, iso: string)
    requires Get(m, "type") == Some(Str("done"))
    ensures var ev := Translate(ctx, m, acc, iso);
            && ev.kind == Some(Str("done"))
            && Get(ev.data, "text") == Some(Str(FullText(acc, m)))
            && Get(ev.data, "reason") == Some(Given(m, "reason", Str("stop")))
            && Get(ev.data, "finished_at") == Some(Given(m, "finished_at", Str(iso)))
  {
    Lookup3("text", Str(FullText(acc, m)), "reason", Given(m, "reason", Str("stop")), "finished_at",
            Given(m, "finished_at", Str(iso)));
  }

  /** A token event is its text, an error event its message, and every other type is handed on unchanged. */
  lemma OtherEventsSay(ctx: Context, m: Message, acc: string, iso: string)
    ensures var ev := Translate(ctx, m, acc, iso);
            var kind := Get(m, "type");
            && (kind == Some(Str("token")) ==> ev == JobEvent(kind, [("text", Given(m, "text", Str("")))]))
            && (kind == Some(Str("error")) ==>
                 ev == JobEvent(kind, [("message", Given(m, "message", Str("engine error")))]))
            && (kind !in {Some(Str("token")), Some(Str("error")), Some(Str("meta")), Some(Str("done"))} ==>
                 ev == JobEvent(kind, m))
  {
  }

  /** The text grows by the tokens, and by a longer full text at the end; tokens are counted. */
  lemma AccumulatedIs(acc: string, tokens: nat, m: Message)
    ensures Counted(m, tokens) == if Get(m, "type") == Some(Str("token")) then tokens + 1 else tokens
    ensures var kind := Get(m, "type");
            Accumulate(acc, m)
            == if kind == Some(Str("token")) then
                 acc + (match Given(m, "text", Str(""))
                        case Str(t) => t case Num(n) => Decimal.Print(n) case Null => "null")
               else if kind == Some(Str("done")) then FullText(acc, m)
               else acc
  {
  }

  // ---------- Conservation ----------

  lemma {:induction false} PostedSnoc(posts: seq<Post>, p: Post)
    ensures Posted(posts + [p]) == Posted(posts) + p.batch
    ensures Delivered(posts + [p]) == Delivered(posts) + (if p.ok then p.batch else [])
  {
    if posts == [] {
      assert [] + [p] == [p] && [p][1..] == [];
    } else {
      assert (posts + [p])[1..] == posts[1..] + [p];
      PostedSnoc(posts[1..], p);
    }
  }

  /** Batches hold between 1 and EVENT_BATCH_MAX events, and a full buffer never survives a push. */
  predicate GoodBuffer(b: Buffer) {
    |b.events| < EVENT_BATCH_MAX && forall i | 0 <= i < |b.posts| :: 1 <= |b.posts[i].batch| <= EVENT_BATCH_MAX
  }

  /** Everything pushed so far, posted or still waiting. */
  function Held(b: Buffer): seq<JobEvent> {
    Posted(b.posts) + b.events
  }

  lemma FlushConserves(b: Buffer, now: Moment)
    ensures Held(b.Flush(now)) == Held(b) && b.Flush(now).events == []
    ensures GoodBuffer(b) ==> GoodBuffer(b.Flush(now))
  {
    PostedSnoc(b.posts, Post(b.events, now.ok));
    assert Posted(b.posts) + b.events + [] == Posted(b.posts) + b.events;
  }

  lemma PushConserves(b: Buffer, ev: JobEvent, now: Moment)
    requires GoodBuffer(b)
    ensures Held(b.Push(ev, now)) == Held(b) + [ev] && GoodBuffer(b.Push(ev, now))
  {
    var b' := b.(events := b.events + [ev]);
    FlushConserves(b', now);
    assert Posted(b.posts) + (b.events + [ev]) == Posted(b.posts) + b.events + [ev];
  }

  /** Nothing is lost, duplicated or reordered between the stream and the posts; when the job returns
      or an engine error ends it, nothing is left in the buffer. When the stream itself fails, fewer
      than EVENT_BATCH_MAX events are left behind unposted. */
  lemma {:induction false} ExecuteConserves(ctx: Context, world: World, k: nat, b: Buffer, acc: string, tokens: nat,
                                            msgs: seq<Message>, failure: Option<string>)
    requires GoodBuffer(b)
    ensures var (b', r) := Execute(ctx, world, k, b, acc, tokens, msgs, failure);
            && Held(b') == Held(b) + Translations(ctx, world, k, acc, msgs)
            && GoodBuffer(b')
            && (failure.None? || (exists m :: m in msgs && HasType(m, "error")) ==> b'.events == [])
    decreases |msgs|
  {
    hide Translate, Buffer.Push, Buffer.Flush, GoodBuffer, Held, Accumulate;
    if msgs == [] {
      FlushConserves(b, world(k));
      assert Held(b) + [] == Held(b);
    } else {
      var ev := Translate(ctx, msgs[0], acc, world(k).iso);
      var b1 := b.Push(ev, world(k));
      PushConserves(b, ev, world(k));
      if HasType(msgs[0], "error") {
        FlushConserves(b1, world(k + 1));
      } else {
        var acc' := Accumulate(acc, msgs[0]);
        ExecuteConserves(ctx, world, k + 1, b1, acc', Counted(msgs[0], tokens), msgs[1..], failure);
        assert Held(b) + [ev] + Translations(ctx, world, k + 1, acc', msgs[1..])
            == Held(b) + ([ev] + Translations(ctx, world, k + 1, acc', msgs[1..]));
        if exists m :: m in msgs && HasType(m, "error") {
          var m :| m in msgs && HasType(m, "error");
          assert m in msgs[1..];
        }
      }
    }
  }

  // ---------- What a failing stream leaves behind ----------

  /** How many events wait, and since which flush, after `len` pushes from the k-th moment on: the batching
      rule alone, without the events. A push flushes at 16 events, or 250 ms after the last flush. */
  function Waiting(count: nat, lastFlush: int, world: World, k: nat, len: nat): (nat, int)
    decreases len
  {
    if len == 0 then (count, lastFlush)
    else if 16 <= count + 1 || 250 <= world(k).tested - lastFlush
        then Waiting(0, world(k).flushed, world, k + 1, len - 1)
    else Waiting(count + 1, lastFlush, world, k + 1, len - 1)
  }

  predicate NoError(msgs: seq<Message>) {
    forall m | m in msgs :: !HasType(m, "error")
  }

  /** When the stream fails, exactly the events waiting under the batching rule are left unposted. */
  lemma {:induction false} LeftUnposted(ctx: Context, world: World, k: nat, b: Buffer, acc: string, tokens: nat,
                                        msgs: seq<Message>, error: string)
    requires NoError(msgs)
    ensures var (b', r) := Execute(ctx, world, k, b, acc, tokens, msgs, Some(error));
            (|b'.events|, b'.lastFlush) == Waiting(|b.events|, b.lastFlush, world, k, |msgs|) && r == Threw(error)
    decreases |msgs|
  {
    hide Translate, Accumulate, HasType;
    if msgs != [] {
      assert msgs[0] in msgs;
      var b1 := b.Push(Translate(ctx, msgs[0], acc, world(k).iso), world(k));
      LeftUnposted(ctx, world, k + 1, b1, Accumulate(acc, msgs[0]), Counted(msgs[0], tokens), msgs[1..], error);
    }
  }

  lemma {:induction false} WaitingLast(count: nat, lastFlush: int, world: World, k: nat, len: nat)
    requires 0 < len
    ensures var (n, last) := Waiting(count, lastFlush, world, k, len - 1);
            var now := world(k + len - 1);
            Waiting(count, lastFlush, world, k, len)
            == if 16 <= n + 1 || 250 <= now.tested - last then (0, now.flushed) else (n + 1, last)
    decreases len
  {
    if 1 < len {
      if 16 <= count + 1 || 250 <= world(k).tested - lastFlush {
        WaitingLast(0, world(k).flushed, world, k + 1, len - 1);
      } else {
        WaitingLast(count + 1, lastFlush, world, k + 1, len - 1);
      }
    }
  }

  /** A failing stream leaves nothing unposted if and only if its last push flushes: that push fills a
      batch of 16, or comes 250 ms or more after the last flush. */
  lemma NothingLeftIffLastPushFlushes(ctx: Context, world: World, k: nat, b: Buffer, acc: string, tokens: nat,
                                      msgs: seq<Message>, error: string)
    requires NoError(msgs)
    ensures var left := Execute(ctx, world, k, b, acc, tokens, msgs, Some(error)).0.events;
            if msgs == [] then left == b.events
            else
              var (waiting, lastFlush) := Waiting(|b.events|, b.lastFlush, world, k, |msgs| - 1);
              left == [] <==> 16 <= waiting + 1 || 250 <= world(k + |msgs| - 1).tested - lastFlush
  {
    hide Waiting;
    if msgs != [] {
      LeftUnposted(ctx, world, k, b, acc, tokens, msgs, error);
      WaitingLast(|b.events|, b.lastFlush, world, k, |msgs|);
      var left := Execute(ctx, world, k, b, acc, tokens, msgs, Some(error)).0.events;
      var before := Waiting(|b.events|, b.lastFlush, world, k, |msgs| - 1);
      var now := world(k + |msgs| - 1);
      assert |left| == if 16 <= before.0 + 1 || 250 <= now.tested - before.1 then 0 else before.0 + 1;
    }
  }

  /** Events still waiting when a stream fails were last joined by one less than 250 ms after the last flush,
      and do not fill a batch. */
  lemma StillWaitingIsRecent(ctx: Context, world: World, k: nat, b: Buffer, acc: string, tokens: nat,
                             msgs: seq<Message>, error: string)
    requires NoError(msgs) && msgs != []
    ensures var b' := Execute(ctx, world, k, b, acc, tokens, msgs, Some(error)).0;
            b'.events != [] ==> |b'.events| < 16 && world(k + |msgs| - 1).tested - b'.lastFlush < 250
  {
    hide Waiting;
    LeftUnposted(ctx, world, k, b, acc, tokens, msgs, error);
    WaitingLast(|b.events|, b.lastFlush, world, k, |msgs|);
    var b' := Execute(ctx, world, k, b, acc, tokens, msgs, Some(error)).0;
    var before := Waiting(|b.events|, b.lastFlush, world, k, |msgs| - 1);
    assert (|b'.events|, b'.lastFlush)
        == if 16 <= before.0 + 1 || 250 <= world(k + |msgs| - 1).tested - before.1
            then (0, world(k + |msgs| - 1).flushed)
           else (before.0 + 1, before.1);
  }

  /** One push, in full: at 16 events, or 250 ms after the last flush, everything goes out in one post; else
      the event waits and nothing is posted. */
  lemma PushFlushesOrWaits(b: Buffer, ev: JobEvent, now: Moment)
    ensures b.Push(ev, now)
         == if 16 <= |b.events| + 1 || 250 <= now.tested - b.lastFlush
            then Buffer([], now.flushed, b.posts + [Post(b.events + [ev], now.ok)])
            else Buffer(b.events + [ev], b.lastFlush, b.posts)
  {
    assert b.events + [ev] != [];
  }

  /** A flush posts what waits, and nothing when nothing waits. */
  lemma FlushPostsAll(b: Buffer, now: Moment)
    ensures b.events == [] ==> b.Flush(now) == b
    ensures b.events != [] ==> b.Flush(now) == Buffer([], now.flushed, b.posts + [Post(b.events, now.ok)])
  {
  }

  /** No flush falls due by time: the clock stays within 250 ms of the last flush. */
  predicate NeverLate(count: nat, lastFlush: int, world: World, k: nat, len: nat)
    decreases len
  {
    len == 0 ||
    (world(k).tested - lastFlush < 250
     && if 16 <= count + 1 then NeverLate(0, world(k).flushed, world, k + 1, len - 1)
        else NeverLate(count + 1, lastFlush, world, k + 1, len - 1))
  }

  lemma {:induction false} WaitingIsRest(count: nat, lastFlush: int, world: World, k: nat, len: nat)
    requires count < 16 && NeverLate(count, lastFlush, world, k, len)
    ensures Waiting(count, lastFlush, world, k, len).0 == (count + len) % 16
    decreases len
  {
    if len != 0 {
      if 16 <= count + 1 {
        WaitingIsRest(0, world(k).flushed, world, k + 1, len - 1);
      } else {
        WaitingIsRest(count + 1, lastFlush, world, k + 1, len - 1);
      }
    }
  }

  /** While no flush falls due by time, a failing stream leaves what does not fill a batch. */
  lemma LeftIsRestOfBatch(ctx: Context, world: World, k: nat, b: Buffer, acc: string, tokens: nat, msgs: seq<Message>,
                          error: string)
    requires NoError(msgs) && |b.events| < 16 && NeverLate(|b.events|, b.lastFlush, world, k, |msgs|)
    ensures |Execute(ctx, world, k, b, acc, tokens, msgs, Some(error)).0.events| == (|b.events| + |msgs|) % 16
  {
    LeftUnposted(ctx, world, k, b, acc, tokens, msgs, error);
    WaitingIsRest(|b.events|, b.lastFlush, world, k, |msgs|);
  }

  /** One token, then the stream fails at once: its event is never posted. */
  lemma TokenLostOnFailure(ctx: Context, world: World, start: int)
    requires world(0).tested == start
    ensures var token: Message := [("type", Str("token")), ("text", Str("hi"))];
            var (b, r) := Execute(ctx, world, 0, Buffer([], start, []), "", 0, [token], Some("engine exited"));
            && b.posts == [] && b.events == [JobEvent(Some(Str("token")), [("text", Str("hi"))])]
            && r == Threw("engine exited")
  {
    var token: Message := [("type", Str("token")), ("text", Str("hi"))];
    assert HasType(token, "token")
        && Get(token, "text") == Some(Str("hi")) by { assert token[1..][0] == ("text", Str("hi")); }
    assert Translate(ctx, token, "", world(0).iso) == JobEvent(Some(Str("token")), [("text", Str("hi"))]);
    assert [token][1..] == [];
    var none: seq<JobEvent> := [];
    assert none + [Translate(ctx, token, "", world(0).iso)] == [Translate(ctx, token, "", world(0).iso)];
  }

  /** When every post succeeds, every posted event is delivered. */
  lemma {:induction false} AllDelivered(posts: seq<Post>)
    requires AllOk(posts)
    ensures Delivered(posts) == Posted(posts)
  {
    if posts != [] {
      assert posts[0] in posts;
      AllDelivered(posts[1..]);
    }
  }

  predicate AllOk(posts: seq<Post>) {
    forall p | p in posts :: p.ok
  }

  lemma {:induction false} PostsSucceed(ctx: Context, world: World, k: nat, b: Buffer, acc: string, tokens: nat,
                                        msgs: seq<Message>, failure: Option<string>)
    requires forall i: nat :: world(i).ok
    requires AllOk(b.posts)
    ensures AllOk(Execute(ctx, world, k, b, acc, tokens, msgs, failure).0.posts)
    decreases |msgs|
  {
    hide Translate, Accumulate;
    assert world(k).ok && world(k + 1).ok;
    if msgs != [] && !HasType(msgs[0], "error") {
      var b1 := b.Push(Translate(ctx, msgs[0], acc, world(k).iso), world(k));
      PostsSucceed(ctx, world, k + 1, b1, Accumulate(acc, msgs[0]), Counted(msgs[0], tokens), msgs[1..], failure);
    }
  }

  // ---------- The returned text ----------

  function TokenText(msgs: seq<Message>): string {
    if msgs == [] then ""
    else (if HasType(msgs[0], "token") then Shown(Or(Get(msgs[0], "text"), Str(""))) else "") + TokenText(msgs[1..])
  }

  function TokenCount(msgs: seq<Message>): nat {
    if msgs == [] then 0 else (if HasType(msgs[0], "token") then 1 else 0) + TokenCount(msgs[1..])
  }

  lemma NotBoth(m: Message)
    requires HasType(m, "done")
    ensures !HasType(m, "error") && !HasType(m, "token")
  {
  }

  /** For a stream that ends with its only `done`: the job returns the streamed tokens, or the full
      text the engine reports when that is longer, and counts the tokens. */
  lemma {:induction false} ReturnedText(ctx: Context, world: World, k: nat, b: Buffer, acc: string, tokens: nat,
                                        msgs: seq<Message>)
    requires msgs != [] && HasType(msgs[|msgs| - 1], "done")
    requires forall i | 0 <= i < |msgs| - 1 :: !HasType(msgs[i], "done") && !HasType(msgs[i], "error")
    ensures var streamed := acc + TokenText(msgs);
            var full := Get(msgs[|msgs| - 1], "text");
            Execute(ctx, world, k, b, acc, tokens, msgs, None).1
            == Returned(if full.Some? && full.value.Str? && |streamed| < |full.value.s| then full.value.s else streamed,
                        tokens + TokenCount(msgs))
    decreases |msgs|
  {
    hide Translate, Buffer.Push, Buffer.Flush, Shown, Or, Get, HasType;
    NotBoth(msgs[|msgs| - 1]);
    var m := msgs[0];
    var b1 := b.Push(Translate(ctx, m, acc, world(k).iso), world(k));
    if |msgs| == 1 {
      assert msgs[1..] == [];
      assert acc + TokenText(msgs) == acc;
    } else {
      var acc' := Accumulate(acc, m);
      assert msgs[1..][|msgs| - 2] == msgs[|msgs| - 1];
      ReturnedText(ctx, world, k + 1, b1, acc', Counted(m, tokens), msgs[1..]);
      assert acc + TokenText(msgs) == acc' + TokenText(msgs[1..]) by {
        var shown := if HasType(m, "token") then Shown(Or(Get(m, "text"), Str(""))) else "";
        assert acc + (shown + TokenText(msgs[1..])) == acc + shown + TokenText(msgs[1..]);
        assert acc + "" == acc;
      }
    }
  }
}

/** From the bytes of the engine's stdout to the batches posted for one job. */
module EndToEnd {
  import opened Options
  import opened Text
  import opened Messages
  import opened Protocol
  import opened AsyncQueues
  import opened Engine
  import opened Demultiplexing
  import opened ChatExecutor

  /** The values a reader has been given by its `next()` calls, first to last. */
  function ReadBack(q: EventQueue, k: nat): seq<Message>
    decreases q.tickets - k
  {
    if k < q.tickets && k in q.settled && q.settled[k].Yielded? then [q.settled[k].value] + ReadBack(q, k + 1) else []
  }

  /** A reader that has asked for every accepted value, or has been told the end, has read exactly those. */
  lemma {:induction false} ReaderSeesAccepted(q: EventQueue, k: nat)
    requires q.Valid() && k <= |q.accepted| <= q.tickets
    ensures ReadBack(q, k) == q.accepted[k..]
    decreases |q.accepted| - k
  {
    if k < |q.accepted| {
      ReaderSeesAccepted(q, k + 1);
      assert q.accepted[k..] == [q.accepted[k]] + q.accepted[k + 1..];
    }
  }

  lemma ReaderIsToldTheEnd(q: EventQueue)
    requires q.Valid() && q.closed && q.error == None && |q.accepted| < q.tickets
    ensures |q.accepted| in q.settled && q.settled[|q.accepted|] == Done
  {
  }

  /** The messages carrying an id, through the first terminal one. */
  function Own(id: string, msgs: seq<Message>): seq<Message> {
    if msgs == [] then []
    else if !Carries(msgs[0], id) then Own(id, msgs[1..])
    else if Terminal(msgs[0]) then [msgs[0]]
    else [msgs[0]] + Own(id, msgs[1..])
  }

  /** A view's items are a prefix of the messages carrying the id, and all of them while nothing has cut
      the stream short. */
  predicate WithinOwn(v: View, own: seq<Message>) {
    && v.items <= own
    && (v.ending.Open? || v.ending.Ended? ==> v.items == own)
    && (v.ending.Ended? ==> own != [] && Terminal(own[|own| - 1]))
    && (!v.ending.Ended? ==> forall m | m in v.items :: !Terminal(m))
  }

  lemma {:induction false} ViewWithinOwn(id: string, acts: seq<Action>)
    ensures WithinOwn(StreamView(id, acts), Own(id, MessagesOf(acts)))
    decreases |acts|
  {
    hide Carries, Terminal, HasType;
    if acts != [] {
      var a := acts[0];
      ViewWithinOwn(id, acts[1..]);
      var later := MessagesOf(acts[1..]);
      if a.Receive? {
        assert MessagesOf(acts) == [a.m] + later && ([a.m] + later)[1..] == later;
        if Carries(a.m, id) && !Terminal(a.m) {
          OneMoreWithin(a.m, StreamView(id, acts[1..]), Own(id, later));
        }
      } else {
        assert [] + later == later;
      }
    }
  }

  lemma OneMoreWithin(m: Message, v: View, own: seq<Message>)
    requires WithinOwn(v, own) && !Terminal(m)
    ensures WithinOwn(v.(items := [m] + v.items), [m] + own)
  {
    hide Terminal;
    PrefixGrows(m, v.items, own);
    assert ([m] + own)[|own|] == if own == [] then m else own[|own| - 1];
  }

  lemma PrefixGrows(m: Message, a: seq<Message>, b: seq<Message>)
    requires a <= b
    ensures [m] + a <= [m] + b && (a == b ==> [m] + a == [m] + b)
    ensures forall x | x in [m] + a :: x == m || x in a
  {
  }

  lemma {:induction false} NothingCutsShort(id: string, acts: seq<Action>)
    requires forall a | a in acts :: !a.Exits? && a != Call(id)
    ensures StreamView(id, acts).ending.Open? || StreamView(id, acts).ending.Ended?
    decreases |acts|
  {
    hide Carries, Terminal;
    if acts != [] {
      assert acts[0] in acts;
      NothingCutsShort(id, acts[1..]);
    }
  }

  /** Without an exit and without a second `generate` for the id, a stream is its own messages. */
  lemma ViewIsOwn(id: string, acts: seq<Action>)
    requires forall a | a in acts :: !a.Exits? && a != Call(id)
    ensures var v, own := StreamView(id, acts), Own(id, MessagesOf(acts));
            v.items == own && v.ending == if own != [] && Terminal(own[|own| - 1]) then Ended else Open
  {
    hide Own, StreamView, Terminal;
    NothingCutsShort(id, acts);
    ViewWithinOwn(id, acts);
  }

  predicate OnlyLastTerminal(msgs: seq<Message>) {
    forall i | 0 <= i < |msgs| - 1 :: !Terminal(msgs[i])
  }

  lemma {:induction false} OwnShape(id: string, msgs: seq<Message>)
    ensures OnlyLastTerminal(Own(id, msgs))
    decreases |msgs|
  {
    hide Terminal, Carries;
    if msgs != [] {
      OwnShape(id, msgs[1..]);
      var own, later := Own(id, msgs), Own(id, msgs[1..]);
      if Carries(msgs[0], id) && !Terminal(msgs[0]) {
        assert own == [msgs[0]] + later;
        forall i | 0 <= i < |own| - 1 ensures !Terminal(own[i]) {
          if 0 < i { assert own[i] == later[i - 1]; }
        }
      }
    }
  }

  lemma {:induction false} ActionsAppend(json: Json, buf: string, a: seq<Event>, b: seq<Event>)
    ensures Actions(json, buf, a + b) == Actions(json, buf, a) + Actions(json, BufferAfter(buf, a), b)
    decreases |a|
  {
    if a == [] {
      assert a + b == b;
    } else {
      assert (a + b)[1..] == a[1..] + b;
      match a[0]
      case Stdout(chunk) => ActionsAppend(json, SplitBy(buf + chunk, "\n").rest, a[1..], b);
      case Other(s) => ActionsAppend(json, buf, a[1..], b);
    }
  }

  lemma {:induction false} SignalsOnly(json: Json, buf: string, events: seq<Event>, id: string)
    requires forall ev | ev in events && ev.Other? :: !ev.signal.Exits? && ev.signal != Call(id)
    ensures forall a | a in Actions(json, buf, events) :: !a.Exits? && a != Call(id)
    decreases |events|
  {
    if events != [] {
      assert events[0] in events;
      match events[0]
      case Stdout(chunk) => SignalsOnly(json, SplitBy(buf + chunk, "\n").rest, events[1..], id);
      case Other(s) => SignalsOnly(json, buf, events[1..], id);
    }
  }

  lemma {:induction false} BufferHasNoNewline(buf: string, events: seq<Event>)
    requires '\n' !in buf
    ensures '\n' !in BufferAfter(buf, events)
    decreases |events|
  {
    if events != [] {
      match events[0]
      case Stdout(chunk) =>
        NoNewline(SplitBy(buf + chunk, "\n").rest);
        BufferHasNoNewline(SplitBy(buf + chunk, "\n").rest, events[1..]);
      case Other(s) => BufferHasNoNewline(buf, events[1..]);
    }
  }

  /** What the specification says about the stream of a `generate` after these events. */
  function ViewOf(json: Json, before: seq<Event>, id: string, after: seq<Event>): View {
    StreamView(id, Actions(json, RunEvents(json, STARTED, before).buf, after))
  }

  /** The messages carrying an id in the text that arrives after its `generate`. */
  function OwnMessages(json: Json, before: seq<Event>, id: string, after: seq<Event>): seq<Message> {
    Own(id, MessagesIn(json, RunEvents(json, STARTED, before).buf + StdoutText(after)))
  }

  /** The stream of the `generate` between the two parts of a run. */
  function StreamAfter(json: Json, before: seq<Event>, id: string, after: seq<Event>): Option<EventQueue> {
    var g := |RunEvents(json, STARTED, before).queues|;
    var e := RunEvents(json, STARTED, before + [Other(Call(id))] + after);
    if g < |e.queues| then Some(e.queues[g]) else None
  }

  predicate Uninterrupted(id: string, events: seq<Event>) {
    forall ev | ev in events && ev.Other? :: !ev.signal.Exits? && ev.signal != Call(id)
  }

  /** What a stream holds at the end of any run, however the output was cut and whatever else went on:
      a prefix of the messages carrying its id in the text that arrived after its `generate`, and all of
      them unless an exit or another `generate` for the id cut it short. */
  lemma StreamFromText(json: Json, before: seq<Event>, id: string, after: seq<Event>)
    requires !RunEvents(json, STARTED, before).closed
    ensures var q, v, own := StreamAfter(json, before, id, after), ViewOf(json, before, id, after),
        OwnMessages(json, before, id, after);
            && q.Some? && q.value.Valid() && Shows(q.value, [], v)
            && WithinOwn(v, own)
            && (Uninterrupted(id, after) ==>
                 v == View(own, if own != [] && Terminal(own[|own| - 1]) then Ended else Open))
  {
    hide SplitBy, OccursAt, Shows, Queue.Valid, MessagesIn, RunEvents, RunActions, StreamView, Own, StdoutText,
         WithinOwn, Uninterrupted;
    var call := [Other(Call(id))];
    var past := Actions(json, "", before);
    var buf := BufferAfter("", before);
    var future := Actions(json, buf, after);
    ActionsAppend(json, "", before, call + after);
    assert before + call + after == before + (call + after);
    assert (call + after)[1..] == after;
    assert Actions(json, buf, call + after) == [Call(id)] + future;
    assert past + ([Call(id)] + future) == past + [Call(id)] + future;
    EventsAreActions(json, STARTED, before);
    EventsAreActions(json, STARTED, before + call + after);
    StreamGetsItsMessages(past, id, future);
    ViewWithinOwn(id, future);
    BufferHasNoNewline("", before);
    HandlesWholeText(json, buf, after);
    if Uninterrupted(id, after) {
      UninterruptedActions(json, buf, after, id);
      ViewIsOwn(id, future);
    }
  }

  lemma UninterruptedActions(json: Json, buf: string, after: seq<Event>, id: string)
    requires Uninterrupted(id, after)
    ensures forall a | a in Actions(json, buf, after) :: !a.Exits? && a != Call(id)
  {
    SignalsOnly(json, buf, after, id);
  }

  /** End to end: for every way the engine's output was cut, every interleaving with other
      generations, exits after the answer included, and every clock: if the stream ends with `done`, the
      posts succeed and the loop has read its stream to the end, then the batches posted for the job
      are, in order, the translation of exactly that generation's messages, and no event stays buffered. */
  lemma PipelineIsFaithful(json: Json, before: seq<Event>, id: string, after: seq<Event>, ctx: Context, world: World,
                           start: int)
    requires !RunEvents(json, STARTED, before).closed
    requires ViewOf(json, before, id, after).ending.Ended?
    requires var own := OwnMessages(json, before, id, after);
             own != [] && HasType(own[|own| - 1], "done")
    requires forall i: nat :: world(i).ok
    ensures var q := StreamAfter(json, before, id, after);
            q.Some? && FaithfulJob(q.value, OwnMessages(json, before, id, after), ctx, world, start)
  {
    hide RunEvents, MessagesIn, FaithfulJob, Queue.Valid, ViewOf, StreamAfter, Uninterrupted;
    StreamFromText(json, before, id, after);
    var own := OwnMessages(json, before, id, after);
    assert [] + own == own;
    OwnShape(id, MessagesIn(json, RunEvents(json, STARTED, before).buf + StdoutText(after)));
    JobIsFaithful(StreamAfter(json, before, id, after).value, own, ctx, world, start);
  }

  /** Without an exit and without another `generate` for the id, a generation whose messages reach a
      `done` or `error` has ended. */
  lemma UninterruptedEnds(json: Json, before: seq<Event>, id: string, after: seq<Event>)
    requires !RunEvents(json, STARTED, before).closed && Uninterrupted(id, after)
    requires var own := OwnMessages(json, before, id, after);
             own != [] && Terminal(own[|own| - 1])
    ensures ViewOf(json, before, id, after).ending.Ended?
  {
    hide RunEvents, MessagesIn, ViewOf, StreamAfter, Uninterrupted, OwnMessages;
    StreamFromText(json, before, id, after);
  }

  /** Once its reader has been told the end, the job has posted the translation of `own` and nothing
      else, and has counted its tokens. */
  ghost predicate FaithfulJob(q: EventQueue, own: seq<Message>, ctx: Context, world: World, start: int) {
    |own| < q.tickets ==>
      var (b, r) := Execute(ctx, world, 0, Buffer([], start, []), "", 0, ReadBack(q, 0), None);
      && |own| in q.settled && q.settled[|own|] == Done
      && Delivered(b.posts) == Translations(ctx, world, 0, "", own)
      && b.events == []
      && r.Returned? && r.tokenCount == TokenCount(own)
  }

  lemma JobIsFaithful(q: EventQueue, own: seq<Message>, ctx: Context, world: World, start: int)
    requires q.Valid() && q.accepted == own && q.closed && q.error == None
    requires own != [] && HasType(own[|own| - 1], "done")
    requires OnlyLastTerminal(own)
    requires forall i: nat :: world(i).ok
    ensures FaithfulJob(q, own, ctx, world, start)
  {
    hide Execute, Translations, Queue.Valid, TokenText, TokenCount;
    if |own| < q.tickets {
      ReaderSeesAccepted(q, 0);
      ReaderIsToldTheEnd(q);
      assert ReadBack(q, 0) == own;
      JobDelivers(ctx, world, start, own, None);
      ReturnedText(ctx, world, 0, Buffer([], start, []), "", 0, own);
      var b := Execute(ctx, world, 0, Buffer([], start, []), "", 0, own, None).0;
      assert Delivered(b.posts) + [] == Delivered(b.posts);
    }
  }

  /** When every post succeeds, what a job has delivered and what it still holds are the translation of
      what it read. */
  lemma JobDelivers(ctx: Context, world: World, start: int, msgs: seq<Message>, failure: Option<string>)
    requires forall i: nat :: world(i).ok
    ensures var b := Execute(ctx, world, 0, Buffer([], start, []), "", 0, msgs, failure).0;
            && Delivered(b.posts) + b.events == Translations(ctx, world, 0, "", msgs)
            && (failure.None? || (exists m :: m in msgs && HasType(m, "error")) ==> b.events == [])
  {
    hide Execute, Translations, HasType;
    var b0 := Buffer([], start, []);
    ExecuteConserves(ctx, world, 0, b0, "", 0, msgs, failure);
    PostsSucceed(ctx, world, 0, b0, "", 0, msgs, failure);
    AllDelivered(Execute(ctx, world, 0, b0, "", 0, msgs, failure).0.posts);
    assert Held(b0) == [];
    assert [] + Translations(ctx, world, 0, "", msgs) == Translations(ctx, world, 0, "", msgs);
  }

  // ---------- Answers that end badly ----------

  /** An engine error: the job has delivered everything up to the error, and throws its message. */
  ghost predicate RefusedJob(q: EventQueue, own: seq<Message>, ctx: Context, world: World, start: int)
    requires own != []
  {
    |own| <= q.tickets ==>
      var (b, r) := Execute(ctx, world, 0, Buffer([], start, []), "", 0, ReadBack(q, 0), None);
      && Delivered(b.posts) == Translations(ctx, world, 0, "", own)
      && b.events == []
      && r == Threw(Shown(Or(Get(own[|own| - 1], "message"), Str("engine error"))))
  }

  /** An exit: once its reader has been told, the job throws the exit's error; delivered and unposted
      events together are the translation of what arrived before, and the unposted ones are those
      waiting under the batching rule. */
  ghost predicate FailedJob(q: EventQueue, items: seq<Message>, error: string, ctx: Context, world: World, start: int) {
    |items| < q.tickets ==>
      var (b, r) := Execute(ctx, world, 0, Buffer([], start, []), "", 0, ReadBack(q, 0), Some(error));
      && |items| in q.settled && q.settled[|items|] == Rejected(error)
      && Delivered(b.posts) + b.events == Translations(ctx, world, 0, "", items)
      && |b.events| == Waiting(0, start, world, 0, |items|).0
      && r == Threw(error)
  }

  lemma {:induction false} ErrorThrows(ctx: Context, world: World, k: nat, b: Buffer, acc: string, tokens: nat,
                                       msgs: seq<Message>)
    requires msgs != [] && HasType(msgs[|msgs| - 1], "error") && OnlyLastTerminal(msgs)
    ensures Execute(ctx, world, k, b, acc, tokens, msgs, None).1
         == Threw(Shown(Or(Get(msgs[|msgs| - 1], "message"), Str("engine error"))))
    decreases |msgs|
  {
    hide HasType, Translate, Accumulate, Shown, Or, Buffer.Push, Buffer.Flush;
    if 1 < |msgs| {
      assert !Terminal(msgs[0]);
      var later := msgs[1..];
      assert later[|later| - 1] == msgs[|msgs| - 1];
      ErrorThrows(ctx, world, k + 1, b.Push(Translate(ctx, msgs[0], acc, world(k).iso), world(k)),
                  Accumulate(acc, msgs[0]),
                  Counted(msgs[0], tokens), later);
    }
  }

  lemma JobIsRefused(q: EventQueue, own: seq<Message>, ctx: Context, world: World, start: int)
    requires q.Valid() && q.accepted == own
    requires own != [] && HasType(own[|own| - 1], "error") && OnlyLastTerminal(own)
    requires forall i: nat :: world(i).ok
    ensures RefusedJob(q, own, ctx, world, start)
  {
    hide Execute, Translations, Queue.Valid, HasType;
    if |own| <= q.tickets {
      ReaderSeesAccepted(q, 0);
      assert ReadBack(q, 0) == own;
      JobDelivers(ctx, world, start, own, None);
      ErrorThrows(ctx, world, 0, Buffer([], start, []), "", 0, own);
      var b := Execute(ctx, world, 0, Buffer([], start, []), "", 0, own, None).0;
      assert Delivered(b.posts) + [] == Delivered(b.posts);
    }
  }

  lemma ReaderIsToldTheError(q: EventQueue, error: string)
    requires q.Valid() && q.closed && q.error == Some(error) && |q.accepted| < q.tickets
    ensures |q.accepted| in q.settled && q.settled[|q.accepted|] == Rejected(error)
  {
  }

  lemma JobFails(q: EventQueue, items: seq<Message>, error: string, ctx: Context, world: World, start: int)
    requires q.Valid() && q.accepted == items && q.closed && q.error == Some(error)
    requires NoError(items)
    requires forall i: nat :: world(i).ok
    ensures FailedJob(q, items, error, ctx, world, start)
  {
    hide Execute, Translations, Queue.Valid, HasType, Waiting;
    if |items| < q.tickets {
      ReaderSeesAccepted(q, 0);
      ReaderIsToldTheError(q, error);
      assert ReadBack(q, 0) == items;
      JobDelivers(ctx, world, start, items, Some(error));
      LeftUnposted(ctx, world, 0, Buffer([], start, []), "", 0, items, error);
    }
  }

  /** End to end for the answers that do not end with `done`: an engine error, or an exit before the end. */
  lemma PipelineFailsFaithfully(json: Json, before: seq<Event>, id: string, after: seq<Event>, ctx: Context,
                                world: World, start: int)
    requires !RunEvents(json, STARTED, before).closed
    requires forall i: nat :: world(i).ok
    ensures var q, v, own := StreamAfter(json, before, id, after), ViewOf(json, before, id, after),
        OwnMessages(json, before, id, after);
            && q.Some? && v.items <= own
            && (v.ending.Ended? ==>
                  && v.items == own && own != []
                  && (HasType(own[|own| - 1], "done") || RefusedJob(q.value, own, ctx, world, start)))
            && (v.ending.Failed? ==> FailedJob(q.value, v.items, v.ending.error, ctx, world, start))
  {
    hide RunEvents, MessagesIn, FailedJob, RefusedJob, Queue.Valid, ViewOf, StreamAfter, Uninterrupted, HasType,
         StdoutText;
    StreamFromText(json, before, id, after);
    var q, v, own := StreamAfter(json, before, id, after).value, ViewOf(json, before, id, after),
        OwnMessages(json, before, id, after);
    assert [] + v.items == v.items;
    if v.ending.Ended? {
      OwnShape(id, MessagesIn(json, RunEvents(json, STARTED, before).buf + StdoutText(after)));
      if HasType(own[|own| - 1], "error") {
        JobIsRefused(q, own, ctx, world, start);
      }
    } else if v.ending.Failed? {
      JobFails(q, v.items, v.ending.error, ctx, world, start);
    }
  }
}
