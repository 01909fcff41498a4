/** packages/engine/src/engine-process.js: one engine process, many generations on one stdout. */
module Engine {
  import opened Options
  import opened Text
  import opened Messages
  import opened Protocol
  import opened AsyncQueues

  type EventQueue = Queue<Message>

  /** The promise `start()` returned: `_readyResolve` and `_readyReject` are set while it is Awaited. */
  datatype Ready = Awaited | Resolved(m: Message) | Refused(error: string) {
    function Refuse(err: string): Ready {
      if Awaited? then Refused(err) else this
    }
  }

  predicate HasType(m: Message, t: string) {
    Get(m, "type") == Some(Str(t))
  }

  /** A message for the engine as a whole, never handed to a stream. */
  predicate EngineLevel(m: Message) {
    HasType(m, "ready") || HasType(m, "log")
  }

  predicate Terminal(m: Message) {
    HasType(m, "done") || HasType(m, "error")
  }

  /** The id a message carries; an empty one counts as none. */
  function IdOf(m: Message): Option<string> {
    match Get(m, "id")
    case Some(Str(id)) => if id == "" then None else Some(id)
    case _ => None
  }

  /** What readiness is refused with on an engine-level error: `msg.message ?? …`, as an error's text. */
  function StartError(m: Message): string {
    Shown(Or(Get(m, "message"), Str("engine error during start")))
  }

  function FailLive(queues: seq<EventQueue>, live: set<nat>, error: string): seq<EventQueue> {
    seq(|queues|, g requires 0 <= g < |queues| => if g in live then queues[g].Fail(error) else queues[g])
  }

  /** A started engine. Generations are numbered in the order of the `generate` calls; `live` is the
      `streams` map, from ids to those numbers. */
  datatype State = State(
    buf: string,
    queues: seq<EventQueue>,
    live: map<string, nat>,
    closed: bool,
    ready: Ready)
  {
    /** The stream a message goes to. */
    function Target(m: Message): Option<nat> {
      match IdOf(m)
      case Some(id) => if id in live && live[id] < |queues| then Some(live[id]) else None
      case None => None
    }

    function OnMessage(m: Message): State {
      if HasType(m, "ready") then
        if ready.Awaited? then this.(ready := Resolved(m)) else this
      else if HasType(m, "log") then this
      else if Target(m).Some? then
        var g := Target(m).value;
        var q := queues[g].Push(m);
        if Terminal(m) then this.(queues := queues[g := q.End()], live := live - {IdOf(m).value})
        else this.(queues := queues[g := q])
      else if HasType(m, "error") then this.(ready := ready.Refuse(StartError(m)))
      else this
    }

    function OnMessages(msgs: seq<Message>): State
      decreases |msgs|
    {
      if msgs == [] then this else OnMessage(msgs[0]).OnMessages(msgs[1..])
    }

    function OnStdout(json: Json, chunk: string): State {
      var text := buf + chunk;
      this.(buf := SplitBy(text, "\n").rest).OnMessages(MessagesIn(json, text))
    }

    function OnExit(error: string): State {
      if closed then this
      else this.(closed := true, queues := FailLive(queues, live.Values, error), live := map[],
                 ready := ready.Refuse(error))
    }

    function OnChildError(error: string): State {
      this.(ready := ready.Refuse(error))
    }

    /** `generate`: throws on a closed engine, which changes nothing. */
    function Generate(id: string): State {
      if closed then this
      else this.(queues := queues + [Empty()], live := live[id := |queues|])
    }

    /** A reader's `next()` on the g-th stream. */
    function Read(g: nat): State {
      if g < |queues| then this.(queues := queues[g := queues[g].Next()]) else this
    }

    ghost predicate Valid() {
      && (forall id | id in live :: live[id] < |queues| && !queues[live[id]].closed)
      && (forall i, j | i in live && j in live && i != j :: live[i] != live[j])
      && (closed ==> live == map[] && !ready.Awaited?)
      && (forall g | 0 <= g < |queues| :: queues[g].Valid())
    }
  }

  const STARTED := State("", [], map[], false, Awaited)

  // ---------- The class ----------

  class EngineProcess {
    const splitter: NdjsonSplitter
    var streams: map<string, AsyncQueue<Message>>
    var closed: bool
    var ready: Ready
    ghost var issued: seq<AsyncQueue<Message>>
    ghost var slot: map<string, nat>

    ghost predicate Valid()
      reads this
    {
      && (forall i, j | 0 <= i < j < |issued| :: issued[i] != issued[j])
      && slot.Keys == streams.Keys
      && (forall id | id in streams :: slot[id] < |issued| && issued[slot[id]] == streams[id])
      && (forall i, j | i in slot && j in slot && i != j :: slot[i] != slot[j])
      && (closed ==> streams == map[])
    }

    ghost function Queues(): (qs: seq<EventQueue>)
      reads this, issued
      ensures |qs| == |issued|
    {
      seq(|issued|, g requires 0 <= g < |issued| reads this, issued => issued[g].Model())
    }

    ghost function Model(): State
      reads this, splitter, issued
    {
      State(splitter.buf, Queues(), slot, closed, ready)
    }

    /** A constructed and started engine. */
    constructor (json: Json)
      ensures Valid() && Model() == STARTED && splitter.json == json && fresh(splitter) && issued == []
    {
      splitter := new NdjsonSplitter(json);
      streams, closed, ready := map[], false, Awaited;
      issued, slot := [], map[];
    }

    method OnMessage(msg: Message)
      requires Valid()
      modifies this, issued
      ensures Valid() && issued == old(issued)
      ensures Model() == old(Model()).OnMessage(msg)
    {
      hide HasType, IdOf, Terminal, Queue.Push, Queue.End, StartError;
      if HasType(msg, "ready") {
        if ready.Awaited? {
          ready := Resolved(msg);
        }
        return;
      }
      if HasType(msg, "log") {
        return;
      }
      var id := IdOf(msg);
      if id.Some? && id.value in streams {
        var q := streams[id.value];
        ghost var g := slot[id.value];
        assert Model().Target(msg) == Some(g);
        q.Push(msg);
        if Terminal(msg) {
          q.End();
          Forget(id.value);
        }
        assert Queues() == old(Queues())[g := q.Model()];
        return;
      }
      if HasType(msg, "error") && ready.Awaited? {
        ready := Refused(StartError(msg));
      }
    }

    /** `streams.delete(id)` */
    method Forget(id: string)
      requires Valid()
      modifies this`streams, this`slot
      ensures Valid() && streams == old(streams) - {id} && slot == old(slot) - {id}
    {
      streams := streams - {id};
      slot := slot - {id};
    }

    method OnStdout(chunk: string)
      requires Valid()
      modifies this, splitter, issued
      ensures Valid() && issued == old(issued)
      ensures Model() == old(Model()).OnStdout(splitter.json, chunk)
    {
      var msgs := splitter.Push(chunk);
      ghost var e := old(Model()).(buf := splitter.buf);
      assert Queues() == old(Queues());
      for i := 0 to |msgs|
        invariant Valid() && issued == old(issued)
        invariant Model().OnMessages(msgs[i..]) == e.OnMessages(msgs)
      {
        OnMessage(msgs[i]);
        assert msgs[i..][1..] == msgs[i + 1..];
      }
    }

    method OnExit(err: string)
      requires Valid()
      modifies this, issued
      ensures Valid() && issued == old(issued)
      ensures Model() == old(Model()).OnExit(err)
    {
      if closed {
        return;
      }
      closed := true;
      assert Queues() == old(Queues());
      FailStreams(err);
      streams := map[];
      slot := map[];
      if ready.Awaited? {
        ready := Refused(err);
      }
    }

    method FailStreams(err: string)
      requires forall i, j | 0 <= i < j < |issued| :: issued[i] != issued[j]
      requires slot.Keys == streams.Keys
      requires forall id | id in streams :: slot[id] < |issued| && issued[slot[id]] == streams[id]
      requires forall i, j | i in slot && j in slot && i != j :: slot[i] != slot[j]
      modifies issued
      ensures Queues() == FailLive(old(Queues()), slot.Values, err)
    {
      hide Queue.Fail;
      var pending := streams.Keys;
      ghost var was := Queues();
      ghost var failed: set<nat> := {};
      while pending != {}
        invariant pending <= slot.Keys
        invariant forall id | id in slot :: id in pending <==> slot[id] !in failed
        invariant failed <= slot.Values
        invariant forall g | 0 <= g < |issued| :: issued[g].Model() == if g in failed then was[g].Fail(err) else was[g]
        decreases pending
      {
        var id :| id in pending;
        var q := streams[id];
        ghost var g := slot[id];
        assert issued[g] == q && g in slot.Values && forall h | 0 <= h < |issued| && h != g :: issued[h] != q;
        q.Fail(err);
        pending := pending - {id};
        failed := failed + {g};
      }
      assert failed == slot.Values;
      assert Queues() == FailLive(was, slot.Values, err);
    }

    method OnChildError(err: string)
      requires Valid()
      modifies this
      ensures Valid() && issued == old(issued)
      ensures Model() == old(Model()).OnChildError(err)
    {
      if ready.Awaited? {
        ready := Refused(err);
      }
    }

    /** None stands for the exception thrown on a closed engine. */
    method Generate(id: string) returns (stream: Option<AsyncQueue<Message>>)
      requires Valid()
      modifies this
      ensures Valid() && stream.None? == old(closed)
      ensures stream.Some? ==> fresh(stream.value) && issued == old(issued) + [stream.value]
      ensures stream.None? ==> issued == old(issued)
      ensures Model() == old(Model()).Generate(id)
    {
      if closed {
        return None;
      }
      var q := new AsyncQueue<Message>();
      streams := streams[id := q];
      slot := slot[id := |issued|];
      issued := issued + [q];
      assert Queues() == old(Queues()) + [Empty()];
      stream := Some(q);
    }
  }
}
