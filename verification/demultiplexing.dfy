/** What the engine process guarantees over all interleavings of stdout chunks, `generate` calls,
    reads, process errors and exit. */
module Demultiplexing {
  import opened Options
  import opened Text
  import opened Messages
  import opened Protocol
  import opened AsyncQueues
  import opened Engine

  /** An atomic step: one decoded message handled, or one call or signal. */
  datatype Action =
    | Receive(m: Message)
    | Call(id: string)
    | Exits(error: string)
    | Errs(error: string)
    | Reads(g: nat)

  /** Everything but a message, which can only arrive through stdout. */
  type Signal = a: Action | !a.Receive? witness Reads(0)

  datatype Event = Stdout(chunk: string) | Other(signal: Signal)

  function Act(e: State, a: Action): State {
    match a
    case Receive(m) => e.OnMessage(m)
    case Call(id) => e.Generate(id)
    case Exits(error) => e.OnExit(error)
    case Errs(error) => e.OnChildError(error)
    case Reads(g) => e.Read(g)
  }

  function RunActions(e: State, acts: seq<Action>): State
    decreases |acts|
  {
    if acts == [] then e else RunActions(Act(e, acts[0]), acts[1..])
  }

  function RunEvents(json: Json, e: State, events: seq<Event>): State
    decreases |events|
  {
    if events == [] then e
    else match events[0]
      case Stdout(chunk) => RunEvents(json, e.OnStdout(json, chunk), events[1..])
      case Other(a) => RunEvents(json, Act(e, a), events[1..])
  }

  // ---------- Chunks become messages ----------

  function Receives(msgs: seq<Message>): seq<Action> {
    seq(|msgs|, i requires 0 <= i < |msgs| => Receive(msgs[i]))
  }

  /** The atomic steps a run of events amounts to, given the text already buffered. */
  function Actions(json: Json, buf: string, events: seq<Event>): seq<Action>
    decreases |events|
  {
    if events == [] then []
    else match events[0]
      case Stdout(chunk) =>
        Receives(MessagesIn(json, buf + chunk)) + Actions(json, SplitBy(buf + chunk, "\n").rest, events[1..])
      case Other(a) => [a] + Actions(json, buf, events[1..])
  }

  function BufferAfter(buf: string, events: seq<Event>): string
    decreases |events|
  {
    if events == [] then buf
    else match events[0]
      case Stdout(chunk) => BufferAfter(SplitBy(buf + chunk, "\n").rest, events[1..])
      case Other(a) => BufferAfter(buf, events[1..])
  }

  function StdoutText(events: seq<Event>): string {
    if events == [] then ""
    else (match events[0] case Stdout(chunk) => chunk case Other(_) => "") + StdoutText(events[1..])
  }

  function MessagesOf(acts: seq<Action>): seq<Message> {
    if acts == [] then []
    else (match acts[0] case Receive(m) => [m] case _ => []) + MessagesOf(acts[1..])
  }

  lemma {:induction false} RunAppend(e: State, a: seq<Action>, b: seq<Action>)
    ensures RunActions(e, a + b) == RunActions(RunActions(e, a), b)
    decreases |a|
  {
    if a == [] {
      assert a + b == b;
    } else {
      assert (a + b)[1..] == a[1..] + b;
      RunAppend(Act(e, a[0]), a[1..], b);
    }
  }

  lemma {:induction false} RunIgnoresBuffer(e: State, acts: seq<Action>, buf: string)
    ensures RunActions(e.(buf := buf), acts) == RunActions(e, acts).(buf := buf)
    decreases |acts|
  {
    if acts != [] {
      RunIgnoresBuffer(Act(e, acts[0]), acts[1..], buf);
      assert Act(e.(buf := buf), acts[0]) == Act(e, acts[0]).(buf := buf);
    }
  }

  lemma {:induction false} ReceivesAreOnMessages(e: State, msgs: seq<Message>)
    ensures RunActions(e, Receives(msgs)) == e.OnMessages(msgs)
    decreases |msgs|
  {
    if msgs != [] {
      assert Receives(msgs)[1..] == Receives(msgs[1..]);
      ReceivesAreOnMessages(e.OnMessage(msgs[0]), msgs[1..]);
    }
  }

  lemma {:induction false} EventsAreActions(json: Json, e: State, events: seq<Event>)
    ensures RunEvents(json, e, events)
        == RunActions(e, Actions(json, e.buf, events)).(buf := BufferAfter(e.buf, events))
    decreases |events|
  {
    if events != [] {
      match events[0] {
        case Stdout(chunk) =>
          var text := e.buf + chunk;
          var rest := SplitBy(text, "\n").rest;
          var now := Receives(MessagesIn(json, text));
          var later := Actions(json, rest, events[1..]);
          ReceivesAreOnMessages(e.(buf := rest), MessagesIn(json, text));
          RunIgnoresBuffer(e, now, rest);
          RunAppend(e, now, later);
          RunIgnoresBuffer(RunActions(e, now), later, rest);
          EventsAreActions(json, e.OnStdout(json, chunk), events[1..]);
        case Other(a) =>
          assert Act(e, a).buf == e.buf;
          assert ([a] + Actions(json, e.buf, events[1..]))[1..] == Actions(json, e.buf, events[1..]);
          EventsAreActions(json, Act(e, a), events[1..]);
      }
    }
  }

  lemma {:induction false} MessagesOfAppend(a: seq<Action>, b: seq<Action>)
    ensures MessagesOf(a + b) == MessagesOf(a) + MessagesOf(b)
  {
    if a == [] {
      assert a + b == b;
    } else {
      assert (a + b)[1..] == a[1..] + b;
      MessagesOfAppend(a[1..], b);
    }
  }

  lemma {:induction false} MessagesOfReceives(msgs: seq<Message>)
    ensures MessagesOf(Receives(msgs)) == msgs
  {
    if msgs != [] {
      assert Receives(msgs)[1..] == Receives(msgs[1..]);
      MessagesOfReceives(msgs[1..]);
    }
  }

  /** Whatever the chunking and whatever happens between the chunks, the engine handles exactly the
      messages of the whole text it was sent, in order. */
  lemma {:induction false} HandlesWholeText(json: Json, buf: string, events: seq<Event>)
    requires '\n' !in buf
    ensures MessagesOf(Actions(json, buf, events)) == MessagesIn(json, buf + StdoutText(events))
    decreases |events|
  {
    hide SplitBy, OccursAt, MessagesIn, IndexOf;
    if events == [] {
      NothingComplete(json, buf);
      assert buf + "" == buf;
    } else {
      match events[0] {
        case Stdout(chunk) =>
          var rest := SplitBy(buf + chunk, "\n").rest;
          NoNewline(rest);
          HandlesWholeText(json, rest, events[1..]);
          MessagesAppend(json, buf + chunk, StdoutText(events[1..]));
          assert StdoutText(events) == chunk + StdoutText(events[1..]);
          assert buf + chunk + StdoutText(events[1..]) == buf + StdoutText(events);
          MessagesOfAppend(Receives(MessagesIn(json, buf + chunk)), Actions(json, rest, events[1..]));
          MessagesOfReceives(MessagesIn(json, buf + chunk));
        case Other(a) =>
          HandlesWholeText(json, buf, events[1..]);
          assert "" + StdoutText(events[1..]) == StdoutText(events[1..]);
          MessagesOfAppend([a], Actions(json, buf, events[1..]));
      }
    }
  }

  // ---------- What a stream gets ----------

  datatype Ending = Open | Ended | Failed(error: string) | Replaced

  /** The messages of one stream and how it ends. */
  datatype View = View(items: seq<Message>, ending: Ending)

  predicate Carries(m: Message, id: string) {
    !EngineLevel(m) && IdOf(m) == Some(id)
  }

  /** The specification of a stream, in terms of what happens after its `generate`: the messages that
      carry its id through the first `done` or `error`, unless the engine exits or the id is taken over
      by another `generate` first. */
  function StreamView(id: string, acts: seq<Action>): View {
    if acts == [] then View([], Open)
    else
      match acts[0]
      case Receive(m) =>
        if !Carries(m, id) then StreamView(id, acts[1..])
        else if Terminal(m) then View([m], Ended)
        else var later := StreamView(id, acts[1..]); later.(items := [m] + later.items)
      case Call(other) => if other == id then View([], Replaced) else StreamView(id, acts[1..])
      case Exits(error) => View([], Failed(error))
      case _ => StreamView(id, acts[1..])
  }

  predicate Shows(q: EventQueue, before: seq<Message>, v: View) {
    && q.accepted == before + v.items
    && match v.ending
       case Open => !q.closed
       case Ended => q.closed && q.error == None
       case Failed(error) => q.closed && q.error == Some(error)
       case Replaced => !q.closed
  }

  lemma {:induction false} RunKeepsValid(e: State, acts: seq<Action>)
    requires e.Valid()
    ensures RunActions(e, acts).Valid()
    decreases |acts|
  {
    if acts != [] {
      ActKeepsValid(e, acts[0]);
      RunKeepsValid(Act(e, acts[0]), acts[1..]);
    }
  }

  lemma ReceiveKeepsValid(e: State, m: Message)
    requires e.Valid()
    ensures e.OnMessage(m).Valid()
    ensures |e.queues| == |e.OnMessage(m).queues|
  {
    hide Queue.Valid, Queue.Push, Queue.End;
    if !EngineLevel(m) && e.Target(m).Some? {
      var g := e.Target(m).value;
      PushKeepsValid(e.queues[g], m);
      ClosingKeepsValid(e.queues[g].Push(m));
      PushKeepsOpen(e.queues[g], m);
    }
  }

  lemma PushKeepsOpen(q: EventQueue, m: Message)
    ensures q.Push(m).closed == q.closed
  {
  }

  lemma ExitKeepsValid(e: State, error: string)
    requires e.Valid()
    ensures e.OnExit(error).Valid()
  {
    hide Queue.Valid, Queue.Fail;
    forall g | 0 <= g < |e.queues| ensures e.queues[g].Fail(error).Valid() { ClosingKeepsValid(e.queues[g]); }
  }

  lemma CallKeepsValid(e: State, id: string)
    requires e.Valid()
    ensures e.Generate(id).Valid()
  {
    assert Empty<Message>().Valid();
    hide Queue.Valid;
  }

  lemma ReadKeepsValid(e: State, g: nat)
    requires e.Valid()
    ensures e.Read(g).Valid()
  {
    hide Queue.Valid;
    if g < |e.queues| { NextKeepsValid(e.queues[g]); }
  }

  lemma ActKeepsValid(e: State, a: Action)
    requires e.Valid()
    ensures Act(e, a).Valid()
    ensures |e.queues| <= |Act(e, a).queues|
  {
    hide State.OnMessage, Queue.Valid;
    match a
    case Receive(m) => ReceiveKeepsValid(e, m);
    case Call(id) => CallKeepsValid(e, id);
    case Exits(error) => ExitKeepsValid(e, error);
    case Errs(error) =>
    case Reads(g) => ReadKeepsValid(e, g);
  }

  /** One step leaves alone every stream it does not concern, up to the reader's own reads. */
  lemma StepIsLocal(e: State, a: Action, g: nat)
    requires e.Valid() && g < |e.queues|
    requires a.Receive? && !EngineLevel(a.m) ==> e.Target(a.m) != Some(g)
    requires a.Exits? ==> g !in e.live.Values
    ensures g < |Act(e, a).queues|
    ensures var q, q' := e.queues[g], Act(e, a).queues[g];
            q'.accepted == q.accepted && q'.closed == q.closed && q'.error == q.error
  {
    hide Queue.Valid, Queue.Push, Queue.End;
  }

  lemma StaysLive(e: State, a: Action, id: string)
    requires e.Valid() && id in e.live && a != Call(id) && !a.Exits?
    requires a.Receive? && !EngineLevel(a.m) ==> IdOf(a.m) != Some(id)
    ensures id in Act(e, a).live && Act(e, a).live[id] == e.live[id]
  {
    hide Queue.Valid, Queue.Push, Queue.End;
  }

  lemma StaysDead(e: State, a: Action, g: nat)
    requires e.Valid() && g < |e.queues| && g !in e.live.Values
    ensures g !in Act(e, a).live.Values
  {
    hide Queue.Valid, Queue.Push, Queue.End;
    forall id | id in Act(e, a).live ensures Act(e, a).live[id] != g {
      if id in e.live { assert e.live[id] in e.live.Values; }
    }
  }

  /** A stream no id leads to any more never changes, except by being read. */
  lemma {:induction false} DeadStreamIsFrozen(e: State, acts: seq<Action>, g: nat)
    requires e.Valid() && g < |e.queues| && g !in e.live.Values
    ensures var q, q' := e.queues[g], RunActions(e, acts).queues;
            g < |q'| && q'[g].accepted == q.accepted && q'[g].closed == q.closed && q'[g].error == q.error
    decreases |acts|
  {
    if acts != [] {
      var a := acts[0];
      if a.Receive? && e.Target(a.m).Some? {
        assert e.live[IdOf(a.m).value] in e.live.Values;
      }
      ActKeepsValid(e, a);
      StepIsLocal(e, a, g);
      StaysDead(e, a, g);
      DeadStreamIsFrozen(Act(e, a), acts[1..], g);
    }
  }

  /** A live stream gets exactly what its specification says. */
  lemma {:induction false} LiveStreamGetsItsMessages(e: State, acts: seq<Action>, id: string)
    requires e.Valid() && id in e.live
    ensures var g := e.live[id];
            g < |RunActions(e, acts).queues|
            && Shows(RunActions(e, acts).queues[g], e.queues[g].accepted, StreamView(id, acts))
    decreases |acts|
  {
    hide Queue.Valid, State.OnMessage, State.OnExit, State.Generate, Queue.Push;
    var g := e.live[id];
    var had := e.queues[g].accepted;
    assert had + [] == had;
    if acts != [] {
      var a, later := acts[0], acts[1..];
      var e' := Act(e, a);
      ActKeepsValid(e, a);
      if a.Receive? && Carries(a.m, id) {
        ReceiveOwn(e, a.m, id);
        if Terminal(a.m) {
          DeadStreamIsFrozen(e', later, g);
        } else {
          LiveStreamGetsItsMessages(e', later, id);
          assert had + [a.m] + StreamView(id, later).items == had + ([a.m] + StreamView(id, later).items);
        }
      } else if a == Call(id) {
        CallReplaces(e, id);
        DeadStreamIsFrozen(e', later, g);
      } else if a.Exits? {
        ExitFails(e, a.error, id);
        DeadStreamIsFrozen(e', later, g);
      } else {
        StepIsLocal(e, a, g);
        StaysLive(e, a, id);
        LiveStreamGetsItsMessages(e', later, id);
      }
    }
  }

  /** A message of its own: appended, and the last one ends the stream. */
  lemma ReceiveOwn(e: State, m: Message, id: string)
    requires e.Valid() && id in e.live && Carries(m, id)
    ensures var g := e.live[id];
            var q := e.OnMessage(m).queues[g];
            && q.accepted == e.queues[g].accepted + [m]
            && if Terminal(m) then q.closed && q.error == None && g !in e.OnMessage(m).live.Values
               else !q.closed && e.OnMessage(m).live == e.live
  {
    hide Queue.Valid;
    var g := e.live[id];
    assert e.Target(m) == Some(g);
    assert e.queues[g].Valid() && e.queues[g].error == None by { OpenHasNoError(e.queues[g]); }
  }

  lemma OpenHasNoError(q: EventQueue)
    requires q.Valid() && !q.closed
    ensures q.error == None
  {
  }

  lemma ExitFails(e: State, error: string, id: string)
    requires e.Valid() && id in e.live
    ensures var g := e.live[id];
            var e' := e.OnExit(error);
            && e'.live == map[]
            && g < |e'.queues| && e'.queues[g].accepted == e.queues[g].accepted
            && e'.queues[g].closed && e'.queues[g].error == Some(error)
  {
    hide Queue.Valid;
    assert e.live[id] in e.live.Values;
  }

  lemma CallReplaces(e: State, id: string)
    requires e.Valid() && id in e.live
    ensures e.live[id] !in e.Generate(id).live.Values
    ensures e.Generate(id).queues[e.live[id]] == e.queues[e.live[id]]
  {
    var e' := e.Generate(id);
    assert !e.closed;
    assert forall j | j in e'.live :: e'.live[j] != e.live[id];
  }

  /** Over every history: the stream created by a `generate` on an open engine holds exactly the
      messages its specification lists, and is open, ended or failed as that says. */
  lemma StreamGetsItsMessages(before: seq<Action>, id: string, after: seq<Action>)
    requires !RunActions(STARTED, before).closed
    ensures var g := |RunActions(STARTED, before).queues|;
            var e := RunActions(STARTED, before + [Call(id)] + after);
            g < |e.queues| && e.queues[g].Valid() && Shows(e.queues[g], [], StreamView(id, after))
  {
    var e0 := RunActions(STARTED, before);
    var e1 := e0.Generate(id);
    RunAppend(STARTED, before, [Call(id)]);
    RunAppend(STARTED, before + [Call(id)], after);
    assert RunActions(e0, [Call(id)]) == e1 by { assert [Call(id)][1..] == []; }
    RunKeepsValid(STARTED, before);
    ActKeepsValid(e0, Call(id));
    RunKeepsValid(e1, after);
    LiveStreamGetsItsMessages(e1, after, id);
  }

  /** The steps that concern the stream of an id. */
  function Concerning(id: string, acts: seq<Action>): seq<Action> {
    if acts == [] then []
    else
      (match acts[0]
       case Receive(m) => if Carries(m, id) then [acts[0]] else []
       case Call(other) => if other == id then [acts[0]] else []
       case Exits(_) => [acts[0]]
       case _ => []) + Concerning(id, acts[1..])
  }

  /** Isolation: a stream depends on nothing but its own messages, its own id and the exit. */
  lemma {:induction false} StreamsAreIsolated(id: string, acts: seq<Action>)
    ensures StreamView(id, acts) == StreamView(id, Concerning(id, acts))
  {
    if acts != [] {
      StreamsAreIsolated(id, acts[1..]);
      var own := Concerning(id, acts[1..]);
      assert ([acts[0]] + own)[1..] == own;
      assert [] + own == own;
    }
  }

  /** Readiness settles at most once. */
  lemma {:induction false} ReadySettlesOnce(e: State, acts: seq<Action>)
    requires !e.ready.Awaited?
    ensures RunActions(e, acts).ready == e.ready
    decreases |acts|
  {
    if acts != [] {
      ReadySettlesOnce(Act(e, acts[0]), acts[1..]);
    }
  }

  /** After an exit no stream is ever live again and readiness has settled, whatever comes later. */
  lemma {:induction false} ExitIsFinal(e: State, acts: seq<Action>)
    requires e.Valid() && acts != [] && (acts[0].Exits? || e.closed)
    ensures var e' := RunActions(e, acts);
            e'.closed && e'.live == map[] && !e'.ready.Awaited?
    decreases |acts|
  {
    ActKeepsValid(e, acts[0]);
    if 1 < |acts| {
      ExitIsFinal(Act(e, acts[0]), acts[1..]);
    }
  }
}
