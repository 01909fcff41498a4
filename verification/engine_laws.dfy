/** What messages mean to the engine process, in terms of their own properties, and what settles
    readiness over every history. */
module EngineLaws {
  import opened Options
  import Decimal
  import opened Messages
  import opened AsyncQueues
  import opened Engine
  import opened Demultiplexing

  /** A message belongs to the generation it names, unless it is a `ready` or a `log`. */
  lemma CarriesIs(m: Message, id: string)
    ensures Carries(m, id) <==> id != "" && Get(m, "id") == Some(Str(id))
                                && Get(m, "type") != Some(Str("ready")) && Get(m, "type") != Some(Str("log"))
  {
  }

  /** A generation is ended by `done` or `error`, and by nothing else. */
  lemma TerminalIs(m: Message)
    ensures Terminal(m) <==> Get(m, "type") == Some(Str("done")) || Get(m, "type") == Some(Str("error"))
  {
  }

  /** The error text of a message: its own, a number printed, or a default when there is none. */
  lemma StartErrorIs(m: Message)
    ensures match Get(m, "message")
            case None => StartError(m) == "engine error during start"
            case Some(Null) => StartError(m) == "engine error during start"
            case Some(Str(s)) => StartError(m) == s
            case Some(Num(n)) => StartError(m) == Decimal.Print(n)
  {
  }

  /** The specification of readiness, in terms of what happens while it is awaited; `live` are the ids whose
      generations are running. A `ready` resolves it, an error nobody else gets refuses it, and so do a
      process error and the exit. */
  function ReadyOver(live: set<string>, acts: seq<Action>): Ready
    decreases |acts|, 0
  {
    if acts == [] then Awaited
    else
      match acts[0]
      case Call(id) => ReadyOver(live + {id}, acts[1..])
      case Exits(error) => Refused(error)
      case Errs(error) => Refused(error)
      case Reads(_) => ReadyOver(live, acts[1..])
      case Receive(m) =>
        var kind := Get(m, "type");
        if kind == Some(Str("ready")) then Resolved(m)
        else if kind == Some(Str("log")) then ReadyOver(live, acts[1..])
        else
          match Get(m, "id")
          case Some(Str(id)) =>
            if id != "" && id in live then
              ReadyOver(if kind == Some(Str("done")) || kind == Some(Str("error")) then live - {id}
                  else live, acts[1..])
            else AtEngine(m, live, acts[1..])
          case _ => AtEngine(m, live, acts[1..])
  }

  /** A message no running generation gets. */
  function AtEngine(m: Message, live: set<string>, later: seq<Action>): Ready
    decreases |later|, 1
  {
    if Get(m, "type") == Some(Str("error")) then Refused(StartError(m)) else ReadyOver(live, later)
  }

  /** Over every history readiness is what its specification says. */
  lemma ReadinessIsSettled(acts: seq<Action>)
    ensures RunActions(STARTED, acts).ready == ReadyOver({}, acts)
  {
    assert STARTED.live.Keys == {};
    ReadinessFrom(STARTED, acts);
  }

  lemma {:induction false} ReadinessFrom(e: State, acts: seq<Action>)
    requires e.Valid() && e.ready.Awaited?
    ensures RunActions(e, acts).ready == ReadyOver(e.live.Keys, acts)
    decreases |acts|
  {
    hide Act, ReadyOver;
    if acts == [] {
      NothingYet(e.live.Keys);
    } else {
      var e' := Act(e, acts[0]);
      ActKeepsValid(e, acts[0]);
      StepSettles(e, acts);
      if e'.ready.Awaited? {
        ReadinessFrom(e', acts[1..]);
      } else {
        ReadySettlesOnce(e', acts[1..]);
      }
    }
  }

  lemma NothingYet(live: set<string>)
    ensures ReadyOver(live, []) == Awaited
  {
  }

  /** One step while readiness is awaited. */
  lemma StepSettles(e: State, acts: seq<Action>)
    requires e.Valid() && e.ready.Awaited? && acts != []
    ensures var e' := Act(e, acts[0]);
            ReadyOver(e.live.Keys, acts) == if e'.ready.Awaited? then ReadyOver(e'.live.Keys, acts[1..]) else e'.ready
  {
    hide Queue.Valid, Queue.Push, Queue.End, Queue.Next, Queue.Fail, StartError;
    match acts[0]
    case Receive(m) => MessageSettles(e, m, acts);
    case Call(id) => assert Act(e, acts[0]).live.Keys == e.live.Keys + {id};
    case _ =>
  }

  lemma MessageSettles(e: State, m: Message, acts: seq<Action>)
    requires e.Valid() && e.ready.Awaited? && acts != [] && acts[0] == Receive(m)
    ensures var e' := e.OnMessage(m);
            ReadyOver(e.live.Keys, acts) == if e'.ready.Awaited? then ReadyOver(e'.live.Keys, acts[1..]) else e'.ready
  {
    hide Queue.Valid, Queue.Push, Queue.End, StartError, Get;
    TerminalIs(m);
    if e.Target(m).Some? && Terminal(m) && !EngineLevel(m) {
      assert e.OnMessage(m).live.Keys == e.live.Keys - {IdOf(m).value};
    }
  }
}
