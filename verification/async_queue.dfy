/** packages/engine/src/async-queue.js: the single-consumer queue behind every event stream. */
module AsyncQueues {
  import opened Options

  /** How the promise of one `next()` call settles. */
  datatype Outcome<T> = Yielded(value: T) | Done | Rejected(error: string)

  /** Settles the promises numbered `waiters`, first to last. */
  function SettleAll<T>(settled: map<nat, Outcome<T>>, waiters: seq<nat>, outcome: Outcome<T>): map<nat, Outcome<T>>
    decreases |waiters|
  {
    if waiters == [] then settled else SettleAll(settled[waiters[0] := outcome], waiters[1..], outcome)
  }

  /** The queue's fields, with the promises it handed out numbered in the order of the calls:
      `waiters` holds the numbers of the unsettled ones, `settled` the outcomes of the others.
      `accepted` records the values taken by `push`. */
  datatype Queue<T> = Queue(
    values: seq<T>,
    waiters: seq<nat>,
    closed: bool,
    error: Option<string>,
    tickets: nat,
    settled: map<nat, Outcome<T>>,
    accepted: seq<T>)
  {
    function Push(v: T): Queue<T> {
      if closed then this
      else if waiters != [] then
        this.(waiters := waiters[1..], settled := settled[waiters[0] := Yielded(v)], accepted := accepted + [v])
      else this.(values := values + [v], accepted := accepted + [v])
    }

    function End(): Queue<T> {
      if closed then this
      else this.(closed := true, waiters := [], settled := SettleAll(settled, waiters, Done))
    }

    function Fail(err: string): Queue<T> {
      if closed then this
      else this.(closed := true, error := Some(err), waiters := [],
                 settled := SettleAll(settled, waiters, Rejected(err)))
    }

    /** What a reader is told once everything accepted has been handed out. */
    function Final(): Outcome<T> {
      if error.Some? then Rejected(error.value) else Done
    }

    function Next(): Queue<T> {
      var q := this.(tickets := tickets + 1);
      if values != [] then q.(values := values[1..], settled := settled[tickets := Yielded(values[0])])
      else if closed then q.(settled := settled[tickets := Final()])
      else q.(waiters := waiters + [tickets])
    }

    /** How many promises have been given a value. */
    function Delivered(): nat {
      if tickets <= |accepted| then tickets else |accepted|
    }

    /** The k-th `next()` is answered with the k-th accepted value; the values still buffered are the
        accepted ones nobody has asked for; the promises past the last value wait while the queue is
        open and are told the end once it is closed. */
    ghost predicate Valid() {
      var d := Delivered();
      && values == accepted[d..]
      && waiters == (if closed then [] else seq(tickets - d, i => d + i))
      && (forall k: nat :: k in settled <==> k < (if closed then tickets else d))
      && (forall k: nat | k < d :: settled[k] == Yielded(accepted[k]))
      && (closed ==> forall k: nat | d <= k < tickets :: settled[k] == Final())
      && (!closed ==> error.None?)
    }
  }

  function Empty<T>(): Queue<T> {
    Queue([], [], false, None, 0, map[], [])
  }

  class AsyncQueue<T> {
    var values: seq<T>
    var waiters: seq<nat>
    var closed: bool
    var error: Option<string>
    var tickets: nat
    var settled: map<nat, Outcome<T>>
    ghost var accepted: seq<T>

    ghost function Model(): Queue<T>
      reads this
    {
      Queue(values, waiters, closed, error, tickets, settled, accepted)
    }

    constructor ()
      ensures Model() == Empty()
    {
      values, waiters, closed, error := [], [], false, None;
      tickets, settled, accepted := 0, map[], [];
    }

    method Push(v: T)
      modifies this
      ensures Model() == old(Model()).Push(v)
    {
      if closed {
        return;
      }
      accepted := accepted + [v];
      if waiters != [] {
        var w := waiters[0];
        waiters := waiters[1..];
        settled := settled[w := Yielded(v)];
      } else {
        values := values + [v];
      }
    }

    method Fail(err: string)
      modifies this
      ensures Model() == old(Model()).Fail(err)
    {
      if closed {
        return;
      }
      error := Some(err);
      closed := true;
      while waiters != []
        invariant SettleAll(settled, waiters, Rejected(err)) == SettleAll(old(settled), old(waiters), Rejected(err))
        invariant values == old(values) && closed && error == Some(err) && tickets == old(tickets)
            && accepted == old(accepted)
        decreases |waiters|
      {
        var w := waiters[0];
        waiters := waiters[1..];
        settled := settled[w := Rejected(err)];
      }
    }

    method End()
      modifies this
      ensures Model() == old(Model()).End()
    {
      if closed {
        return;
      }
      closed := true;
      while waiters != []
        invariant SettleAll(settled, waiters, Done) == SettleAll(old(settled), old(waiters), Done)
        invariant values == old(values) && closed && error == old(error) && tickets == old(tickets)
            && accepted == old(accepted)
        decreases |waiters|
      {
        var w := waiters[0];
        waiters := waiters[1..];
        settled := settled[w := Done];
      }
    }

    /** Returns the number of the promise; its outcome, when it has one, is in `settled`. */
    method Next() returns (ticket: nat)
      modifies this
      ensures ticket == old(tickets)
      ensures Model() == old(Model()).Next()
    {
      ticket := tickets;
      tickets := tickets + 1;
      if values != [] {
        settled := settled[ticket := Yielded(values[0])];
        values := values[1..];
      } else if closed {
        settled := settled[ticket := if error.Some? then Rejected(error.value) else Done];
      } else {
        waiters := waiters + [ticket];
      }
    }
  }

  // ---------- Whole runs ----------

  datatype Op<T> = PushOp(v: T) | EndOp | FailOp(err: string) | NextOp

  function Apply<T>(q: Queue<T>, op: Op<T>): Queue<T> {
    match op
    case PushOp(v) => q.Push(v)
    case EndOp => q.End()
    case FailOp(err) => q.Fail(err)
    case NextOp => q.Next()
  }

  function RunOps<T>(q: Queue<T>, ops: seq<Op<T>>): Queue<T>
    decreases |ops|
  {
    if ops == [] then q else RunOps(Apply(q, ops[0]), ops[1..])
  }

  lemma {:induction false} SettleAllSettles<T>(settled: map<nat, Outcome<T>>, waiters: seq<nat>, outcome: Outcome<T>)
    ensures var r := SettleAll(settled, waiters, outcome);
            forall k: nat :: (k in r <==> k in settled || k in waiters)
                             && (k in waiters ==> r[k] == outcome)
                             && (k in settled && k !in waiters ==> r[k] == settled[k])
    decreases |waiters|
  {
    if waiters != [] {
      SettleAllSettles(settled[waiters[0] := outcome], waiters[1..], outcome);
      assert forall k: nat :: k in waiters <==> k == waiters[0] || k in waiters[1..];
    }
  }

  lemma WaitersAreTheLatest<T>(q: Queue<T>)
    requires q.Valid() && !q.closed
    ensures forall k: nat :: k in q.waiters <==> q.Delivered() <= k < q.tickets
  {
    forall k: nat | q.Delivered() <= k < q.tickets ensures k in q.waiters {
      assert q.waiters[k - q.Delivered()] == k;
    }
  }

  lemma ClosingKeepsValid<T>(q: Queue<T>)
    requires q.Valid()
    ensures q.End().Valid()
    ensures forall err :: q.Fail(err).Valid()
  {
    EndKeepsValid(q);
    forall err ensures q.Fail(err).Valid() { FailKeepsValid(q, err); }
  }

  /** All waiting promises settled in the way the closed queue answers. */
  lemma ClosedIsValid<T>(q: Queue<T>, error: Option<string>, outcome: Outcome<T>)
    requires q.Valid() && !q.closed && outcome == if error.Some? then Rejected(error.value) else Done
    ensures q.(closed := true, error := error, waiters := [],
               settled := SettleAll(q.settled, q.waiters, outcome)).Valid()
  {
    hide SettleAll;
    WaitersAreTheLatest(q);
    SettleAllSettles(q.settled, q.waiters, outcome);
  }

  lemma EndKeepsValid<T>(q: Queue<T>)
    requires q.Valid()
    ensures q.End().Valid()
  {
    hide SettleAll, Queue.Delivered;
    if !q.closed {
      ClosedIsValid(q, None, Done);
    }
  }

  lemma FailKeepsValid<T>(q: Queue<T>, err: string)
    requires q.Valid()
    ensures q.Fail(err).Valid()
  {
    hide SettleAll, Queue.Delivered;
    if !q.closed {
      ClosedIsValid(q, Some(err), Rejected(err));
    }
  }

  lemma PushKeepsValid<T>(q: Queue<T>, v: T)
    requires q.Valid()
    ensures q.Push(v).Valid()
  {
    var r := q.Push(v);
    if !q.closed && q.waiters != [] {
      assert q.waiters[0] == q.Delivered() == |q.accepted|;
      assert r.waiters == seq(r.tickets - r.Delivered(), i => r.Delivered() + i);
    }
  }

  lemma NextKeepsValid<T>(q: Queue<T>)
    requires q.Valid()
    ensures q.Next().Valid()
  {
    var r := q.Next();
    if q.values == [] && !q.closed {
      assert r.waiters == seq(r.tickets - r.Delivered(), i => r.Delivered() + i);
    }
  }

  /** Under every interleaving of pushes, reads, end and failure the queue is first in, first out. */
  lemma {:induction false} EveryRunIsFifo<T>(q: Queue<T>, ops: seq<Op<T>>)
    requires q.Valid()
    ensures RunOps(q, ops).Valid()
    decreases |ops|
  {
    if ops != [] {
      ApplyKeepsValid(q, ops[0]);
      EveryRunIsFifo(Apply(q, ops[0]), ops[1..]);
    }
  }

  lemma ApplyKeepsValid<T>(q: Queue<T>, op: Op<T>)
    requires q.Valid()
    ensures Apply(q, op).Valid()
  {
    match op
    case PushOp(v) => PushKeepsValid(q, v);
    case EndOp => ClosingKeepsValid(q);
    case FailOp(err) => ClosingKeepsValid(q);
    case NextOp => NextKeepsValid(q);
  }

  /** Buffered values and waiting readers are never both there, and a closed queue has no waiters. */
  lemma NeverBothWaiting<T>(ops: seq<Op<T>>)
    ensures var q := RunOps(Empty<T>(), ops);
            (q.values == [] || q.waiters == []) && (q.closed ==> q.waiters == [])
  {
    EveryRunIsFifo(Empty<T>(), ops);
  }

  /** A promise settles at most once: whatever happens later, its outcome stays. */
  lemma {:induction false} SettledOnce<T>(q: Queue<T>, ops: seq<Op<T>>, k: nat)
    requires q.Valid() && k in q.settled
    ensures k in RunOps(q, ops).settled && RunOps(q, ops).settled[k] == q.settled[k]
    decreases |ops|
  {
    hide Queue.Valid, Apply;
    if ops != [] {
      var r := Apply(q, ops[0]);
      ApplyKeepsValid(q, ops[0]);
      OneKeepsSettled(q, ops[0], k);
      SettledOnce(r, ops[1..], k);
    }
  }

  lemma OneKeepsSettled<T>(q: Queue<T>, op: Op<T>, k: nat)
    requires q.Valid() && k in q.settled
    ensures k in Apply(q, op).settled && Apply(q, op).settled[k] == q.settled[k]
  {
    if !q.closed {
      WaitersAreTheLatest(q);
      if op.EndOp? { SettleAllSettles(q.settled, q.waiters, Done); }
      if op.FailOp? { SettleAllSettles(q.settled, q.waiters, Rejected(op.err)); }
    }
  }

  /** The end, or the failure, is only observed after every accepted value was handed out. */
  lemma ValuesBeforeEnd<T>(ops: seq<Op<T>>, k: nat)
    ensures var q := RunOps(Empty<T>(), ops);
            k in q.settled ==>
              if k < |q.accepted| then q.settled[k] == Yielded(q.accepted[k])
              else q.closed && !q.settled[k].Yielded?
  {
    EveryRunIsFifo(Empty<T>(), ops);
  }

  /** The values pushed before the queue is first closed. */
  function PushedBeforeClose<T>(ops: seq<Op<T>>): seq<T> {
    if ops == [] then []
    else match ops[0]
      case PushOp(v) => [v] + PushedBeforeClose(ops[1..])
      case NextOp => PushedBeforeClose(ops[1..])
      case _ => []
  }

  /** Exactly those are accepted, in order, whatever the reader does. */
  lemma {:induction false} AcceptedIsPushed<T>(q: Queue<T>, ops: seq<Op<T>>)
    ensures RunOps(q, ops).accepted == q.accepted + (if q.closed then [] else PushedBeforeClose(ops))
    decreases |ops|
  {
    if ops != [] {
      AcceptedIsPushed(Apply(q, ops[0]), ops[1..]);
      if !q.closed && ops[0].PushOp? {
        assert q.accepted + [ops[0].v] + PushedBeforeClose(ops[1..]) == q.accepted + PushedBeforeClose(ops);
      }
    }
  }

  /** How many reads a run makes. */
  function ReadsIn<T>(ops: seq<Op<T>>): nat {
    if ops == [] then 0 else (if ops[0] == NextOp then 1 else 0) + ReadsIn(ops[1..])
  }

  /** How the first `end` or `fail` of a run closes the queue. */
  function ClosedBy<T>(ops: seq<Op<T>>): Option<Outcome<T>> {
    if ops == [] then None
    else match ops[0]
      case EndOp => Some(Done)
      case FailOp(err) => Some(Rejected(err))
      case _ => ClosedBy(ops[1..])
  }

  lemma {:induction false} RunCloses<T>(q: Queue<T>, ops: seq<Op<T>>)
    requires q.Valid()
    ensures var r := RunOps(q, ops);
            && r.tickets == q.tickets + ReadsIn(ops)
            && (q.closed ==> r.closed && r.Final() == q.Final())
            && (!q.closed ==> (r.closed <==> ClosedBy(ops).Some?) && (r.closed ==> Some(r.Final()) == ClosedBy(ops)))
    decreases |ops|
  {
    hide Queue.Valid;
    if ops != [] {
      ApplyKeepsValid(q, ops[0]);
      OneCloses(q, ops[0]);
      RunCloses(Apply(q, ops[0]), ops[1..]);
    }
  }

  lemma OneCloses<T>(q: Queue<T>, op: Op<T>)
    requires q.Valid()
    ensures var r := Apply(q, op);
            && r.tickets == q.tickets + (if op.NextOp? then 1 else 0)
            && (q.closed ==> r.closed && r.Final() == q.Final())
            && (!q.closed ==> (r.closed <==> op.EndOp? || op.FailOp?))
            && (!q.closed && op.EndOp? ==> r.Final() == Done)
            && (!q.closed && op.FailOp? ==> r.Final() == Rejected(op.err))
  {
  }

  /** What every reader is told, in terms of the run alone: the k-th read gets the k-th value pushed before the
      queue was closed; past the last of them it waits until the queue is closed, and is then told how. */
  lemma EveryReadIsAnswered<T>(ops: seq<Op<T>>, k: nat)
    ensures var settled, values := RunOps(Empty<T>(), ops).settled, PushedBeforeClose(ops);
            var answer := if k in settled then Some(settled[k]) else None;
            answer == if ReadsIn(ops) <= k then None
                      else if k < |values| then Some(Yielded(values[k])) else ClosedBy(ops)
  {
    hide RunOps;
    EveryRunIsFifo(Empty<T>(), ops);
    AcceptedIsPushed(Empty<T>(), ops);
    RunCloses(Empty<T>(), ops);
    assert [] + PushedBeforeClose(ops) == PushedBeforeClose(ops);
  }
}
