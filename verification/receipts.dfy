/** The receipt queue of apps/web/lib/cpr: queue.js, queue-drain.js and classifyResult of
    cpr-client.js. Times are in milliseconds. */
module Receipts {
  const MAX_ATTEMPTS := 8
  const BACKOFF_BASE_S := 30
  const MAX_BATCH_SIZE := 100

  datatype Status = Pending | Sent | Failed | PermanentFail

  datatype Row = Row(status: Status, attempts: nat, nextAttemptAt: int)

  /** The `cpr_receipts_queue` table, by receipt id. */
  type Table = map<string, Row>

  datatype Verdict = IsSent | IsRetry | IsPermanentFail

  function ClassifyResult(ok: bool, status: int): Verdict {
    if ok then IsSent
    else if status == 408 || status == 429 || 500 <= status then IsRetry
    else if 400 <= status then IsPermanentFail
    else IsRetry
  }

  function Pow2(n: nat): nat {
    if n == 0 then 1 else 2 * Pow2(n - 1)
  }

  function BackoffSeconds(attempts: nat): nat {
    BACKOFF_BASE_S * Pow2(attempts)
  }

  /** How an attempt to flush goes: no issuer key, no answer, an HTTP answer, or the database client
      throwing while the row is being marked. */
  datatype Attempt = Unconfigured | NoAnswer | Answered(ok: bool, status: int) | Broken

  function Outcome(a: Attempt): Verdict
    requires a.NoAnswer? || a.Answered?
  {
    if a.NoAnswer? then IsRetry else ClassifyResult(a.ok, a.status)
  }

  /** What an attempt makes of a row. */
  function Flushed(row: Row, a: Attempt, now: int): Row {
    if a.Unconfigured? || a.Broken? then row
    else match Outcome(a)
      case IsSent => row.(status := Sent)
      case IsPermanentFail => row.(status := PermanentFail)
      case IsRetry =>
        var attempts := row.attempts + 1;
        Row(if MAX_ATTEMPTS <= attempts then Failed else Pending, attempts, now + BackoffSeconds(attempts) * 1000)
  }

  /** What `tryFlushReceipt` returns, or that it throws. */
  datatype Returned = SaysSent | SaysPending | SaysPermanentFail | Throws

  function Says(a: Attempt): Returned {
    match a
    case Unconfigured => SaysPending
    case Broken => Throws
    case _ =>
      match Outcome(a) case IsSent => SaysSent case IsPermanentFail => SaysPermanentFail case IsRetry => SaysPending
  }

  function FlushIn(rows: Table, id: string, a: Attempt, now: int): Table {
    if id in rows then rows[id := Flushed(rows[id], a, now)] else rows
  }

  function EnqueueIn(rows: Table, id: string, now: int): Table {
    if Enqueues(rows, id) then rows[id := Row(Pending, 0, now)] else rows
  }

  /** A receipt without an id is refused, and so is an id the table already holds. */
  predicate Enqueues(rows: Table, id: string) {
    id != "" && id !in rows
  }

  predicate Due(row: Row, now: int) {
    row.status.Pending? && row.nextAttemptAt <= now
  }

  /** What the drain's query may answer: due rows, oldest first, as many as there are up to the limit. */
  predicate IsBatch(rows: Table, now: int, limit: nat, batch: seq<string>) {
    && |batch| <= limit
    && (forall i | 0 <= i < |batch| :: batch[i] in rows && Due(rows[batch[i]], now))
    && (forall i, j | 0 <= i < j < |batch| :: batch[i] != batch[j]
         && rows[batch[i]].nextAttemptAt <= rows[batch[j]].nextAttemptAt)
    && (forall id | id in rows && Due(rows[id], now) && id !in batch ::
          |batch| == limit && forall i | 0 <= i < |batch| :: rows[batch[i]].nextAttemptAt <= rows[id].nextAttemptAt)
  }

  function Limit(batchSize: int): nat {
    var capped := if batchSize < MAX_BATCH_SIZE then batchSize else MAX_BATCH_SIZE;
    if capped < 1 then 1 else capped
  }

  /** How one row of a batch goes: the attempt, and the clock when the row is marked. */
  datatype Try = Try(attempt: Attempt, at: int)

  function FlushAll(rows: Table, batch: seq<string>, tries: seq<Try>): Table
    requires |batch| == |tries|
    decreases |batch|
  {
    if batch == [] then rows
    else FlushAll(FlushIn(rows, batch[0], tries[0].attempt, tries[0].at), batch[1..], tries[1..])
  }

  datatype Tally = Tally(scanned: nat, sent: nat, retry: nat, permanentFail: nat, errors: seq<string>)

  function Count(tries: seq<Try>, r: Returned): nat {
    if tries == [] then 0 else (if Says(tries[0].attempt) == r then 1 else 0) + Count(tries[1..], r)
  }

  class ReceiptQueue {
    var rows: Table

    constructor ()
      ensures rows == map[]
    {
      rows := map[];
    }

    /** False stands for the error thrown on a missing id, or when the insert is refused as a duplicate. */
    method EnqueueReceipt(id: string, now: int) returns (inserted: bool)
      modifies this
      ensures inserted == Enqueues(old(rows), id) && rows == EnqueueIn(old(rows), id, now)
      ensures inserted ==> id in rows && Due(rows[id], now) && rows[id].attempts == 0
    {
      if id == "" {
        return false;
      }
      inserted := id !in rows;
      if inserted {
        rows := rows[id := Row(Pending, 0, now)];
      }
    }

    method MarkRetry(id: string, now: int)
      modifies this
      ensures rows == FlushIn(old(rows), id, NoAnswer, now)
    {
      var attempts := (if id in rows then rows[id].attempts else 0) + 1;
      var status := if attempts >= MAX_ATTEMPTS then Failed else Pending;
      var next := now + BackoffSeconds(attempts) * 1000;
      if id in rows {
        rows := rows[id := Row(status, attempts, next)];
      }
    }

    method TryFlushReceipt(id: string, attempt: Attempt, now: int) returns (says: Returned)
      modifies this
      ensures says == Says(attempt) && rows == FlushIn(old(rows), id, attempt, now)
    {
      match attempt
      case Unconfigured =>
        assert id in rows ==> rows[id := rows[id]] == rows;
        return SaysPending;
      case Broken =>
        assert id in rows ==> rows[id := rows[id]] == rows;
        return Throws;
      case NoAnswer =>
        MarkRetry(id, now);
        return SaysPending;
      case Answered(ok, status) =>
        match ClassifyResult(ok, status)
        case IsSent =>
          if id in rows { rows := rows[id := rows[id].(status := Sent)]; }
          return SaysSent;
        case IsPermanentFail =>
          if id in rows { rows := rows[id := rows[id].(status := PermanentFail)]; }
          return SaysPermanentFail;
        case IsRetry =>
          MarkRetry(id, now);
          return SaysPending;
    }

    /** `batch` is the database's answer to the drain's query, `tries` how its rows go. */
    method DrainPendingReceipts(batchSize: int, now: int, batch: seq<string>, tries: seq<Try>) returns (result: Tally)
      requires IsBatch(rows, now, Limit(batchSize), batch) && |tries| == |batch|
      modifies this
      ensures rows == FlushAll(old(rows), batch, tries)
      ensures result.scanned == |batch|
      ensures result.sent == Count(tries, SaysSent) && result.permanentFail == Count(tries, SaysPermanentFail)
      ensures result.retry == Count(tries, SaysPending) && |result.errors| == Count(tries, Throws)
      ensures result.scanned == result.sent + result.retry + result.permanentFail + |result.errors|
    {
      hide FlushIn, EnqueueIn, Limit, IsBatch, Due;
      result := Tally(|batch|, 0, 0, 0, []);
      for i := 0 to |batch|
        invariant FlushAll(rows, batch[i..], tries[i..]) == FlushAll(old(rows), batch, tries)
        invariant result.scanned == |batch|
        invariant i == result.sent + result.retry + result.permanentFail + |result.errors|
        invariant result.sent + Count(tries[i..], SaysSent) == Count(tries, SaysSent)
        invariant result.permanentFail + Count(tries[i..], SaysPermanentFail) == Count(tries, SaysPermanentFail)
        invariant result.retry + Count(tries[i..], SaysPending) == Count(tries, SaysPending)
        invariant |result.errors| + Count(tries[i..], Throws) == Count(tries, Throws)
      {
        assert batch[i..][1..] == batch[i + 1..] && tries[i..][1..] == tries[i + 1..];
        var says := TryFlushReceipt(batch[i], tries[i].attempt, tries[i].at);
        match says
        case SaysSent => result := result.(sent := result.sent + 1);
        case SaysPermanentFail => result := result.(permanentFail := result.permanentFail + 1);
        case SaysPending => result := result.(retry := result.retry + 1);
        case Throws => result := result.(errors := result.errors + [batch[i]]);
      }
    }
  }

  // ---------- One attempt ----------

  /** A configured attempt on a pending row either ends it or uses up one of its attempts. */
  lemma AttemptMakesProgress(row: Row, a: Attempt, now: int)
    requires row.status.Pending? && row.attempts < MAX_ATTEMPTS && (a.NoAnswer? || a.Answered?)
    ensures var r := Flushed(row, a, now);
            !r.status.Pending? || MAX_ATTEMPTS - r.attempts < MAX_ATTEMPTS - row.attempts
  {
  }

  function StatusSaid(r: Returned): Status
    requires !r.Throws?
  {
    match r case SaysSent => Sent case SaysPending => Pending case SaysPermanentFail => PermanentFail
  }

  /** The returned status is the row's new status, except when the last attempt fails: then the row has
      failed while "pending" is returned. */
  lemma SaidStatusIsExact(row: Row, a: Attempt, now: int)
    requires row.status.Pending? && row.attempts < MAX_ATTEMPTS && !a.Broken?
    ensures Flushed(row, a, now).status == StatusSaid(Says(a))
        <==> !(row.attempts == MAX_ATTEMPTS - 1 && !a.Unconfigured? && Outcome(a).IsRetry?)
  {
  }

  // ---------- Whole runs ----------

  /** The table, the clock, and for every receipt the times at which its attempts failed. */
  datatype State = State(rows: Table, clock: int, failures: map<string, seq<int>>) {
    function FailuresOf(id: string): seq<int> {
      if id in failures then failures[id] else []
    }

    function Flush(id: string, t: Try): State {
      var failed := id in rows && (t.attempt.NoAnswer? || t.attempt.Answered?) && Outcome(t.attempt).IsRetry?;
      State(FlushIn(rows, id, t.attempt, t.at), t.at,
            if failed then failures[id := FailuresOf(id) + [t.at]] else failures)
    }

    function FlushBatch(batch: seq<string>, tries: seq<Try>): State
      requires |batch| == |tries|
      decreases |batch|
    {
      if batch == [] then this else Flush(batch[0], tries[0]).FlushBatch(batch[1..], tries[1..])
    }
  }

  datatype Step =
    | Enqueue(id: string, now: int)
    | EnqueueAndFlush(id: string, now: int, flush: Try)
    | Drain(now: int, limit: nat, batch: seq<string>, tries: seq<Try>)

  predicate TimesRise(clock: int, tries: seq<Try>)
    decreases |tries|
  {
    tries == [] || (clock <= tries[0].at && TimesRise(tries[0].at, tries[1..]))
  }

  /** Steps the code can take: the clock never goes back and drains run one after the other. */
  predicate Enabled(s: State, step: Step) {
    match step
    case Enqueue(_, now) => s.clock <= now
    case EnqueueAndFlush(_, now, t) => s.clock <= now <= t.at
    case Drain(now, limit, batch, tries) =>
      s.clock <= now && |batch| == |tries| && IsBatch(s.rows, now, limit, batch) && TimesRise(now, tries)
  }

  function Act(s: State, step: Step): State
    requires Enabled(s, step)
  {
    match step
    case Enqueue(id, now) => s.(rows := EnqueueIn(s.rows, id, now), clock := now)
    case EnqueueAndFlush(id, now, t) =>
      if Enqueues(s.rows, id) then s.(rows := EnqueueIn(s.rows, id, now), clock := now).Flush(id, t)
      else s.(clock := now)
    case Drain(now, limit, batch, tries) => s.(clock := now).FlushBatch(batch, tries)
  }

  predicate IsRun(s: State, steps: seq<Step>)
    decreases |steps|
  {
    steps == [] || (Enabled(s, steps[0]) && IsRun(Act(s, steps[0]), steps[1..]))
  }

  function Run(s: State, steps: seq<Step>): State
    requires IsRun(s, steps)
    decreases |steps|
  {
    if steps == [] then s else Run(Act(s, steps[0]), steps[1..])
  }

  const START := State(map[], 0, map[])

  function WaitMs(attempts: nat): nat {
    BackoffSeconds(attempts) * 1000
  }

  /** Consecutive failures are at least the back-off apart. */
  predicate Spaced(fs: seq<int>) {
    forall k | 0 <= k < |fs| - 1 :: fs[k] + WaitMs(k + 1) <= fs[k + 1]
  }

  /** A row and the failures of its attempts. */
  predicate RowOk(row: Row, fs: seq<int>) {
    && |fs| == row.attempts <= MAX_ATTEMPTS
    && Spaced(fs)
    && (row.status.Pending? ==> row.attempts < MAX_ATTEMPTS)
    && (row.status.Failed? ==> row.attempts == MAX_ATTEMPTS)
    && (row.status.Pending? && fs != [] ==> row.nextAttemptAt == fs[|fs| - 1] + WaitMs(|fs|))
  }

  predicate Inv(s: State) {
    && (forall id | id in s.rows :: RowOk(s.rows[id], s.FailuresOf(id)))
    && (forall id | id in s.failures :: id in s.rows)
  }

  lemma FlushKeepsRow(row: Row, fs: seq<int>, t: Try)
    requires RowOk(row, fs) && row.status.Pending? && row.nextAttemptAt <= t.at
    ensures RowOk(Flushed(row, t.attempt, t.at),
                  if (t.attempt.NoAnswer? || t.attempt.Answered?) && Outcome(t.attempt).IsRetry? then fs + [t.at]
                  else fs)
  {
  }

  lemma FlushKeeps(s: State, id: string, t: Try)
    requires Inv(s) && id in s.rows && s.rows[id].status.Pending? && s.rows[id].nextAttemptAt <= t.at
    ensures Inv(s.Flush(id, t))
    ensures s.Flush(id, t).rows.Keys == s.rows.Keys
    ensures forall other | other in s.rows && other != id :: s.Flush(id, t).rows[other] == s.rows[other]
  {
    hide RowOk;
    FlushKeepsRow(s.rows[id], s.FailuresOf(id), t);
    var s' := s.Flush(id, t);
    assert forall other | other != id :: s'.FailuresOf(other) == s.FailuresOf(other);
  }

  lemma {:induction false} BatchKeeps(s: State, now: int, batch: seq<string>, tries: seq<Try>)
    requires Inv(s) && |batch| == |tries| && now <= s.clock && TimesRise(s.clock, tries)
    requires forall i | 0 <= i < |batch| :: batch[i] in s.rows && Due(s.rows[batch[i]], now)
    requires forall i, j | 0 <= i < j < |batch| :: batch[i] != batch[j]
    ensures Inv(s.FlushBatch(batch, tries))
    ensures forall id | id in s.rows && id !in batch ::
              id in s.FlushBatch(batch, tries).rows && s.FlushBatch(batch, tries).rows[id] == s.rows[id]
    decreases |batch|
  {
    hide Inv;
    if batch != [] {
      assert Due(s.rows[batch[0]], now);
      FlushKeeps(s, batch[0], tries[0]);
      var s' := s.Flush(batch[0], tries[0]);
      forall i | 0 <= i < |batch| - 1 ensures batch[1..][i] in s'.rows && Due(s'.rows[batch[1..][i]], now) {
        assert batch[1..][i] == batch[i + 1] && batch[0] != batch[i + 1];
      }
      BatchKeeps(s', now, batch[1..], tries[1..]);
      assert forall id | id !in batch :: id !in batch[1..] && id != batch[0];
    }
  }

  /** The state machine's drain is the one `DrainPendingReceipts` carries out. */
  lemma {:induction false} BatchRows(s: State, batch: seq<string>, tries: seq<Try>)
    requires |batch| == |tries|
    ensures s.FlushBatch(batch, tries).rows == FlushAll(s.rows, batch, tries)
    decreases |batch|
  {
    if batch != [] {
      BatchRows(s.Flush(batch[0], tries[0]), batch[1..], tries[1..]);
    }
  }

  lemma ActKeeps(s: State, step: Step)
    requires Inv(s) && Enabled(s, step)
    ensures Inv(Act(s, step))
    ensures forall id | id in s.rows && !s.rows[id].status.Pending? ::
              id in Act(s, step).rows && Act(s, step).rows[id] == s.rows[id]
  {
    match step
    case Enqueue(id, now) =>
      EnqueueKeeps(s, id, now);
    case EnqueueAndFlush(id, now, t) =>
      if Enqueues(s.rows, id) {
        EnqueueKeeps(s, id, now);
        FlushKeeps(s.(rows := EnqueueIn(s.rows, id, now), clock := now), id, t);
      }
    case Drain(now, limit, batch, tries) =>
      BatchKeeps(s.(clock := now), now, batch, tries);
  }

  lemma EnqueueKeeps(s: State, id: string, now: int)
    requires Inv(s)
    ensures Inv(s.(rows := EnqueueIn(s.rows, id, now), clock := now))
  {
    hide RowOk;
    var s' := s.(rows := EnqueueIn(s.rows, id, now), clock := now);
    assert RowOk(Row(Pending, 0, now), []) by { FreshRow(now); }
    assert forall other :: s'.FailuresOf(other) == s.FailuresOf(other);
  }

  lemma FreshRow(now: int)
    ensures RowOk(Row(Pending, 0, now), [])
  {
  }

  /** Every reachable table is in order; in particular a pending receipt has attempts left. */
  lemma {:induction false} RunKeeps(s: State, steps: seq<Step>)
    requires Inv(s) && IsRun(s, steps)
    ensures Inv(Run(s, steps))
    decreases |steps|
  {
    if steps != [] {
      ActKeeps(s, steps[0]);
      RunKeeps(Act(s, steps[0]), steps[1..]);
    }
  }

  /** A receipt that was sent, has failed or was refused for good never changes again. */
  lemma {:induction false} SettledReceiptsStay(s: State, steps: seq<Step>, id: string)
    requires Inv(s) && IsRun(s, steps) && id in s.rows && !s.rows[id].status.Pending?
    ensures id in Run(s, steps).rows && Run(s, steps).rows[id] == s.rows[id]
    decreases |steps|
  {
    if steps != [] {
      ActKeeps(s, steps[0]);
      SettledReceiptsStay(Act(s, steps[0]), steps[1..], id);
    }
  }

  /** The waits add up: 60 s, 120 s, 240 s and so on from the first failure. */
  lemma {:induction false} WaitsAddUp(fs: seq<int>, k: nat)
    requires Spaced(fs) && k < |fs|
    ensures fs[0] + BACKOFF_BASE_S * 1000 * (Pow2(k + 1) - 2) <= fs[k]
    decreases k
  {
    if k != 0 {
      WaitsAddUp(fs, k - 1);
      assert fs[k - 1] + WaitMs(k) <= fs[k];
    }
  }

  /** Over every run: a receipt that has failed k times is not selected before 30·2^k s have passed
      since its last failure, nor before 30·(2^(k+1) − 2) s have passed since its first. */
  lemma BackoffHolds(steps: seq<Step>, id: string, now: int)
    requires IsRun(START, steps)
    ensures var s := Run(START, steps);
            var fs := s.FailuresOf(id);
            id in s.rows && fs != [] && Due(s.rows[id], now) ==>
              && fs[|fs| - 1] + BackoffSeconds(|fs|) * 1000 <= now
              && fs[0] + BACKOFF_BASE_S * 1000 * (Pow2(|fs| + 1) - 2) <= now
  {
    hide IsRun, Run, Spaced;
    RunKeeps(START, steps);
    var fs := Run(START, steps).FailuresOf(id);
    if fs != [] && id in Run(START, steps).rows {
      WaitsAddUp(fs, |fs| - 1);
    }
  }

  /** The eighth and last attempt comes at least 7620 s after the first failure. */
  lemma LastAttemptIsLate(steps: seq<Step>, id: string, now: int)
    requires IsRun(START, steps)
    ensures var s := Run(START, steps);
            var fs := s.FailuresOf(id);
            && |fs| <= MAX_ATTEMPTS
            && (id in s.rows && |fs| == MAX_ATTEMPTS - 1 && Due(s.rows[id], now) ==> fs[0] + 7_620_000 <= now)
            && (|fs| == MAX_ATTEMPTS ==> fs[0] + 7_620_000 <= fs[MAX_ATTEMPTS - 1])
  {
    RunKeeps(START, steps);
    BackoffHolds(steps, id, now);
    var s := Run(START, steps);
    var fs := s.FailuresOf(id);
    assert Pow2(8) == 256 by { assert Pow2(4) == 16; assert Pow2(6) == 64; }
    if |fs| == MAX_ATTEMPTS {
      WaitsAddUp(fs, MAX_ATTEMPTS - 1);
    }
  }

  // ---------- A run in which every attempt fails ----------

  lemma {:induction false} RunAppend(s: State, steps: seq<Step>, step: Step)
    requires IsRun(s, steps) && Enabled(Run(s, steps), step)
    ensures IsRun(s, steps + [step]) && Run(s, steps + [step]) == Act(Run(s, steps), step)
    decreases |steps|
  {
    if steps == [] {
      assert [] + [step] == [step] && [step][1..] == [];
    } else {
      assert (steps + [step])[1..] == steps[1..] + [step];
      RunAppend(Act(s, steps[0]), steps[1..], step);
    }
  }

  /** When the n-th drain of that run falls due. */
  function DueAt(n: nat): nat {
    if n == 0 then 0 else DueAt(n - 1) + WaitMs(n)
  }

  /** The drain of the receipt "r" alone, with no answer. */
  function FailingDrain(n: nat): Step {
    Drain(DueAt(n), 1, ["r"], [Try(NoAnswer, DueAt(n))])
  }

  /** The table can reach a pending receipt with any number of attempts up to seven. */
  lemma {:induction false} PendingIsReached(n: nat) returns (steps: seq<Step>)
    requires n < MAX_ATTEMPTS
    ensures IsRun(START, steps)
    ensures var s := Run(START, steps); s.rows == map["r" := Row(Pending, n, DueAt(n))] && s.clock <= DueAt(n)
  {
    if n == 0 {
      steps := [Enqueue("r", 0)];
      assert steps[1..] == [];
    } else {
      var before := PendingIsReached(n - 1);
      var s := Run(START, before);
      var step := FailingDrain(n - 1);
      DrainFails(s, n - 1);
      RunAppend(START, before, step);
      steps := before + [step];
    }
  }

  lemma NextDueAt(n: nat)
    ensures DueAt(n + 1) == DueAt(n) + BackoffSeconds(n + 1) * 1000
  {
  }

  lemma DrainFails(s: State, n: nat)
    requires s.rows == map["r" := Row(Pending, n, DueAt(n))] && s.clock <= DueAt(n)
    ensures Enabled(s, FailingDrain(n))
    ensures var t := Act(s, FailingDrain(n));
            && t.clock == DueAt(n)
            && t.rows == map["r" := Row(if n + 1 < MAX_ATTEMPTS then Pending else Failed, n + 1, DueAt(n + 1))]
  {
    hide BackoffSeconds, DueAt;
    NextDueAt(n);
    var batch, tries := ["r"], [Try(NoAnswer, DueAt(n))];
    assert batch[1..] == [] && tries[1..] == [];
    assert IsBatch(s.rows, DueAt(n), 1, batch);
    assert TimesRise(DueAt(n), tries);
    var t := s.(clock := DueAt(n));
    assert t.FlushBatch(batch, tries) == t.Flush("r", tries[0]);
  }

  /** The mismatch is reached: a run leaves a pending receipt with seven attempts, and the drain that is
      due next says "pending" of a receipt that has failed. */
  lemma FailedIsCalledPending() returns (steps: seq<Step>)
    ensures IsRun(START, steps)
    ensures var s := Run(START, steps);
            var step := FailingDrain(MAX_ATTEMPTS - 1);
            && "r" in s.rows && s.rows["r"].status.Pending? && s.rows["r"].attempts == MAX_ATTEMPTS - 1
            && Enabled(s, step) && Says(step.tries[0].attempt) == SaysPending
            && "r" in Act(s, step).rows && Act(s, step).rows["r"].status == Failed
  {
    steps := PendingIsReached(MAX_ATTEMPTS - 1);
    DrainFails(Run(START, steps), MAX_ATTEMPTS - 1);
  }
}
