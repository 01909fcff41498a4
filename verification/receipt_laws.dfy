/** The rules of the receipt queue with their figures written out: which answers are retried, how long a
    receipt waits, and which receipts a drain selects. */
module ReceiptLaws {
  import opened Receipts

  /** An HTTP answer: success settles the receipt; 408, 429 and everything outside 400 to 499 is retried like no
      answer at all; any other 4xx ends it for good. */
  lemma AnswersAre(row: Row, ok: bool, status: int, now: int)
    ensures var a := Answered(ok, status);
            && (ok ==> Flushed(row, a, now) == Row(Sent, row.attempts, row.nextAttemptAt) && Says(a) == SaysSent)
            && (!ok && 400 <= status <= 499 && status != 408 && status != 429 ==>
                  Flushed(row, a, now) == Row(PermanentFail, row.attempts, row.nextAttemptAt)
                  && Says(a) == SaysPermanentFail)
            && (!ok && (status < 400 || 499 < status || status == 408 || status == 429) ==>
                  Flushed(row, a, now) == Flushed(row, NoAnswer, now) && Says(a) == SaysPending)
  {
  }

  /** The waits after the first to the seventh failure; the eighth is the last. */
  lemma FailedAttemptIs(row: Row, now: int)
    requires row.attempts < 8
    ensures Says(NoAnswer) == SaysPending
    ensures Flushed(row, NoAnswer, now)
         == Row(if row.attempts == 7 then Failed else Pending, row.attempts + 1,
                now + [60_000, 120_000, 240_000, 480_000, 960_000, 1_920_000, 3_840_000, 7_680_000][row.attempts])
  {
    assert Pow2(3) == 8 && Pow2(6) == 8 * Pow2(3) && Pow2(8) == 4 * Pow2(6);
    assert Pow2(5) == 4 * Pow2(3) && Pow2(7) == 4 * Pow2(5) && Pow2(4) == 16 && Pow2(2) == 4 && Pow2(1) == 2;
  }

  /** Without an issuer key, and when marking the row throws, the row stays as it is. */
  lemma UntouchedRows(row: Row, now: int)
    ensures Flushed(row, Unconfigured, now) == row && Says(Unconfigured) == SaysPending
    ensures Flushed(row, Broken, now) == row && Says(Broken) == Throws
  {
  }

  /** A receipt is queued once, due at once. */
  lemma EnqueueIs(rows: Table, id: string, now: int)
    ensures Enqueues(rows, id) <==> id != "" && id !in rows
    ensures Enqueues(rows, id) ==> EnqueueIn(rows, id, now) == rows[id := Row(Pending, 0, now)]
    ensures !Enqueues(rows, id) ==> EnqueueIn(rows, id, now) == rows
  {
  }

  /** A batch asks for 1 to 100 receipts. */
  lemma LimitIs(batchSize: int)
    ensures Limit(batchSize) == if batchSize < 1 then 1 else if 100 < batchSize then 100 else batchSize
  {
  }

  function Ids(batch: seq<string>): set<string> {
    set id | id in batch
  }

  lemma {:induction false} DistinctIds(batch: seq<string>)
    requires forall i, j | 0 <= i < j < |batch| :: batch[i] != batch[j]
    ensures |Ids(batch)| == |batch|
  {
    if batch != [] {
      DistinctIds(batch[1..]);
      assert Ids(batch) == {batch[0]} + Ids(batch[1..]);
    }
  }

  /** Pending receipts whose time has come. */
  function DueIds(rows: Table, now: int): set<string> {
    set id | id in rows && rows[id].status == Pending && rows[id].nextAttemptAt <= now
  }

  /** A drain selects only due receipts, all of them when they are no more than the limit, else as many as the
      limit says, and never a later one before an earlier one. */
  lemma DrainSelects(rows: Table, now: int, limit: nat, batch: seq<string>)
    requires IsBatch(rows, now, limit, batch)
    ensures Ids(batch) <= DueIds(rows, now)
    ensures |batch| == if |DueIds(rows, now)| <= limit then |DueIds(rows, now)| else limit
    ensures |DueIds(rows, now)| <= limit ==> Ids(batch) == DueIds(rows, now)
    ensures forall id, other | id in batch && other in DueIds(rows, now) && other !in batch ::
              rows[id].nextAttemptAt <= rows[other].nextAttemptAt
  {
    var due, ids := DueIds(rows, now), Ids(batch);
    DistinctIds(batch);
    assert forall i | 0 <= i < |batch| :: batch[i] in due;
    assert ids <= due && due == ids + (due - ids);
    if ids != due {
      var id :| id in due - ids;
      assert Due(rows[id], now);
    }
  }
}
