/** apps/web/lib/rate-limit.js: a fixed-window rate limiter with a periodic sweep. */
module RateLimit {
  import opened Options

  datatype Entry = Entry(count: nat, reset: int)

  datatype Answer = Answer(ok: bool, remaining: nat, resetAt: int)

  datatype Limit = Limit(windowMs: nat, max: nat) {
    /** The entry of a key after one more check. */
    function Tick(entry: Option<Entry>, now: int): Entry {
      if entry.None? || entry.value.reset <= now then Entry(1, now + windowMs)
      else Entry(entry.value.count + 1, entry.value.reset)
    }

    function Reply(e: Entry): Answer {
      Answer(e.count <= max, if e.count <= max then max - e.count else 0, e.reset)
    }
  }

  type Bucket = map<string, Entry>

  function Find(bucket: Bucket, key: string): Option<Entry> {
    if key in bucket then Some(bucket[key]) else None
  }

  function Swept(bucket: Bucket, now: int): Bucket {
    map k | k in bucket && now < bucket[k].reset :: bucket[k]
  }

  class RateLimiter {
    const limit: Limit
    var bucket: Bucket

    constructor (windowMs: nat, max: nat)
      ensures limit == Limit(windowMs, max) && bucket == map[]
    {
      limit, bucket := Limit(windowMs, max), map[];
    }

    method Check(key: string, now: int) returns (answer: Answer)
      modifies this
      ensures var e := limit.Tick(Find(old(bucket), key), now);
              bucket == old(bucket)[key := e] && answer == limit.Reply(e)
    {
      if key !in bucket || bucket[key].reset <= now {
        bucket := bucket[key := Entry(0, now + limit.windowMs)];
      }
      var entry := bucket[key].(count := bucket[key].count + 1);
      bucket := bucket[key := entry];
      var remaining := if limit.max < entry.count then 0 else limit.max - entry.count;
      answer := Answer(entry.count <= limit.max, remaining, entry.reset);
    }

    method Sweep(now: int)
      modifies this
      ensures bucket == Swept(old(bucket), now)
      ensures forall k :: k in bucket <==> k in old(bucket) && now < old(bucket)[k].reset
      ensures forall k | k in bucket :: bucket[k] == old(bucket)[k]
    {
      var todo := bucket.Keys;
      while todo != {}
        invariant todo <= bucket.Keys <= old(bucket).Keys
        invariant forall k | k in bucket :: bucket[k] == old(bucket)[k]
        invariant forall k | k in old(bucket) && k !in todo :: k in bucket <==> now < old(bucket)[k].reset
        decreases todo
      {
        var k :| k in todo;
        todo := todo - {k};
        if bucket[k].reset <= now {
          bucket := bucket - {k};
        }
      }
    }
  }

  // ---------- Whole runs ----------

  datatype Step = Check(key: string, at: int) | Sweep(at: int)

  function Act(limit: Limit, bucket: Bucket, step: Step): (seq<(string, Answer)>, Bucket) {
    match step
    case Check(key, at) =>
      var e := limit.Tick(Find(bucket, key), at);
      ([(key, limit.Reply(e))], bucket[key := e])
    case Sweep(at) => ([], Swept(bucket, at))
  }

  /** The answers given over a run, with the key each was given to. */
  function Answers(limit: Limit, bucket: Bucket, steps: seq<Step>): seq<(string, Answer)>
    decreases |steps|
  {
    if steps == [] then []
    else
      var (now, bucket') := Act(limit, bucket, steps[0]);
      now + Answers(limit, bucket', steps[1..])
  }

  predicate Monotone(clock: int, steps: seq<Step>)
    decreases |steps|
  {
    steps == [] || (clock <= steps[0].at && Monotone(steps[0].at, steps[1..]))
  }

  function WithoutSweeps(steps: seq<Step>): seq<Step> {
    if steps == [] then [] else (if steps[0].Check? then [steps[0]] else []) + WithoutSweeps(steps[1..])
  }

  /** `swept` lacks only entries of `full` that have expired. */
  predicate Prunes(swept: Bucket, full: Bucket, clock: int) {
    && (forall k | k in swept :: k in full && swept[k] == full[k])
    && (forall k | k in full && k !in swept :: full[k].reset <= clock)
  }

  lemma {:induction false} SweepsAreInvisible(limit: Limit, swept: Bucket, full: Bucket, clock: int, steps: seq<Step>)
    requires Prunes(swept, full, clock) && Monotone(clock, steps)
    ensures Answers(limit, swept, steps) == Answers(limit, full, WithoutSweeps(steps))
    decreases |steps|
  {
    if steps != [] {
      var s := steps[0];
      var later := WithoutSweeps(steps[1..]);
      var (a, swept') := Act(limit, swept, s);
      if s.Check? {
        var (b, full') := Act(limit, full, s);
        assert a == b;
        assert ([s] + later)[1..] == later;
        SweepsAreInvisible(limit, swept', full', s.at, steps[1..]);
      } else {
        assert [] + later == later;
        SweepsAreInvisible(limit, swept', full, s.at, steps[1..]);
      }
    }
  }

  /** Sweeping at any moments of a run changes no answer. */
  lemma SweepsChangeNoAnswer(limit: Limit, steps: seq<Step>, clock: int)
    requires Monotone(clock, steps)
    ensures Answers(limit, map[], steps) == Answers(limit, map[], WithoutSweeps(steps))
  {
    SweepsAreInvisible(limit, map[], map[], clock, steps);
  }

  // ---------- One key ----------

  /** The times at which a key is checked. */
  function Times(key: string, steps: seq<Step>): seq<int> {
    if steps == [] then []
    else (if steps[0].Check? && steps[0].key == key then [steps[0].at] else []) + Times(key, steps[1..])
  }

  function AnswersTo(key: string, answers: seq<(string, Answer)>): seq<Answer> {
    if answers == [] then [] else (if answers[0].0 == key then [answers[0].1] else []) + AnswersTo(key, answers[1..])
  }

  function KeyAnswers(limit: Limit, entry: Option<Entry>, times: seq<int>): seq<Answer>
    decreases |times|
  {
    if times == [] then []
    else
      var e := limit.Tick(entry, times[0]);
      [limit.Reply(e)] + KeyAnswers(limit, Some(e), times[1..])
  }

  lemma {:induction false} KeyAlone(limit: Limit, bucket: Bucket, steps: seq<Step>, key: string)
    requires forall s | s in steps :: s.Check?
    ensures AnswersTo(key, Answers(limit, bucket, steps)) == KeyAnswers(limit, Find(bucket, key), Times(key, steps))
    decreases |steps|
  {
    if steps != [] {
      assert steps[0] in steps;
      var (now, bucket') := Act(limit, bucket, steps[0]);
      var later := Answers(limit, bucket', steps[1..]);
      KeyAlone(limit, bucket', steps[1..], key);
      assert (now + later)[1..] == later;
      var times := Times(key, steps[1..]);
      assert ([steps[0].at] + times)[1..] == times && [] + times == times;
      assert [] + AnswersTo(key, later) == AnswersTo(key, later);
    }
  }

  lemma {:induction false} ChecksOnly(steps: seq<Step>, key: string)
    ensures forall s | s in WithoutSweeps(steps) :: s.Check?
    ensures Times(key, WithoutSweeps(steps)) == Times(key, steps)
  {
    if steps != [] {
      ChecksOnly(steps[1..], key);
      var later := WithoutSweeps(steps[1..]);
      assert ([steps[0]] + later)[1..] == later;
      assert [] + later == later;
    }
  }

  /** What a key is told depends on nothing but the times it was checked: other keys and sweeps do not
      matter. */
  lemma KeysDoNotInterfere(limit: Limit, steps: seq<Step>, clock: int, key: string)
    requires Monotone(clock, steps)
    ensures AnswersTo(key, Answers(limit, map[], steps)) == KeyAnswers(limit, None, Times(key, steps))
  {
    SweepsChangeNoAnswer(limit, steps, clock);
    ChecksOnly(steps, key);
    KeyAlone(limit, map[], WithoutSweeps(steps), key);
  }

  // ---------- How many checks are answered ok ----------

  predicate Rising(times: seq<int>) {
    forall i, j | 0 <= i < j < |times| :: times[i] <= times[j]
  }

  lemma RisingTail(times: seq<int>)
    requires Rising(times) && times != []
    ensures Rising(times[1..]) && forall t | t in times[1..] :: times[0] <= t
  {
    forall t | t in times[1..] ensures times[0] <= t {
      var i :| 0 <= i < |times[1..]| && times[1..][i] == t;
      assert t == times[i + 1];
    }
  }

  /** How many `ok` answers announce the given reset time, that is, belong to that window. */
  function OkInWindow(answers: seq<Answer>, reset: int): nat {
    if answers == [] then 0
    else (if answers[0].ok && answers[0].resetAt == reset then 1 else 0) + OkInWindow(answers[1..], reset)
  }

  function Left(limit: Limit, count: nat): nat {
    if count < limit.max then limit.max - count else 0
  }

  /** Each window answers ok at most `max` times. */
  lemma {:induction false} WindowBound(limit: Limit, entry: Option<Entry>, times: seq<int>, reset: int)
    requires 0 < limit.windowMs && Rising(times)
    requires entry.Some? && reset < entry.value.reset ==> forall t | t in times :: reset < t + limit.windowMs
    ensures OkInWindow(KeyAnswers(limit, entry, times), reset)
         <= if entry.Some? && entry.value.reset == reset then Left(limit, entry.value.count)
            else if entry.Some? && reset < entry.value.reset then 0 else limit.max
    decreases |times|
  {
    if times != [] {
      var e := limit.Tick(entry, times[0]);
      var later := KeyAnswers(limit, Some(e), times[1..]);
      assert ([limit.Reply(e)] + later)[1..] == later;
      assert times[0] in times && forall t | t in times[1..] :: t in times;
      RisingTail(times);
      WindowBound(limit, Some(e), times[1..], reset);
    }
  }

  /** How many checks made in [from, from + windowMs) are answered ok. */
  function OkBetween(limit: Limit, entry: Option<Entry>, times: seq<int>, from: int): nat
    decreases |times|
  {
    if times == [] then 0
    else
      var e := limit.Tick(entry, times[0]);
      (if from <= times[0] < from + limit.windowMs && e.count <= limit.max then 1 else 0)
      + OkBetween(limit, Some(e), times[1..], from)
  }

  /** Once a window opened inside the interval, it lasts beyond the interval's end. */
  lemma {:induction false} RestOfWindow(limit: Limit, e: Entry, times: seq<int>, from: int)
    requires from + limit.windowMs <= e.reset && Rising(times)
    ensures OkBetween(limit, Some(e), times, from) <= Left(limit, e.count)
    decreases |times|
  {
    if times != [] {
      RisingTail(times);
      if times[0] < from + limit.windowMs {
        RestOfWindow(limit, limit.Tick(Some(e), times[0]), times[1..], from);
      } else {
        AfterInterval(limit, Some(e), times, from);
      }
    }
  }

  lemma {:induction false} AfterInterval(limit: Limit, entry: Option<Entry>, times: seq<int>, from: int)
    requires forall t | t in times :: from + limit.windowMs <= t
    ensures OkBetween(limit, entry, times, from) == 0
    decreases |times|
  {
    if times != [] {
      assert times[0] in times && forall t | t in times[1..] :: t in times;
      AfterInterval(limit, Some(limit.Tick(entry, times[0])), times[1..], from);
    }
  }

  /** From any state of a key: what is left of the running window, then at most one more window. */
  lemma {:induction false} TwoWindows(limit: Limit, entry: Option<Entry>, times: seq<int>, from: int)
    requires Rising(times) && (entry.Some? ==> 0 < entry.value.count)
    ensures OkBetween(limit, entry, times, from) <= if limit.max == 0 then 0 else 2 * limit.max - 1
    ensures entry.Some? && (forall t | t in times :: from <= t) ==>
              OkBetween(limit, entry, times, from) <= Left(limit, entry.value.count) + limit.max
    decreases |times|
  {
    if times != [] {
      RisingTail(times);
      assert times[0] in times;
      var e := limit.Tick(entry, times[0]);
      TwoWindows(limit, Some(e), times[1..], from);
      if from <= times[0] {
        assert forall t | t in times[1..] :: from <= t;
        if e.count == 1 {
          RestOfWindow(limit, e, times[1..], from);
        }
      }
    }
  }

  /** In every half-open interval of one window length a key is answered ok at most 2·max − 1 times. */
  lemma IntervalBound(limit: Limit, times: seq<int>, from: int)
    requires Rising(times)
    ensures OkBetween(limit, None, times, from) <= if limit.max == 0 then 0 else 2 * limit.max - 1
  {
    TwoWindows(limit, None, times, from);
  }

  lemma {:induction false} TimesRise(key: string, steps: seq<Step>, clock: int)
    requires Monotone(clock, steps)
    ensures Rising(Times(key, steps)) && forall t | t in Times(key, steps) :: clock <= t
    decreases |steps|
  {
    if steps != [] {
      TimesRise(key, steps[1..], steps[0].at);
      var later := Times(key, steps[1..]);
      assert forall i | 0 <= i < |later| :: later[i] in later;
    }
  }

  /** Both bounds over every run, with any other keys and any sweeps in it. */
  lemma RunBounds(limit: Limit, steps: seq<Step>, clock: int, key: string, from: int, reset: int)
    requires Monotone(clock, steps) && 0 < limit.windowMs
    ensures OkInWindow(AnswersTo(key, Answers(limit, map[], steps)), reset) <= limit.max
    ensures OkGiven(Times(key, steps), AnswersTo(key, Answers(limit, map[], steps)), from, limit.windowMs)
         <= if limit.max == 0 then 0 else 2 * limit.max - 1
  {
    TimesRise(key, steps, clock);
    KeysDoNotInterfere(limit, steps, clock, key);
    WindowBound(limit, None, Times(key, steps), reset);
    IntervalBound(limit, Times(key, steps), from);
    TicksAreAnswers(limit, None, Times(key, steps), from);
  }

  /** How many of the answers, each given at its time, are ok and fall in [from, from + length). */
  function OkGiven(times: seq<int>, answers: seq<Answer>, from: int, length: nat): nat
    decreases |times|
  {
    if times == [] || answers == [] then 0
    else
      (if from <= times[0] < from + length && answers[0].ok then 1 else 0)
      + OkGiven(times[1..], answers[1..], from, length)
  }

  /** One answer for each check, and the checks counted ok are those answered ok. */
  lemma {:induction false} TicksAreAnswers(limit: Limit, entry: Option<Entry>, times: seq<int>, from: int)
    ensures |KeyAnswers(limit, entry, times)| == |times|
    ensures OkBetween(limit, entry, times, from)
        == OkGiven(times, KeyAnswers(limit, entry, times), from, limit.windowMs)
    decreases |times|
  {
    if times != [] {
      var e := limit.Tick(entry, times[0]);
      var later := KeyAnswers(limit, Some(e), times[1..]);
      assert ([limit.Reply(e)] + later)[1..] == later;
      TicksAreAnswers(limit, Some(e), times[1..], from);
    }
  }

  function Repeat(t: int, n: nat): (r: seq<int>)
    ensures |r| == n && forall i | 0 <= i < n :: r[i] == t
  {
    seq(n, _ => t)
  }

  lemma {:induction false} BurstOk(limit: Limit, e: Entry, t: int, n: nat, from: int, more: seq<int>)
    requires t < e.reset && from <= t < from + limit.windowMs && e.count + n <= limit.max
    ensures OkBetween(limit, Some(e), Repeat(t, n) + more, from)
         == n + OkBetween(limit, Some(Entry(e.count + n, e.reset)), more, from)
    decreases n
  {
    if n == 0 {
      assert Repeat(t, 0) + more == more;
    } else {
      assert (Repeat(t, n) + more)[1..] == Repeat(t, n - 1) + more;
      BurstOk(limit, Entry(e.count + 1, e.reset), t, n - 1, from, more);
    }
  }

  /** That bound is reached: one check opens a window, the rest of it is used in its last millisecond
      and a full window right after. */
  lemma IntervalBoundIsTight(limit: Limit)
    requires 1 < limit.windowMs && 0 < limit.max
    ensures var w := limit.windowMs;
            var times := [0] + Repeat(w - 1, limit.max - 1) + Repeat(w, limit.max);
            && Rising(times) && OkBetween(limit, None, times, w - 1) == 2 * limit.max - 1
            && OkGiven(times, KeyAnswers(limit, None, times), w - 1, w) == 2 * limit.max - 1
  {
    hide Rising;
    var w, m := limit.windowMs, limit.max;
    TightTimesRise(w, m);
    var burst := Repeat(w, m);
    var times := [0] + Repeat(w - 1, m - 1) + burst;
    assert times[1..] == Repeat(w - 1, m - 1) + burst;
    BurstOk(limit, Entry(1, w), w - 1, m - 1, w - 1, burst);
    assert burst[0] == w && burst[1..] == Repeat(w, m - 1) + [];
    BurstOk(limit, Entry(1, w + w), w, m - 1, w - 1, []);
    TicksAreAnswers(limit, None, times, w - 1);
  }

  lemma TightTimesRise(w: int, m: nat)
    requires 1 < w && 0 < m
    ensures Rising([0] + Repeat(w - 1, m - 1) + Repeat(w, m))
  {
    var times := [0] + Repeat(w - 1, m - 1) + Repeat(w, m);
    assert forall i | 0 <= i < |times| :: times[i] == if i == 0 then 0 else if i < m then w - 1 else w;
  }

  // ---------- Every answer ----------

  /** The first `n` checks fall into the window that the first of them opens. */
  predicate OneWindow(windowMs: nat, times: seq<int>, n: nat)
    requires 0 < n <= |times|
  {
    forall i | 0 < i < n :: times[i] < times[0] + windowMs
  }

  /** The answers within a window: the i-th of them is ok up to `max`, says how many are left and when the window
      ends; the next check after that starts all over. */
  lemma AnswersOfWindow(limit: Limit, times: seq<int>, n: nat)
    requires 0 < n <= |times| && OneWindow(limit.windowMs, times, n)
    requires n < |times| ==> times[0] + limit.windowMs <= times[n]
    ensures var answers := KeyAnswers(limit, None, times);
            && |answers| == |times|
            && (forall i | 0 <= i < n ::
                  answers[i] == Answer(i < limit.max, if i < limit.max then limit.max - i - 1 else 0,
                                       times[0] + limit.windowMs))
            && answers[n..] == KeyAnswers(limit, None, times[n..])
  {
    var e := Entry(1, times[0] + limit.windowMs);
    AnswersWithin(limit, e, times[1..], n - 1);
    TicksAreAnswers(limit, None, times, 0);
    var answers := KeyAnswers(limit, None, times);
    var later := KeyAnswers(limit, Some(e), times[1..]);
    assert answers[1..] == later;
    assert forall i | 0 < i < n :: answers[i] == later[i - 1];
    assert answers[n..] == later[n - 1..] && times[1..][n - 1..] == times[n..];
  }

  lemma {:induction false} AnswersWithin(limit: Limit, e: Entry, times: seq<int>, n: nat)
    requires n <= |times| && (forall i | 0 <= i < n :: times[i] < e.reset) && (n < |times| ==> e.reset <= times[n])
    ensures var answers := KeyAnswers(limit, Some(e), times);
            && |answers| == |times|
            && (forall i | 0 <= i < n ::
                  var count := e.count + i + 1;
                  answers[i]
                  == Answer(count <= limit.max, if count <= limit.max then limit.max - count else 0, e.reset))
            && answers[n..] == KeyAnswers(limit, None, times[n..])
    decreases n
  {
    TicksAreAnswers(limit, Some(e), times, 0);
    var answers := KeyAnswers(limit, Some(e), times);
    if n == 0 {
      assert times[0..] == times && answers[0..] == answers;
    } else {
      var e' := Entry(e.count + 1, e.reset);
      AnswersWithin(limit, e', times[1..], n - 1);
      var later := KeyAnswers(limit, Some(e'), times[1..]);
      assert answers[1..] == later;
      assert forall i | 0 < i < n :: answers[i] == later[i - 1];
      assert answers[n..] == later[n - 1..] && times[1..][n - 1..] == times[n..];
    }
  }
}
