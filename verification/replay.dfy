/** The replay cache of packages/auth/src/signed-request.js and the verify/has/add sequence of
    apps/web/lib/auth/verify-signed-request.js. */
module Replay {
  import opened Options
  import Decimal

  const REPLAY_WINDOW_SECONDS := 60
  const DEFAULT_MAX := 10_000
  const TTL_MS := REPLAY_WINDOW_SECONDS * 2 * 1000

  datatype Entry = Entry(nonce: string, expiresAt: int)

  // ---------- A Map in insertion order ----------

  type Seen = seq<Entry>

  function Lookup(seen: Seen, nonce: string): Option<int> {
    if seen == [] then None else if seen[0].nonce == nonce then Some(seen[0].expiresAt) else Lookup(seen[1..], nonce)
  }

  function Delete(seen: Seen, nonce: string): Seen {
    if seen == [] then [] else if seen[0].nonce == nonce then seen[1..] else [seen[0]] + Delete(seen[1..], nonce)
  }

  function Put(seen: Seen, nonce: string, expiresAt: int): Seen {
    if seen == [] then [Entry(nonce, expiresAt)]
    else if seen[0].nonce == nonce then [Entry(nonce, expiresAt)] + seen[1..]
    else [seen[0]] + Put(seen[1..], nonce, expiresAt)
  }

  // ---------- The cache ----------

  function Has(seen: Seen, nonce: string, now: int): (bool, Seen) {
    var expiresAt := Lookup(seen, nonce);
    if expiresAt.None? || expiresAt.value == 0 then (false, seen)
    else if expiresAt.value < now then (false, Delete(seen, nonce))
    else (true, seen)
  }

  function Add(seen: Seen, max: nat, ttlMs: int, nonce: string, now: int): Seen {
    var room := if max <= |seen| && seen != [] && seen[0].nonce != "" then Delete(seen, seen[0].nonce) else seen;
    Put(room, nonce, now + ttlMs)
  }

  class ReplayCache {
    const max: nat
    const ttlMs: int
    var seen: Seen

    constructor (max: nat := DEFAULT_MAX, ttlMs: int := TTL_MS)
      ensures this.max == max && this.ttlMs == ttlMs && seen == []
    {
      this.max, this.ttlMs, seen := max, ttlMs, [];
    }

    method Contains(nonce: string, now: int) returns (found: bool)
      modifies this
      ensures (found, seen) == Has(old(seen), nonce, now)
    {
      var expiresAt := Lookup(seen, nonce);
      if expiresAt.None? || expiresAt.value == 0 {
        return false;
      }
      if expiresAt.value < now {
        seen := Delete(seen, nonce);
        return false;
      }
      found := true;
    }

    method Insert(nonce: string, now: int)
      modifies this
      ensures seen == Add(old(seen), max, ttlMs, nonce, now)
    {
      if |seen| >= max && seen != [] {
        var firstKey := seen[0].nonce;
        if firstKey != "" {
          seen := Delete(seen, firstKey);
        }
      }
      seen := Put(seen, nonce, now + ttlMs);
    }
  }

  // ---------- Handling a request ----------

  /** A request as `verifySignedNextRequest` sees it: the envelope's time, any number of seconds, and its
      nonce, whether header and signature check out, and the clock (ms) when it is verified, looked up and recorded. */
  datatype Request = Request(createdAt: real, nonce: string, authentic: bool, verifiedAt: int, lookedUpAt: int,
                             addedAt: int)

  datatype Verdict = Accepted | OutsideWindow | NotAuthentic | NonceUsed

  /** `Math.floor(ms / 1000)` */
  function Seconds(ms: int): int {
    ms / 1000
  }

  /** `Math.abs(nowSec - created_at)` */
  function Skew(createdAt: real, now: int): real {
    var d := Seconds(now) as real - createdAt;
    if d < 0.0 then -d else d
  }

  predicate InWindow(createdAt: real, now: int) {
    Skew(createdAt, now) <= REPLAY_WINDOW_SECONDS as real
  }

  function Handle(seen: Seen, max: nat, r: Request): (Verdict, Seen) {
    if r.nonce == "" then (NotAuthentic, seen)
    else if !InWindow(r.createdAt, r.verifiedAt) then (OutsideWindow, seen)
    else if !r.authentic then (NotAuthentic, seen)
    else
      var (found, seen') := Has(seen, r.nonce, r.lookedUpAt);
      if found then (NonceUsed, seen') else (Accepted, Add(seen', max, TTL_MS, r.nonce, r.addedAt))
  }

  method VerifySignedRequest(cache: ReplayCache, r: Request) returns (verdict: Verdict)
    requires cache.ttlMs == TTL_MS
    modifies cache
    ensures (verdict, cache.seen) == Handle(old(cache.seen), cache.max, r)
  {
    if r.nonce == "" {
      return NotAuthentic;
    }
    var nowSec := Seconds(r.verifiedAt) as real;
    var skew := if nowSec < r.createdAt then r.createdAt - nowSec else nowSec - r.createdAt;
    if skew > REPLAY_WINDOW_SECONDS as real {
      return OutsideWindow;
    }
    if !r.authentic {
      return NotAuthentic;
    }
    var used := cache.Contains(r.nonce, r.lookedUpAt);
    if used {
      return NonceUsed;
    }
    cache.Insert(r.nonce, r.addedAt);
    verdict := Accepted;
  }

  function Run(seen: Seen, max: nat, reqs: seq<Request>): Seen
    decreases |reqs|
  {
    if reqs == [] then seen else Run(Handle(seen, max, reqs[0]).1, max, reqs[1..])
  }

  function AcceptedIn(seen: Seen, max: nat, reqs: seq<Request>): nat
    decreases |reqs|
  {
    if reqs == [] then 0
    else
      var (v, seen') := Handle(seen, max, reqs[0]);
      (if v.Accepted? then 1 else 0) + AcceptedIn(seen', max, reqs[1..])
  }

  /** The clock never goes back, within a request or between requests. */
  predicate Monotone(clock: int, reqs: seq<Request>)
    decreases |reqs|
  {
    reqs == [] || (clock <= reqs[0].verifiedAt <= reqs[0].lookedUpAt <= reqs[0].addedAt
        && Monotone(reqs[0].addedAt, reqs[1..]))
  }

  function ClockAfter(clock: int, reqs: seq<Request>): int {
    if reqs == [] then clock else reqs[|reqs| - 1].addedAt
  }

  // ---------- The cache invariant ----------

  ghost predicate CacheOk(seen: Seen, max: nat, clock: int) {
    && |seen| <= max
    && (forall i, j | 0 <= i < j < |seen| :: seen[i].nonce != seen[j].nonce && seen[i].expiresAt <= seen[j].expiresAt)
    && (forall i | 0 <= i < |seen| :: seen[i].nonce != "" && 0 < seen[i].expiresAt <= clock + TTL_MS)
  }

  lemma {:induction false} LookupFinds(seen: Seen, nonce: string)
    ensures match Lookup(seen, nonce)
            case Some(x) => Entry(nonce, x) in seen
            case None => forall e | e in seen :: e.nonce != nonce
  {
    if seen != [] { LookupFinds(seen[1..], nonce); }
  }

  function Without(seen: Seen, i: nat): Seen
    requires i < |seen|
  {
    seen[..i] + seen[i + 1..]
  }

  lemma {:induction false} DeleteSplits(seen: Seen, nonce: string) returns (i: nat)
    requires Lookup(seen, nonce).Some?
    ensures i < |seen| && seen[i].nonce == nonce && Delete(seen, nonce) == Without(seen, i)
  {
    i := 0;
    if seen[0].nonce != nonce {
      i := DeleteSplits(seen[1..], nonce);
      assert [seen[0]] + Without(seen[1..], i) == Without(seen, i + 1);
      i := i + 1;
    }
  }

  lemma {:induction false} PutAppends(seen: Seen, nonce: string, expiresAt: int)
    requires forall e | e in seen :: e.nonce != nonce
    ensures Put(seen, nonce, expiresAt) == seen + [Entry(nonce, expiresAt)]
  {
    if seen != [] {
      assert seen[0] in seen;
      PutAppends(seen[1..], nonce, expiresAt);
    }
  }

  /** `has` keeps the cache in order; after a miss the nonce is gone. */
  lemma HasKeeps(seen: Seen, max: nat, clock: int, nonce: string, now: int)
    requires CacheOk(seen, max, clock)
    ensures var (found, seen') := Has(seen, nonce, now);
            && CacheOk(seen', max, clock)
            && (found ==> seen' == seen)
            && (!found ==> forall e | e in seen' :: e.nonce != nonce)
  {
    hide Lookup, Delete, CacheOk, Without;
    LookupFinds(seen, nonce);
    if Lookup(seen, nonce).Some? {
      LookupIsPositive(seen, max, clock, nonce);
      var i := DeleteSplits(seen, nonce);
      RemoveOne(seen, max, clock, i);
    }
  }

  lemma LookupIsPositive(seen: Seen, max: nat, clock: int, nonce: string)
    requires CacheOk(seen, max, clock) && Lookup(seen, nonce).Some?
    ensures 0 < Lookup(seen, nonce).value
  {
    hide Lookup;
    LookupFinds(seen, nonce);
  }

  lemma RemoveOne(seen: Seen, max: nat, clock: int, i: nat)
    requires CacheOk(seen, max, clock) && i < |seen|
    ensures CacheOk(Without(seen, i), max, clock)
    ensures forall e | e in Without(seen, i) :: e.nonce != seen[i].nonce
  {
    var seen' := Without(seen, i);
    assert forall j | 0 <= j < |seen'| :: seen'[j] == if j < i then seen[j] else seen[j + 1];
  }

  /** What `add` does to a cache that does not hold the nonce: the oldest entry makes room. */
  lemma AddAppends(seen: Seen, max: nat, clock: int, nonce: string, now: int)
    requires CacheOk(seen, max, clock) && 0 < max && 0 <= clock <= now && nonce != ""
    requires forall e | e in seen :: e.nonce != nonce
    ensures var room := if |seen| == max then seen[1..] else seen;
            Add(seen, max, TTL_MS, nonce, now) == room + [Entry(nonce, now + TTL_MS)]
    ensures CacheOk(Add(seen, max, TTL_MS, nonce, now), max, now)
  {
    AddIsPut(seen, max, clock, nonce, now);
    var room := if |seen| == max then seen[1..] else seen;
    assert forall i | 0 <= i < |room| :: room[i] == seen[if |seen| == max then i + 1 else i];
    PutAppends(room, nonce, now + TTL_MS);
    AppendKeeps(room, max, clock, nonce, now);
  }

  lemma AddIsPut(seen: Seen, max: nat, clock: int, nonce: string, now: int)
    requires CacheOk(seen, max, clock) && 0 < max
    ensures Add(seen, max, TTL_MS, nonce, now) == Put(if |seen| == max then seen[1..] else seen, nonce, now + TTL_MS)
  {
    hide Put;
  }

  lemma AppendKeeps(room: Seen, max: nat, clock: int, nonce: string, now: int)
    requires CacheOk(room, max, clock) && |room| < max && 0 <= clock <= now && nonce != ""
    requires forall e | e in room :: e.nonce != nonce
    ensures CacheOk(room + [Entry(nonce, now + TTL_MS)], max, now)
  {
    var r := room + [Entry(nonce, now + TTL_MS)];
    assert forall i | 0 <= i < |room| :: r[i] == room[i] && room[i] in room;
  }

  lemma HandleKeeps(seen: Seen, max: nat, clock: int, r: Request)
    requires CacheOk(seen, max, clock) && 0 < max && 0 <= clock
    requires Monotone(clock, [r])
    ensures CacheOk(Handle(seen, max, r).1, max, r.addedAt)
  {
    HasKeeps(seen, max, clock, r.nonce, r.lookedUpAt);
    var (found, seen') := Has(seen, r.nonce, r.lookedUpAt);
    if r.nonce != "" && !found { AddAppends(seen', max, clock, r.nonce, r.addedAt); }
  }

  /** Over every run the cache stays within its size, in insertion order, with nondecreasing expiry. */
  lemma {:induction false} RunKeeps(seen: Seen, max: nat, clock: int, reqs: seq<Request>)
    requires CacheOk(seen, max, clock) && 0 < max && 0 <= clock && Monotone(clock, reqs)
    ensures CacheOk(Run(seen, max, reqs), max, ClockAfter(clock, reqs))
    decreases |reqs|
  {
    if reqs != [] {
      HandleKeeps(seen, max, clock, reqs[0]);
      RunKeeps(Handle(seen, max, reqs[0]).1, max, reqs[0].addedAt, reqs[1..]);
    }
  }

  // ---------- A young entry survives ----------

  predicate SitsAt(seen: Seen, i: nat, e: Entry) {
    i < |seen| && seen[i] == e
  }

  /** One request moves an entry that has not expired by at most one place towards the front, and only
      when it is accepted; it cannot itself be accepted for the entry's nonce. */
  lemma HandleSpares(seen: Seen, max: nat, clock: int, i: nat, e: Entry, r: Request) returns (i': nat)
    requires CacheOk(seen, max, clock) && 0 < max && 0 <= clock && Monotone(clock, [r])
    requires SitsAt(seen, i, e) && r.lookedUpAt <= e.expiresAt
    requires |seen| - i + (if Handle(seen, max, r).0.Accepted? then 1 else 0) <= max
    ensures var (v, seen') := Handle(seen, max, r);
            && SitsAt(seen', i', e)
            && |seen'| - i' <= |seen| - i + (if v.Accepted? then 1 else 0)
            && (r.nonce == e.nonce ==> !v.Accepted?)
  {
    hide Has, Add, Lookup, Delete;
    i' := i;
    if r.nonce != "" && InWindow(r.createdAt, r.verifiedAt) && r.authentic {
      HasKeeps(seen, max, clock, r.nonce, r.lookedUpAt);
      i' := HasSpares(seen, max, clock, i, e, r.nonce, r.lookedUpAt);
      var (found, kept) := Has(seen, r.nonce, r.lookedUpAt);
      if !found {
        AddAppends(kept, max, clock, r.nonce, r.addedAt);
        if |kept| == max {
          i' := i' - 1;
        }
      }
    }
  }

  lemma HasSpares(seen: Seen, max: nat, clock: int, i: nat, e: Entry, nonce: string, now: int) returns (i': nat)
    requires CacheOk(seen, max, clock) && SitsAt(seen, i, e) && now <= e.expiresAt
    ensures var (found, kept) := Has(seen, nonce, now);
            && SitsAt(kept, i', e)
            && |kept| - i' <= |seen| - i
            && (nonce == e.nonce ==> found)
  {
    hide Lookup, Delete;
    i' := i;
    LookupIs(seen, i);
    LookupIsPositive(seen, max, clock, e.nonce);
    if Has(seen, nonce, now).1 != seen {
      var d := DeleteSplits(seen, nonce);
      i' := if i < d then i else i - 1;
    }
  }

  lemma {:induction false} LookupIs(seen: Seen, i: nat)
    requires i < |seen| && forall j, k | 0 <= j < k < |seen| :: seen[j].nonce != seen[k].nonce
    ensures Lookup(seen, seen[i].nonce) == Some(seen[i].expiresAt)
  {
    if i != 0 {
      LookupIs(seen[1..], i - 1);
    }
  }

  /** The bounded cache agrees with an unbounded history: an entry is still there as long as it has not
      expired and fewer than `max` requests, its own included, have been accepted since. */
  lemma {:induction false} YoungEntrySurvives(seen: Seen, max: nat, clock: int, i: nat, e: Entry, reqs: seq<Request>)
    requires CacheOk(seen, max, clock) && 0 < max && 0 <= clock && Monotone(clock, reqs)
    requires SitsAt(seen, i, e) && ClockAfter(clock, reqs) <= e.expiresAt
    requires |seen| - i + AcceptedIn(seen, max, reqs) <= max
    ensures e in Run(seen, max, reqs)
    decreases |reqs|
  {
    if reqs != [] {
      ClockRises(reqs[0].addedAt, reqs[1..]);
      assert ClockAfter(clock, reqs) == ClockAfter(reqs[0].addedAt, reqs[1..]);
      HandleKeeps(seen, max, clock, reqs[0]);
      var i' := HandleSpares(seen, max, clock, i, e, reqs[0]);
      YoungEntrySurvives(Handle(seen, max, reqs[0]).1, max, reqs[0].addedAt, i', e, reqs[1..]);
    }
  }

  lemma {:induction false} ClockRises(clock: int, reqs: seq<Request>)
    requires Monotone(clock, reqs)
    ensures clock <= ClockAfter(clock, reqs)
    decreases |reqs|
  {
    if reqs != [] {
      ClockRises(reqs[0].addedAt, reqs[1..]);
      assert ClockAfter(clock, reqs) == ClockAfter(reqs[0].addedAt, reqs[1..]);
    }
  }

  // ---------- No envelope is accepted twice ----------

  /** `between` and then `again` can follow `first` while the load stays below the cache size. */
  predicate Follows(seen: Seen, max: nat, first: Request, between: seq<Request>, again: Request) {
    && Monotone(first.addedAt, between)
    && Monotone(ClockAfter(first.addedAt, between), [again])
    && 1 + AcceptedIn(Handle(seen, max, first).1, max, between) <= max
  }

  /** A nonce accepted once is refused for TTL_MS, whatever else is accepted in between. */
  lemma NonceRefusedWithinTtl(seen: Seen, max: nat, clock: int, first: Request, between: seq<Request>, again: Request)
    requires CacheOk(seen, max, clock) && 0 < max && 0 <= clock && Monotone(clock, [first])
    requires Handle(seen, max, first).0.Accepted? && again.nonce == first.nonce
    requires Follows(seen, max, first, between, again)
    requires again.lookedUpAt <= first.addedAt + TTL_MS
    ensures !Handle(Run(Handle(seen, max, first).1, max, between), max, again).0.Accepted?
  {
    hide InWindow, Lookup, Delete, Add, Handle;
    var seen1 := Handle(seen, max, first).1;
    FirstSitsLast(seen, max, clock, first);
    var e := Entry(first.nonce, first.addedAt + TTL_MS);
    YoungEntrySurvives(seen1, max, first.addedAt, |seen1| - 1, e, between);
    RunKeeps(seen1, max, first.addedAt, between);
    KnownIsRefused(Run(seen1, max, between), max, ClockAfter(first.addedAt, between), e, again);
  }

  lemma KnownIsRefused(seen: Seen, max: nat, clock: int, e: Entry, again: Request)
    requires CacheOk(seen, max, clock) && e in seen && again.nonce == e.nonce && again.lookedUpAt <= e.expiresAt
    ensures !Handle(seen, max, again).0.Accepted?
  {
    hide InWindow, Lookup, Delete, Add;
    var i :| 0 <= i < |seen| && seen[i] == e;
    LookupIs(seen, i);
  }

  /** The same envelope sent again, looked up at most `lag` ms after it was verified: the clock is read
      once for the window and again for the cache, with hashing and a signature check in between. */
  predicate Repeats(first: Request, again: Request, lag: nat) {
    && again.createdAt == first.createdAt && again.nonce == first.nonce && again.authentic == first.authentic
    && again.lookedUpAt <= again.verifiedAt + lag
  }

  /** No continuation below the load bound accepts the envelope a second time. */
  ghost predicate NeverAcceptedAgain(seen: Seen, max: nat, first: Request, lag: nat) {
    forall between, again | Follows(seen, max, first, between, again) && Repeats(first, again, lag) ::
      !Handle(Run(Handle(seen, max, first).1, max, between), max, again).0.Accepted?
  }

  /** How far ahead of its recording an envelope may be dated, in whole seconds, for the time-to-live to
      cover every moment of its replay window: the window test counts whole seconds, the cache
      milliseconds. */
  const MAX_LEAD_MS := TTL_MS - REPLAY_WINDOW_SECONDS * 1000 - 999

  /** The last millisecond at which an envelope passes the window test. */
  function WindowEnd(createdAt: real): int {
    (createdAt.Floor + REPLAY_WINDOW_SECONDS) * 1000 + 999
  }

  lemma WindowEnds(createdAt: real, now: int)
    ensures InWindow(createdAt, now) ==> now <= WindowEnd(createdAt)
    ensures InWindow(createdAt, WindowEnd(createdAt))
  {
    assert Seconds(WindowEnd(createdAt)) == createdAt.Floor + REPLAY_WINDOW_SECONDS;
    if InWindow(createdAt, now) {
      assert (Seconds(now) - REPLAY_WINDOW_SECONDS) as real <= createdAt;
      assert Seconds(now) - REPLAY_WINDOW_SECONDS <= createdAt.Floor;
    }
  }

  /** Exactly when an accepted envelope can never be accepted again below the load bound, for every
      bound on the time between the two clock readings: it was dated early enough for the
      time-to-live to outlast the window by that time, or its window was already over when it was
      recorded. */
  lemma ReplayProtectionIsExact(seen: Seen, max: nat, clock: int, first: Request, lag: nat)
    requires CacheOk(seen, max, clock) && 0 < max && 0 <= clock && Monotone(clock, [first])
    requires Handle(seen, max, first).0.Accepted?
    ensures NeverAcceptedAgain(seen, max, first, lag)
       <==> (first.createdAt.Floor * 1000 + lag <= first.addedAt + MAX_LEAD_MS
                  || WindowEnd(first.createdAt) < first.addedAt)
    ensures lag <= TTL_MS ==>
              (NeverAcceptedAgain(seen, max, first, lag)
               <==> first.createdAt.Floor * 1000 + lag <= first.addedAt + MAX_LEAD_MS)
  {
    hide InWindow;
    if first.createdAt.Floor * 1000 + lag <= first.addedAt + MAX_LEAD_MS || WindowEnd(first.createdAt) < first.addedAt {
      forall between, again | Follows(seen, max, first, between, again) && Repeats(first, again, lag)
        ensures !Handle(Run(Handle(seen, max, first).1, max, between), max, again).0.Accepted?
      {
        WindowEnds(again.createdAt, again.verifiedAt);
        ClockRises(first.addedAt, between);
        if InWindow(again.createdAt, again.verifiedAt) {
          NonceRefusedWithinTtl(seen, max, clock, first, between, again);
        }
      }
    } else {
      AcceptedAgain(seen, max, clock, first, lag);
    }
  }

  /** The repeat that gets through: verified in the last millisecond of the window, looked up `lag` later. */
  lemma AcceptedAgain(seen: Seen, max: nat, clock: int, first: Request, lag: nat)
    requires CacheOk(seen, max, clock) && 0 < max && 0 <= clock && Monotone(clock, [first])
    requires Handle(seen, max, first).0.Accepted?
    requires first.addedAt <= WindowEnd(first.createdAt)
        && first.addedAt + MAX_LEAD_MS < first.createdAt.Floor * 1000 + lag
    ensures !NeverAcceptedAgain(seen, max, first, lag)
  {
    hide InWindow;
    var late := WindowEnd(first.createdAt);
    var again := first.(verifiedAt := late, lookedUpAt := late + lag, addedAt := late + lag);
    WindowEnds(first.createdAt, late);
    var seen1 := Handle(seen, max, first).1;
    FirstSitsLast(seen, max, clock, first);
    LookupIs(seen1, |seen1| - 1);
    assert Run(seen1, max, []) == seen1;
    var none: seq<Request> := [];
    assert AcceptedIn(seen1, max, none) == 0 && ClockAfter(first.addedAt, none) == first.addedAt;
    assert Monotone(first.addedAt, none) && Monotone(first.addedAt, [again]) by { assert [again][1..] == none; }
    assert again.createdAt == first.createdAt;
    assert again.lookedUpAt <= again.verifiedAt + lag;
    assert again.authentic == first.authentic && again.nonce == first.nonce;
    assert Repeats(first, again, lag);
    assert Follows(seen, max, first, none, again);
  }

  /** An accepted request's nonce is the newest entry of a cache in order. */
  lemma FirstSitsLast(seen: Seen, max: nat, clock: int, first: Request)
    requires CacheOk(seen, max, clock) && 0 < max && 0 <= clock && Monotone(clock, [first])
    requires Handle(seen, max, first).0.Accepted?
    ensures var seen1 := Handle(seen, max, first).1;
            && CacheOk(seen1, max, first.addedAt)
            && seen1 != [] && SitsAt(seen1, |seen1| - 1, Entry(first.nonce, first.addedAt + TTL_MS))
  {
    hide InWindow;
    HasKeeps(seen, max, clock, first.nonce, first.lookedUpAt);
    AddAppends(Has(seen, first.nonce, first.lookedUpAt).1, max, clock, first.nonce, first.addedAt);
    HandleKeeps(seen, max, clock, first);
  }

  /** All clock readings of a request are one whole second. */
  predicate OneTimestamp(r: Request) {
    r.verifiedAt == r.lookedUpAt == r.addedAt && r.addedAt % 1000 == 0
  }

  /** With one whole-second time per request no envelope is accepted twice below the load bound. */
  lemma OneTimestampIsSafe(seen: Seen, max: nat, clock: int, first: Request, between: seq<Request>, again: Request)
    requires CacheOk(seen, max, clock) && 0 < max && 0 <= clock && Monotone(clock, [first])
    requires Handle(seen, max, first).0.Accepted? && Follows(seen, max, first, between, again)
    requires OneTimestamp(first) && OneTimestamp(again)
    requires again.nonce == first.nonce && again.createdAt == first.createdAt
    ensures !Handle(Run(Handle(seen, max, first).1, max, between), max, again).0.Accepted?
  {
    if InWindow(again.createdAt, again.verifiedAt) {
      assert Seconds(again.verifiedAt) as real <= Seconds(first.verifiedAt) as real
          + 2.0 * REPLAY_WINDOW_SECONDS as real;
      NonceRefusedWithinTtl(seen, max, clock, first, between, again);
    }
  }

  /** An envelope dated 60 s ahead, accepted by a fresh cache, and the same one 120.999 s later: accepted. */
  lemma DatedAheadIsAcceptedTwice()
    ensures var first := Request(1060.0, "n", true, 1_000_000, 1_000_000, 1_000_000);
            var again := Request(1060.0, "n", true, 1_120_999, 1_120_999, 1_120_999);
            && Monotone(0, [first, again]) && Repeats(first, again, 0)
            && Handle([], DEFAULT_MAX, first).0.Accepted?
            && Handle(Handle([], DEFAULT_MAX, first).1, DEFAULT_MAX, again).0.Accepted?
            && first.addedAt + MAX_LEAD_MS < first.createdAt.Floor * 1000
  {
    AcceptedTwice(Request(1060.0, "n", true, 1_000_000, 1_000_000, 1_000_000),
                  Request(1060.0, "n", true, 1_120_999, 1_120_999, 1_120_999));
  }

  /** A lag of one millisecond is enough when the two readings fall into different seconds: this envelope
      meets the condition for lag 0 only. */
  lemma LagIsAcceptedTwice()
    ensures var first := Request(1060.0, "n", true, 1_000_999, 1_000_999, 1_000_999);
            var again := Request(1060.0, "n", true, 1_120_999, 1_121_000, 1_121_000);
            && Monotone(0, [first, again]) && Repeats(first, again, 1)
            && Handle([], DEFAULT_MAX, first).0.Accepted?
            && Handle(Handle([], DEFAULT_MAX, first).1, DEFAULT_MAX, again).0.Accepted?
            && first.createdAt.Floor * 1000 == first.addedAt + MAX_LEAD_MS
  {
    AcceptedTwice(Request(1060.0, "n", true, 1_000_999, 1_000_999, 1_000_999),
                  Request(1060.0, "n", true, 1_120_999, 1_121_000, 1_121_000));
  }

  lemma AcceptedTwice(first: Request, again: Request)
    requires first.nonce != "" && again.nonce == first.nonce && first.authentic && again.authentic
    requires InWindow(first.createdAt, first.verifiedAt) && InWindow(again.createdAt, again.verifiedAt)
    requires 0 <= first.addedAt && first.addedAt + TTL_MS < again.lookedUpAt
    ensures Handle([], DEFAULT_MAX, first).0.Accepted?
    ensures Handle(Handle([], DEFAULT_MAX, first).1, DEFAULT_MAX, again).0.Accepted?
  {
    hide InWindow;
    assert Handle([], DEFAULT_MAX, first).1 == [Entry(first.nonce, first.addedAt + TTL_MS)];
  }

  // ---------- The load bound is exact ----------

  predicate Absent(seen: Seen, nonce: string) {
    forall e | e in seen :: e.nonce != nonce
  }

  /** No request of the run is accepted with this nonce. */
  predicate NoneAccepted(seen: Seen, max: nat, reqs: seq<Request>, nonce: string)
    decreases |reqs|
  {
    reqs == [] ||
    (var (v, seen') := Handle(seen, max, reqs[0]);
     (v.Accepted? ==> reqs[0].nonce != nonce) && NoneAccepted(seen', max, reqs[1..], nonce))
  }

  /** A look-up before an entry expires deletes nothing at or after it. */
  lemma HasKeepsTail(seen: Seen, max: nat, clock: int, i: nat, e: Entry, nonce: string, now: int) returns (i': nat)
    requires CacheOk(seen, max, clock) && SitsAt(seen, i, e) && now <= e.expiresAt
    ensures var kept := Has(seen, nonce, now).1; SitsAt(kept, i', e) && |kept| - i' == |seen| - i
  {
    hide Lookup, Delete;
    i' := i;
    LookupIs(seen, i);
    LookupFinds(seen, nonce);
    if Has(seen, nonce, now).1 != seen {
      var d := DeleteSplits(seen, nonce);
      LookupIs(seen, d);
      assert d < i by { assert seen[d].expiresAt < now <= seen[i].expiresAt; }
      i' := i - 1;
    }
  }

  /** One request, as long as the entry has not expired: everything recorded after it stays, and it goes
      only when it is the oldest of a full cache and another nonce is recorded. */
  lemma HandleEvicts(seen: Seen, max: nat, clock: int, i: nat, e: Entry, r: Request) returns (i': nat)
    requires CacheOk(seen, max, clock) && 0 < max && 0 <= clock && Monotone(clock, [r])
    requires SitsAt(seen, i, e) && r.lookedUpAt <= e.expiresAt
    ensures var (v, seen') := Handle(seen, max, r);
            if v.Accepted? && |seen| - i == max then Absent(seen', e.nonce)
            else SitsAt(seen', i', e) && |seen'| - i' == |seen| - i + (if v.Accepted? then 1 else 0)
  {
    hide Has, Add, Lookup, Delete, InWindow, CacheOk;
    i' := i;
    if r.nonce != "" && InWindow(r.createdAt, r.verifiedAt) && r.authentic {
      HasKeeps(seen, max, clock, r.nonce, r.lookedUpAt);
      i' := HasKeepsTail(seen, max, clock, i, e, r.nonce, r.lookedUpAt);
      var (found, kept) := Has(seen, r.nonce, r.lookedUpAt);
      if !found {
        AddAppends(kept, max, clock, r.nonce, r.addedAt);
        SizeOk(kept, max, clock);
        if |kept| == max {
          if i' == 0 {
            OldestGoes(kept, max, clock, e, r.nonce, r.addedAt + TTL_MS);
          } else {
            i' := i' - 1;
          }
        }
      }
    }
  }

  lemma SizeOk(seen: Seen, max: nat, clock: int)
    requires CacheOk(seen, max, clock)
    ensures |seen| <= max
  {
  }

  lemma OldestGoes(kept: Seen, max: nat, clock: int, e: Entry, nonce: string, expiresAt: int)
    requires CacheOk(kept, max, clock) && SitsAt(kept, 0, e) && Absent(kept, nonce)
    ensures Absent(kept[1..] + [Entry(nonce, expiresAt)], e.nonce)
  {
    forall x | x in kept[1..] + [Entry(nonce, expiresAt)] ensures x.nonce != e.nonce {
      if x in kept[1..] {
        var j :| 0 <= j < |kept[1..]| && kept[1..][j] == x;
        assert kept[j + 1] == x;
      } else {
        assert e in kept;
      }
    }
  }

  /** A nonce that is gone stays gone while no request is accepted with it. */
  lemma {:induction false} StaysAbsent(seen: Seen, max: nat, clock: int, reqs: seq<Request>, nonce: string)
    requires CacheOk(seen, max, clock) && 0 < max && 0 <= clock && Monotone(clock, reqs)
    requires Absent(seen, nonce) && NoneAccepted(seen, max, reqs, nonce)
    ensures Absent(Run(seen, max, reqs), nonce)
    decreases |reqs|
  {
    hide InWindow;
    if reqs != [] {
      HandleKeeps(seen, max, clock, reqs[0]);
      HandleKeepsAbsent(seen, max, clock, reqs[0], nonce);
      StaysAbsent(Handle(seen, max, reqs[0]).1, max, reqs[0].addedAt, reqs[1..], nonce);
    }
  }

  lemma HandleKeepsAbsent(seen: Seen, max: nat, clock: int, r: Request, nonce: string)
    requires CacheOk(seen, max, clock) && 0 < max && 0 <= clock && Monotone(clock, [r])
    requires Absent(seen, nonce) && (Handle(seen, max, r).0.Accepted? ==> r.nonce != nonce)
    ensures Absent(Handle(seen, max, r).1, nonce)
  {
    hide Lookup, Delete, InWindow, CacheOk, Add;
    HasKeeps(seen, max, clock, r.nonce, r.lookedUpAt);
    LookupFinds(seen, r.nonce);
    if Lookup(seen, r.nonce).Some? {
      var d := DeleteSplits(seen, r.nonce);
      assert forall e | e in Without(seen, d) :: e in seen;
    }
    var (found, kept) := Has(seen, r.nonce, r.lookedUpAt);
    if r.nonce != "" && !found {
      AddAppends(kept, max, clock, r.nonce, r.addedAt);
    }
  }

  /** The unexpired entry is there exactly while fewer than `max` nonces have been recorded since. */
  lemma {:induction false} EvictedAtBound(seen: Seen, max: nat, clock: int, i: nat, e: Entry, reqs: seq<Request>)
    requires CacheOk(seen, max, clock) && 0 < max && 0 <= clock && Monotone(clock, reqs)
    requires SitsAt(seen, i, e) && ClockAfter(clock, reqs) <= e.expiresAt
    requires NoneAccepted(seen, max, reqs, e.nonce)
    ensures max < |seen| - i + AcceptedIn(seen, max, reqs) ==> Absent(Run(seen, max, reqs), e.nonce)
    decreases |reqs|
  {
    hide InWindow, Handle;
    if reqs != [] {
      ClockRises(reqs[0].addedAt, reqs[1..]);
      assert ClockAfter(clock, reqs) == ClockAfter(reqs[0].addedAt, reqs[1..]);
      HandleKeeps(seen, max, clock, reqs[0]);
      var i' := HandleEvicts(seen, max, clock, i, e, reqs[0]);
      var (v, seen') := Handle(seen, max, reqs[0]);
      if v.Accepted? && |seen| - i == max {
        StaysAbsent(seen', max, reqs[0].addedAt, reqs[1..], e.nonce);
      } else {
        EvictedAtBound(seen', max, reqs[0].addedAt, i', e, reqs[1..]);
      }
    }
  }

  /** Within its time to live an accepted nonce is accepted again if and only if `max` or more requests have
      been accepted since. */
  lemma LoadBoundIsExact(seen: Seen, max: nat, clock: int, first: Request, between: seq<Request>, again: Request)
    requires CacheOk(seen, max, clock) && 0 < max && 0 <= clock && Monotone(clock, [first])
    requires Handle(seen, max, first).0.Accepted?
    requires Monotone(first.addedAt, between) && Monotone(ClockAfter(first.addedAt, between), [again])
    requires NoneAccepted(Handle(seen, max, first).1, max, between, first.nonce)
    requires again.nonce == first.nonce && again.authentic && InWindow(again.createdAt, again.verifiedAt)
    requires again.lookedUpAt <= first.addedAt + TTL_MS
    ensures var seen1 := Handle(seen, max, first).1;
            Handle(Run(seen1, max, between), max, again).0.Accepted? <==> max <= AcceptedIn(seen1, max, between)
  {
    hide InWindow;
    var seen1 := Handle(seen, max, first).1;
    if AcceptedIn(seen1, max, between) < max {
      assert Follows(seen, max, first, between, again);
      NonceRefusedWithinTtl(seen, max, clock, first, between, again);
    } else {
      FirstSitsLast(seen, max, clock, first);
      EvictedAtBound(seen1, max, first.addedAt, |seen1| - 1, Entry(first.nonce, first.addedAt + TTL_MS), between);
      LookupFinds(Run(seen1, max, between), again.nonce);
    }
  }

  /** Requests of one moment with nonces counted from k on. */
  function Others(k: nat, n: nat): seq<Request>
    decreases n
  {
    if n == 0 then []
    else
      [Request(1000.0, "m" + Decimal.Print(k), true, 1_000_000, 1_000_000, 1_000_000)] + Others(k + 1, n - 1)
  }

  ghost predicate NoLater(seen: Seen, k: nat) {
    forall e, j: nat | e in seen && k <= j :: e.nonce != "m" + Decimal.Print(j)
  }

  lemma {:induction false} OthersAreAccepted(seen: Seen, max: nat, k: nat, n: nat)
    requires CacheOk(seen, max, 1_000_000) && 0 < max && NoLater(seen, k)
    ensures AcceptedIn(seen, max, Others(k, n)) == n
    ensures NoneAccepted(seen, max, Others(k, n), "n")
    ensures Monotone(1_000_000, Others(k, n)) && ClockAfter(1_000_000, Others(k, n)) == 1_000_000
    decreases n
  {
    hide CacheOk, Add, Decimal.Print, NoLater;
    if n != 0 {
      var r, later := Others(k, n)[0], Others(k + 1, n - 1);
      assert Others(k, n)[1..] == later;
      NewIsAccepted(seen, max, k, r);
      HandleKeeps(seen, max, 1_000_000, r);
      OthersAreAccepted(Handle(seen, max, r).1, max, k + 1, n - 1);
    }
  }

  lemma NewIsAccepted(seen: Seen, max: nat, k: nat, r: Request)
    requires CacheOk(seen, max, 1_000_000) && 0 < max && NoLater(seen, k)
    requires r == Request(1000.0, "m" + Decimal.Print(k), true, 1_000_000, 1_000_000, 1_000_000)
    ensures Handle(seen, max, r).0.Accepted? && NoLater(Handle(seen, max, r).1, k + 1)
    ensures r.nonce != "n" && r.nonce != "" && Monotone(1_000_000, [r])
  {
    hide CacheOk, Add, Decimal.Print;
    assert r.nonce[0] == 'm';
    LookupFinds(seen, r.nonce);
    AddAppends(seen, max, 1_000_000, r.nonce, 1_000_000);
    forall j: nat | k < j ensures "m" + Decimal.Print(j) != r.nonce {
      if "m" + Decimal.Print(j) == r.nonce {
        assert ("m" + Decimal.Print(j))[1..] == Decimal.Print(j) && r.nonce[1..] == Decimal.Print(k);
        Decimal.PrintIntInjective(j, k);
      }
    }
  }

  /** A cache of any size, the default one included, forgets: one request, `max` others at the same moment,
      and the first envelope is accepted again. */
  lemma FloodedCacheForgets(max: nat)
    requires 0 < max
    ensures var r := Request(1000.0, "n", true, 1_000_000, 1_000_000, 1_000_000);
            var seen := Handle([], max, r).1;
            && Handle([], max, r).0.Accepted?
            && Monotone(1_000_000, Others(0, max)) && AcceptedIn(seen, max, Others(0, max)) == max
            && Handle(Run(seen, max, Others(0, max)), max, r).0.Accepted?
  {
    var r := Request(1000.0, "n", true, 1_000_000, 1_000_000, 1_000_000);
    var seen := Handle([], max, r).1;
    assert seen == [Entry("n", 1_000_000 + TTL_MS)];
    forall j: nat ensures "m" + Decimal.Print(j) != "n" { assert ("m" + Decimal.Print(j))[0] == 'm'; }
    OthersAreAccepted(seen, max, 0, max);
    LoadBoundIsExact([], max, 0, r, Others(0, max), r);
  }
}
