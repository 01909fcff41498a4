/** What each answer of `verifySignedNextRequest` requires, and what it does to the replay cache, with the
    figures of packages/auth/src/signed-request.js written out: 60 seconds either way, 120 000 ms to live. */
module ReplayVerdicts {
  import opened Options
  import opened Replay

  /** The clock in whole seconds is at most 60 s before or after the time the envelope names. */
  predicate InTime(r: Request) {
    -60.0 <= (r.verifiedAt / 1000) as real - r.createdAt <= 60.0
  }

  /** The cache holds the nonce, not yet expired at the given time. */
  predicate Remembers(seen: Seen, nonce: string, now: int) {
    exists i | 0 <= i < |seen| :: seen[i].nonce == nonce && now <= seen[i].expiresAt
  }

  /** The entries with another nonce. */
  function Others(seen: Seen, nonce: string): Seen {
    if seen == [] then [] else (if seen[0].nonce == nonce then [] else [seen[0]]) + Others(seen[1..], nonce)
  }

  lemma {:induction false} OthersOfNone(seen: Seen, nonce: string)
    requires forall i | 0 <= i < |seen| :: seen[i].nonce != nonce
    ensures Others(seen, nonce) == seen
  {
    if seen != [] {
      OthersOfNone(seen[1..], nonce);
    }
  }

  lemma {:induction false} DeleteIsOthers(seen: Seen, nonce: string)
    requires forall i, j | 0 <= i < j < |seen| :: seen[i].nonce != seen[j].nonce
    ensures Delete(seen, nonce) == Others(seen, nonce)
  {
    if seen != [] {
      if seen[0].nonce == nonce {
        OthersOfNone(seen[1..], nonce);
        assert [] + seen[1..] == seen[1..];
      } else {
        DeleteIsOthers(seen[1..], nonce);
      }
    }
  }

  lemma {:induction false} LookupIsOnly(seen: Seen, nonce: string, i: nat)
    requires forall a, b | 0 <= a < b < |seen| :: seen[a].nonce != seen[b].nonce
    requires i < |seen| && seen[i].nonce == nonce
    ensures Lookup(seen, nonce) == Some(seen[i].expiresAt)
  {
    if i != 0 {
      LookupIsOnly(seen[1..], nonce, i - 1);
    }
  }

  /** `has` answers yes exactly for a nonce that has not expired, and otherwise the nonce is gone. */
  lemma HasIs(seen: Seen, max: nat, clock: int, nonce: string, now: int)
    requires CacheOk(seen, max, clock)
    ensures var (found, seen') := Has(seen, nonce, now);
            && (found <==> Remembers(seen, nonce, now))
            && seen' == if found then seen else Others(seen, nonce)
  {
    hide Delete, Others, Lookup;
    LookupFinds(seen, nonce);
    match Lookup(seen, nonce) {
      case None =>
        forall i | 0 <= i < |seen| ensures seen[i].nonce != nonce {
          assert seen[i] in seen;
        }
        OthersOfNone(seen, nonce);
      case Some(x) =>
        var i :| 0 <= i < |seen| && seen[i] == Entry(nonce, x);
        DeleteIsOthers(seen, nonce);
    }
  }

  /** Which answer a request gets, for every cache in order. It is accepted if and only if its nonce is not
      empty, its signature checks out, its time is close and its nonce is not remembered. */
  lemma VerdictIs(seen: Seen, max: nat, clock: int, r: Request)
    requires CacheOk(seen, max, clock)
    ensures var verdict := Handle(seen, max, r).0;
            var used := Remembers(seen, r.nonce, r.lookedUpAt);
            && (verdict == Accepted <==> r.nonce != "" && r.authentic && InTime(r) && !used)
            && (verdict == NonceUsed <==> r.nonce != "" && r.authentic && InTime(r) && used)
            && (verdict == OutsideWindow <==> r.nonce != "" && !InTime(r))
            && (verdict == NotAuthentic <==> r.nonce == "" || (InTime(r) && !r.authentic))
  {
    hide Has, Add, Remembers, CacheOk;
    HasIs(seen, max, clock, r.nonce, r.lookedUpAt);
    assert InWindow(r.createdAt, r.verifiedAt) <==> InTime(r);
  }

  /** A refused request leaves the cache alone. An accepted one is recorded last, for two minutes from then;
      its own expired entry goes, and in a full cache the oldest other one. */
  lemma CacheAfter(seen: Seen, max: nat, clock: int, r: Request)
    requires CacheOk(seen, max, clock)
    ensures var (verdict, seen') := Handle(seen, max, r);
            && (verdict != Accepted ==> seen' == seen)
            && (verdict == Accepted ==>
                  var others := Others(seen, r.nonce);
                  seen' == (if 0 < |others| == max then others[1..] else others)
                           + [Entry(r.nonce, r.addedAt + 120_000)])
  {
    hide Has, Lookup, Others, Put, Delete;
    HasIs(seen, max, clock, r.nonce, r.lookedUpAt);
    HasKeeps(seen, max, clock, r.nonce, r.lookedUpAt);
    var (found, kept) := Has(seen, r.nonce, r.lookedUpAt);
    if Handle(seen, max, r).0.Accepted? {
      RoomInCache(kept, max, clock, r.nonce, r.addedAt);
    }
  }

  lemma RoomInCache(seen: Seen, max: nat, clock: int, nonce: string, now: int)
    requires CacheOk(seen, max, clock) && forall e | e in seen :: e.nonce != nonce
    ensures Add(seen, max, 120_000, nonce, now)
         == (if 0 < |seen| == max then seen[1..] else seen) + [Entry(nonce, now + 120_000)]
  {
    hide Put;
    var room := if 0 < |seen| == max then seen[1..] else seen;
    assert forall e | e in room :: e in seen;
    PutAppends(room, nonce, now + 120_000);
  }

  lemma {:induction false} RunSnoc(seen: Seen, max: nat, reqs: seq<Request>, r: Request)
    ensures Run(seen, max, reqs + [r]) == Handle(Run(seen, max, reqs), max, r).1
    decreases |reqs|
  {
    hide Handle;
    if reqs == [] {
      assert [] + [r] == [r];
    } else {
      assert (reqs + [r])[1..] == reqs[1..] + [r];
      RunSnoc(Handle(seen, max, reqs[0]).1, max, reqs[1..], r);
    }
  }

  lemma {:induction false} MonotonePrefix(clock: int, reqs: seq<Request>, n: nat)
    requires Monotone(clock, reqs) && n <= |reqs|
    ensures Monotone(clock, reqs[..n])
    decreases n
  {
    if n != 0 {
      assert reqs[..n][1..] == reqs[1..][..n - 1];
      MonotonePrefix(reqs[0].addedAt, reqs[1..], n - 1);
    }
  }

  lemma OthersAreEntries(seen: Seen, nonce: string)
    ensures forall e | e in Others(seen, nonce) :: e in seen
  {
  }

  /** What an entry of the cache stands for: an authentic request in time, recorded two minutes before the
      entry expires. */
  predicate ComesFrom(e: Entry, r: Request) {
    r.authentic && InTime(r) && r.nonce == e.nonce && e.nonce != "" && e.expiresAt == r.addedAt + 120_000
  }

  /** Over every run, whatever the cache holds was put there by an authentic request in time. */
  lemma {:induction false} OnlyAuthenticNoncesAreHeld(max: nat, clock: int, reqs: seq<Request>)
    requires 0 < max && 0 <= clock && Monotone(clock, reqs)
    ensures forall e | e in Run([], max, reqs) :: exists r :: r in reqs && ComesFrom(e, r)
    decreases |reqs|
  {
    hide Handle, ComesFrom, Others, InTime;
    if reqs != [] {
      var n := |reqs| - 1;
      var earlier, r := reqs[..n], reqs[n];
      assert earlier + [r] == reqs;
      MonotonePrefix(clock, reqs, n);
      OnlyAuthenticNoncesAreHeld(max, clock, earlier);
      RunKeeps([], max, clock, earlier);
      var seen := Run([], max, earlier);
      RunSnoc([], max, earlier, r);
      var c := ClockAfter(clock, earlier);
      NewEntryComesFrom(seen, max, c, r);
      forall e | e in Run([], max, reqs) ensures exists q :: q in reqs && ComesFrom(e, q) {
        if e in seen {
          var q :| q in earlier && ComesFrom(e, q);
          assert q in reqs;
        } else {
          assert r in reqs && ComesFrom(e, r);
        }
      }
    }
  }

  lemma NewEntryComesFrom(seen: Seen, max: nat, clock: int, r: Request)
    requires CacheOk(seen, max, clock)
    ensures forall e | e in Handle(seen, max, r).1 :: e in seen || ComesFrom(e, r)
  {
    hide Handle, Others, CacheOk, Remembers;
    VerdictIs(seen, max, clock, r);
    CacheAfter(seen, max, clock, r);
    OthersAreEntries(seen, r.nonce);
  }
}
