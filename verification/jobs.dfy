/** Job accounting of apps/cli/commands/start.js: `processJob` under overlapping polls. */
module Jobs {
  /** The counters of the `stats` record and its set of active ids. */
  datatype Stats = Stats(picked: nat, completed: nat, failed: nat, active: set<string>) {
    predicate Balanced() {
      picked == completed + failed + |active|
    }
  }

  class JobStats {
    var jobsPicked: nat
    var jobsCompleted: nat
    var jobsFailed: nat
    var activeJobIds: set<string>

    constructor ()
      ensures Model() == Stats(0, 0, 0, {})
    {
      jobsPicked, jobsCompleted, jobsFailed, activeJobIds := 0, 0, 0, {};
    }

    function Model(): Stats
      reads this
    {
      Stats(jobsPicked, jobsCompleted, jobsFailed, activeJobIds)
    }

    /** The synchronous start of `processJob`, up to its first `await`. */
    method Pick(id: string)
      modifies this
      ensures Model() == Act(old(Model()), Picks(id))
    {
      jobsPicked := jobsPicked + 1;
      activeJobIds := activeJobIds + {id};
    }

    /** What follows a successful `completeJob`. */
    method Complete(id: string)
      modifies this
      ensures Model() == Act(old(Model()), Completes(id))
    {
      jobsCompleted := jobsCompleted + 1;
      activeJobIds := activeJobIds - {id};
    }

    /** The synchronous start of the `catch` block. */
    method Fail(id: string)
      modifies this
      ensures Model() == Act(old(Model()), Fails(id))
    {
      jobsFailed := jobsFailed + 1;
      activeJobIds := activeJobIds - {id};
    }
  }

  /** The atomic steps between two `await`s, interleaved in any order. */
  datatype Step = Picks(id: string) | Completes(id: string) | Fails(id: string)

  function Act(s: Stats, step: Step): Stats {
    match step
    case Picks(id) => s.(picked := s.picked + 1, active := s.active + {id})
    case Completes(id) => s.(completed := s.completed + 1, active := s.active - {id})
    case Fails(id) => s.(failed := s.failed + 1, active := s.active - {id})
  }

  function Run(s: Stats, steps: seq<Step>): Stats
    decreases |steps|
  {
    if steps == [] then s else Run(Act(s, steps[0]), steps[1..])
  }

  /** The calls of `processJob` still running, by id. */
  function Flying(running: multiset<string>, step: Step): multiset<string> {
    if step.Picks? then running + multiset{step.id} else running - multiset{step.id}
  }

  /** Each call of `processJob` ends at most once, after it began. */
  predicate Possible(running: multiset<string>, steps: seq<Step>)
    decreases |steps|
  {
    steps == [] || ((steps[0].Picks? || steps[0].id in running) && Possible(Flying(running, steps[0]), steps[1..]))
  }

  /** No id is picked while a call for it is still running. */
  predicate NoOverlap(running: multiset<string>, steps: seq<Step>)
    decreases |steps|
  {
    steps == [] || ((steps[0].Picks? ==> steps[0].id !in running) && NoOverlap(Flying(running, steps[0]), steps[1..]))
  }

  function StillRunning(running: multiset<string>, steps: seq<Step>): multiset<string>
    decreases |steps|
  {
    if steps == [] then running else StillRunning(Flying(running, steps[0]), steps[1..])
  }

  function PicksOf(id: string, steps: seq<Step>): nat {
    if steps == [] then 0 else (if steps[0] == Picks(id) then 1 else 0) + PicksOf(id, steps[1..])
  }

  function CompletionsOf(id: string, steps: seq<Step>): nat {
    if steps == [] then 0 else (if steps[0] == Completes(id) then 1 else 0) + CompletionsOf(id, steps[1..])
  }

  function FailuresOf(id: string, steps: seq<Step>): nat {
    if steps == [] then 0 else (if steps[0] == Fails(id) then 1 else 0) + FailuresOf(id, steps[1..])
  }

  /** Every picked job is accounted for, overlapping ids or not: for each id, the calls begun have
      completed, failed or are still running; and so in total, by the counters. */
  lemma {:induction false} EveryPickIsAccountedFor(s: Stats, running: multiset<string>, steps: seq<Step>)
    requires Possible(running, steps) && s.picked == s.completed + s.failed + |running|
    ensures var t := Run(s, steps);
            t.picked == t.completed + t.failed + |StillRunning(running, steps)|
    ensures forall id :: running[id] + PicksOf(id, steps)
                      == CompletionsOf(id, steps) + FailuresOf(id, steps) + StillRunning(running, steps)[id]
    decreases |steps|
  {
    if steps != [] {
      EveryPickIsAccountedFor(Act(s, steps[0]), Flying(running, steps[0]), steps[1..]);
    }
  }

  /** A job picked once ends exactly once, as completed or as failed, or is still running. */
  lemma PickedOnceEndsOnce(steps: seq<Step>, id: string)
    requires Possible(multiset{}, steps) && PicksOf(id, steps) == 1
    ensures var completed, failed, left := CompletionsOf(id, steps), FailuresOf(id, steps),
        StillRunning(multiset{}, steps)[id];
            || (completed == 1 && failed == 0 && left == 0)
            || (completed == 0 && failed == 1 && left == 0)
            || (completed == 0 && failed == 0 && left == 1)
  {
    EveryPickIsAccountedFor(Stats(0, 0, 0, {}), multiset{}, steps);
  }

  /** The steps of one id, in order. */
  function StepsOf(id: string, steps: seq<Step>): seq<Step> {
    if steps == [] then [] else (if steps[0].id == id then [steps[0]] else []) + StepsOf(id, steps[1..])
  }

  /** A pick, its one end, a pick, its one end, and so on, beginning inside a call when `flying`. */
  predicate Alternates(steps: seq<Step>, flying: bool)
    decreases |steps|
  {
    steps == [] || (steps[0].Picks? == !flying && Alternates(steps[1..], !flying))
  }

  /** An interleaving is one the code can take without picking an id that is still being processed, if
      and only if for every id each pick is followed by exactly one end before the next pick, and the
      last pick by at most one. */
  lemma {:induction false} NoOverlapIffAlternating(running: multiset<string>, steps: seq<Step>)
    requires forall id :: running[id] <= 1
    ensures Possible(running, steps) && NoOverlap(running, steps)
        <==> forall id :: Alternates(StepsOf(id, steps), id in running)
    decreases |steps|
  {
    if steps != [] {
      hide StepsOf, Alternates;
      var step, running' := steps[0], Flying(running, steps[0]);
      forall id ensures Alternates(StepsOf(id, steps), id in running)
                   <==> && (step.id == id ==> step.Picks? == (id !in running))
                        && Alternates(StepsOf(id, steps[1..]), id in running')
      {
        AlternatesStep(running, steps, id);
      }
      if step.Picks? == (step.id !in running) {
        NoOverlapIffAlternating(running', steps[1..]);
      } else {
        assert !Alternates(StepsOf(step.id, steps), step.id in running);
      }
    } else {
      NoSteps();
    }
  }

  lemma NoSteps()
    ensures forall id, flying :: Alternates(StepsOf(id, []), flying)
  {
  }

  lemma AlternatesStep(running: multiset<string>, steps: seq<Step>, id: string)
    requires steps != [] && running[id] <= 1
    ensures Alternates(StepsOf(id, steps), id in running)
       <==> (steps[0].id == id ==> steps[0].Picks? == (id !in running))
            && Alternates(StepsOf(id, steps[1..]), id in Flying(running, steps[0]))
  {
    var later := StepsOf(id, steps[1..]);
    if steps[0].id == id {
      assert ([steps[0]] + later)[1..] == later;
    } else {
      assert [] + later == later;
    }
  }

  /** Balanced after every step. */
  predicate AlwaysBalanced(s: Stats, steps: seq<Step>)
    decreases |steps|
  {
    s.Balanced() && (steps != [] ==> AlwaysBalanced(Act(s, steps[0]), steps[1..]))
  }

  /** The set of active ids is the running calls, each once. */
  predicate Agree(s: Stats, running: multiset<string>) {
    && s.picked == s.completed + s.failed + |running|
    && running == multiset(s.active)
  }

  /** The published counters add up after every step of an interleaving if and only if no id is picked
      while it is still being processed. */
  lemma {:induction false} BalancedIffNoOverlap(s: Stats, running: multiset<string>, steps: seq<Step>)
    requires Agree(s, running) && Possible(running, steps)
    ensures AlwaysBalanced(s, steps) <==> NoOverlap(running, steps)
    decreases |steps|
  {
    assert |multiset(s.active)| == |s.active|;
    if steps != [] {
      var step := steps[0];
      var t := Act(s, step);
      if step.Picks? && step.id in running {
        assert step.id in s.active && t.active == s.active;
        assert !t.Balanced();
      } else {
        assert Flying(running, step) == multiset(t.active);
        assert |Flying(running, step)| == if step.Picks? then |running| + 1 else |running| - 1;
        BalancedIffNoOverlap(t, Flying(running, step), steps[1..]);
      }
    }
  }

  // ---------- What the counters count ----------

  datatype Tally = Tally(picks: nat, completions: nat, failures: nat)

  function TallyOf(steps: seq<Step>): Tally {
    if steps == [] then Tally(0, 0, 0)
    else
      var t := TallyOf(steps[1..]);
      match steps[0]
      case Picks(_) => Tally(t.picks + 1, t.completions, t.failures)
      case Completes(_) => Tally(t.picks, t.completions + 1, t.failures)
      case Fails(_) => Tally(t.picks, t.completions, t.failures + 1)
  }

  /** Each counter counts its own steps, and an id is active exactly when the last step for it is a pick. */
  lemma {:induction false} CountersCount(s: Stats, steps: seq<Step>, id: string)
    ensures var r, t := Run(s, steps), TallyOf(steps);
            && r.picked == s.picked + t.picks
            && r.completed == s.completed + t.completions
            && r.failed == s.failed + t.failures
    ensures var own := StepsOf(id, steps);
            id in Run(s, steps).active <==> if own == [] then id in s.active else own[|own| - 1].Picks?
    decreases |steps|
  {
    if steps != [] {
      CountersCount(Act(s, steps[0]), steps[1..], id);
      var later := StepsOf(id, steps[1..]);
      if steps[0].id == id {
        assert StepsOf(id, steps) == [steps[0]] + later;
      } else {
        assert [] + later == later;
      }
    }
  }
}
