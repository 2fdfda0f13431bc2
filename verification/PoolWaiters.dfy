/** Which waiters of the thread pool `resman_tpool_clear` leaves asleep with their goal met, and which only it can. */
module PoolWaiters {
  import opened PoolProtocol
  import opened PoolInvariants
  import PoolTheorems

  /** The goal is met once the queue is empty, by the number of jobs still running. */
  predicate MetByActive(goal: Goal, nactive: int) {
    match goal
    case NoneLeft => nactive == 0
    case AtMost(target) => nactive <= target
  }

  /** A step meets the goal of a waiter that sleeps on exactly if it is a clear and the running jobs alone meet it. */
  lemma StrandsExactly(s: Pool, a: Action, c: nat)
    requires Invariant(s) && Enabled(s, a) && c < |s.clients|
    requires s.clients[c].Waiting? && !Met(s.clients[c].goal, s.jobs) && Next(s, a).clients[c].Waiting?
    ensures Next(s, a).clients[c] == s.clients[c]
    ensures Met(s.clients[c].goal, Next(s, a).jobs) <==> a.Clear? && MetByActive(s.clients[c].goal, s.jobs.nactive)
  {
  }

  /** Nobody falls asleep with his goal met. */
  lemma AsleepUnmet(s: Pool, a: Action, c: nat)
    requires Enabled(s, a) && c < |s.clients|
    requires !s.clients[c].Waiting? && Next(s, a).clients[c].Waiting?
    ensures !Met(Next(s, a).clients[c].goal, Next(s, a).jobs)
  {
  }

  ghost predicate NoneStranded(s: Pool) {
    forall c :: 0 <= c < |s.clients| && s.clients[c].Waiting? ==> !Met(s.clients[c].goal, s.jobs)
  }

  /** A clear while somebody sleeps whose goal the running jobs alone meet. */
  ghost predicate Strands(s: Pool, a: Action) {
    a.Clear? &&
    exists c :: 0 <= c < |s.clients| && s.clients[c].Waiting? && MetByActive(s.clients[c].goal, s.jobs.nactive)
  }

  lemma {:induction false} StepStrands(s: Pool, a: Action)
    requires Invariant(s) && NoneStranded(s) && Enabled(s, a)
    ensures NoneStranded(Next(s, a)) <==> !Strands(s, a)
  {
    var t := Next(s, a);
    forall c | 0 <= c < |t.clients| && t.clients[c].Waiting?
      ensures Met(t.clients[c].goal, t.jobs) <==>
              s.clients[c].Waiting? && a.Clear? && MetByActive(s.clients[c].goal, s.jobs.nactive)
    {
      if s.clients[c].Waiting? {
        StrandsExactly(s, a, c);
      } else {
        AsleepUnmet(s, a, c);
      }
    }
    if Strands(s, a) {
      var c :| 0 <= c < |s.clients| && s.clients[c].Waiting? && MetByActive(s.clients[c].goal, s.jobs.nactive);
      assert t.clients[c] == s.clients[c];
    }
  }

  /** Some state of the run has a waiter that sleeps with his goal met. */
  ghost predicate SometimeStranded(s: Pool, run: seq<Action>)
    requires Possible(s, run)
    decreases |run|
  {
    !NoneStranded(s) || (run != [] && SometimeStranded(Next(s, run[0]), run[1..]))
  }

  /** Some step of the run is a clear that strands a waiter. */
  ghost predicate SometimeStrands(s: Pool, run: seq<Action>)
    requires Possible(s, run)
    decreases |run|
  {
    run != [] && (Strands(s, run[0]) || SometimeStrands(Next(s, run[0]), run[1..]))
  }

  lemma {:induction false} StrandedFrom(s: Pool, run: seq<Action>)
    requires Invariant(s) && NoneStranded(s) && Possible(s, run)
    ensures SometimeStranded(s, run) <==> SometimeStrands(s, run)
    ensures !SometimeStrands(s, run) ==> NoneStranded(After(s, run))
    decreases |run|
  {
    if run != [] {
      InvariantStep(s, run[0]);
      StepStrands(s, run[0]);
      if NoneStranded(Next(s, run[0])) {
        StrandedFrom(Next(s, run[0]), run[1..]);
      } else {
        assert SometimeStranded(Next(s, run[0]), run[1..]);
      }
    }
  }

  /** A run of the pool ever has a stranded waiter if and only if it has a clear that strands one. */
  lemma OnlyClearStrands(workers: nat, clients: nat, run: seq<Action>)
    requires workers >= 1 && Possible(Initial(workers, clients), run)
    ensures SometimeStranded(Initial(workers, clients), run) <==> SometimeStrands(Initial(workers, clients), run)
    ensures !SometimeStrands(Initial(workers, clients), run) ==> NoneStranded(After(Initial(workers, clients), run))
  {
    PoolTheorems.InitialHolds(workers, clients);
    StrandedFrom(Initial(workers, clients), run);
  }
}
