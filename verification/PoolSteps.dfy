/** What it takes to wake a worker, to open and close a batch, and to return from a wait. */
module PoolSteps {
  import opened PoolProtocol
  import PoolTheorems

  /* ---- batches ---- */

  /** Only a spurious wakeup or a broadcast gets a worker out of its sleep. */
  lemma {:induction false} WokenBy(s: Pool, a: Action, w: nat)
    requires Enabled(s, a) && w < |s.workers| && s.workers[w].Asleep? && !Next(s, a).workers[w].Asleep?
    ensures a == WorkerSpurious(w) || (a.ClientStep? && s.clients[a.c].Announcing?)
    ensures Next(s, a).workers[w] == Woken
  {
  }

  /** A broadcast wakes every worker that sleeps and disturbs no other. */
  lemma {:induction false} BroadcastWakesAll(s: Pool, c: nat)
    requires Enabled(s, ClientStep(c)) && s.clients[c].Announcing?
    ensures var t := Next(s, ClientStep(c));
            && t.clients == s.clients[c := Idle] && |t.workers| == |s.workers|
            && forall w :: 0 <= w < |s.workers| ==>
                 t.workers[w] == if s.workers[w].Asleep? then Woken else s.workers[w]
  {
  }

  /** A thread comes to a broadcast only at the end of a batch, or after enqueueing outside one. */
  lemma {:induction false} AnnouncedBy(s: Pool, a: Action, c: nat)
    requires Enabled(s, a) && c < |s.clients| && !s.clients[c].Announcing?
    ensures Next(s, a).clients[c].Announcing? <==>
            a == EndBatch(c) || (a == ClientStep(c) && s.clients[c].Pushed? && !s.inBatch)
  {
  }

  /** A batch is open from its begin to its end. */
  lemma {:induction false} BatchOpenIff(s: Pool, a: Action)
    requires Enabled(s, a)
    ensures Next(s, a).inBatch <==> a.BeginBatch? || (s.inBatch && !a.EndBatch?)
  {
  }

  /** Every worker sleeps, a batch is open and no broadcast is on its way. */
  ghost predicate HeldBack(s: Pool) {
    && s.inBatch && (forall w :: 0 <= w < |s.workers| ==> s.workers[w].Asleep?)
    && (forall c :: 0 <= c < |s.clients| ==> !s.clients[c].Announcing?)
  }

  lemma {:induction false} HeldBackStep(s: Pool, a: Action)
    requires HeldBack(s) && Enabled(s, a) && !a.EndBatch? && !a.WorkerSpurious?
    ensures HeldBack(Next(s, a)) && Next(s, a).started == s.started
  {
    var t := Next(s, a);
    forall w | 0 <= w < |t.workers| ensures t.workers[w].Asleep? {
      if !t.workers[w].Asleep? {
        WokenBy(s, a, w);
      }
    }
    forall c | 0 <= c < |t.clients| ensures !t.clients[c].Announcing? {
      AnnouncedBy(s, a, c);
    }
    BatchOpenIff(s, a);
  }

  /** While all workers sleep, an open batch holds every job back until it ends or a worker wakes spuriously. */
  lemma {:induction false} BatchHoldsBack(s: Pool, run: seq<Action>)
    requires HeldBack(s) && Possible(s, run)
    requires forall k :: 0 <= k < |run| ==> !run[k].EndBatch? && !run[k].WorkerSpurious?
    ensures HeldBack(After(s, run)) && After(s, run).started == s.started
    decreases |run|
  {
    if run != [] {
      HeldBackStep(s, run[0]);
      BatchHoldsBack(Next(s, run[0]), run[1..]);
    }
  }

  /* ---- waits ---- */

  /** The client is inside `resman_tpool_wait` or `resman_tpool_wait_pending`. */
  predicate InWait(c: Client) {
    c.Locking? || c.Testing? || c.Waiting? || c.Waking?
  }

  /** What the counters must say for a wait to end. */
  predicate Attained(s: Pool, goal: Goal) {
    match goal
    case NoneLeft => s.jobs.qsize == 0 && s.jobs.nactive == 0
    case AtMost(target) => s.jobs.qsize + s.jobs.nactive <= target
  }

  /** A wait keeps its goal and ends only by a test of the counters that meets it. */
  lemma {:induction false} WaitEndsIff(s: Pool, a: Action, c: nat)
    requires Enabled(s, a) && c < |s.clients| && InWait(s.clients[c])
    ensures var d := Next(s, a).clients[c];
            && (InWait(d) ==> d.goal == s.clients[c].goal)
            && (!InWait(d) <==> a == ClientStep(c) && s.clients[c].Testing? && Attained(s, s.clients[c].goal))
            && (!InWait(d) ==> d == Idle)
  {
  }

  lemma {:induction false} WaitBeginsBy(s: Pool, a: Action, c: nat)
    requires Enabled(s, a) && c < |s.clients| && !InWait(s.clients[c]) && InWait(Next(s, a).clients[c])
    ensures a == BeginWait(c, Next(s, a).clients[c].goal) && s.clients[c] == Idle
  {
  }

  /**
   Whichever step a waiter for all jobs returns by, every job enqueued so far has had its work and its
   done callback complete or was cleared.
   */
  lemma {:induction false} ReturnMeansDone(s: Pool, a: Action, c: nat, j: nat)
    requires Reachable(s) && Enabled(s, a) && c < |s.clients| && InWait(s.clients[c]) && s.clients[c].goal == NoneLeft
    requires !InWait(Next(s, a).clients[c]) && j < s.issued
    ensures (j in s.worked && j in s.completed) || j in s.cleared
  {
    WaitEndsIff(s, a, c);
    PoolTheorems.WaitMeansDone(s, c, j);
  }

  /** Whichever step a waiter for a target returns by, at most that many jobs are pending. */
  lemma {:induction false} ReturnMeansAtMost(s: Pool, a: Action, c: nat)
    requires Reachable(s) && Enabled(s, a) && c < |s.clients| && InWait(s.clients[c]) && s.clients[c].goal.AtMost?
    requires !InWait(Next(s, a).clients[c])
    ensures s.issued - |s.retired| - |s.cleared| <= s.clients[c].goal.target
  {
    WaitEndsIff(s, a, c);
    PoolTheorems.WaitPendingMeansAtMost(s, c, s.clients[c].goal.target);
  }

  /* ---- what a worker does ---- */

  /** Work and done functions are called one after the other, without the mutex and by the job's own worker. */
  lemma {:induction false} CallsInOrder(s: Pool, a: Action)
    requires Enabled(s, a)
    ensures var t, calls := Next(s, a), a.WorkerStep? && s.workers[a.w].Working?;
            && t.worked == (if calls then s.worked + [s.workers[a.w].job] else s.worked)
            && (calls ==> && t.workers[a.w] == Finishing(s.workers[a.w].job)
                          && t.completed == s.completed && t.mutex == s.mutex)
    ensures var t, calls := Next(s, a), a.WorkerStep? && s.workers[a.w].Finishing?;
            && t.completed == (if calls then s.completed + {s.workers[a.w].job} else s.completed)
            && (calls ==> t.workers[a.w] == Returning(s.workers[a.w].job) && t.mutex == s.mutex)
  {
  }

  /** A job is taken by a worker that has the mutex, gives it back, and gets the first of the queue. */
  lemma {:induction false} TakenBy(s: Pool, a: Action)
    requires Enabled(s, a)
    ensures var t, takes := Next(s, a), a.WorkerStep? && s.workers[a.w].Inner? && s.jobs.queue != [];
            && t.started == (if takes then s.started + [s.jobs.queue[0]] else s.started)
            && (takes ==> && t.workers[a.w] == Working(s.jobs.queue[0])
                          && t.mutex == Nobody && t.jobs.queue == s.jobs.queue[1..])
  {
  }

  /** A worker goes to sleep only with the queue empty, and wakes to look at the queue with the mutex. */
  lemma {:induction false} SleepsOnEmpty(s: Pool, w: nat)
    requires Enabled(s, WorkerStep(w))
    ensures Next(s, WorkerStep(w)).workers[w].Asleep? <==> s.workers[w].Outer? && s.jobs.queue == []
    ensures s.workers[w].Woken? ==>
              Next(s, WorkerStep(w)).workers[w] == Inner && Next(s, WorkerStep(w)).mutex == ByWorker(w)
  {
  }

  /* ---- who may do what ---- */

  /** Every idle client may call every operation, and every sleeper may wake spuriously. */
  lemma {:induction false} CallsAllowed(s: Pool, c: nat, goal: Goal)
    requires c < |s.clients| && s.clients[c].Idle?
    ensures Enabled(s, BeginBatch(c)) && Enabled(s, EndBatch(c)) && Enabled(s, BeginEnqueue(c))
    ensures Enabled(s, BeginWait(c, goal)) && (Enabled(s, Clear(c)) <==> s.mutex == Nobody)
    ensures Next(s, BeginEnqueue(c)).clients[c] == Pushing && Next(s, BeginWait(c, goal)).clients[c] == Locking(goal)
  {
  }

  lemma {:induction false} SleepersMayWake(s: Pool)
    ensures forall w: nat :: Enabled(s, WorkerSpurious(w)) <==> w < |s.workers| && s.workers[w] == Asleep
    ensures forall c: nat :: Enabled(s, ClientSpurious(c)) <==> c < |s.clients| && s.clients[c].Waiting?
  {
  }
}
