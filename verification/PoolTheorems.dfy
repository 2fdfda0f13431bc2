/** What the thread pool promises, for every interleaving. */
module PoolTheorems {
  import opened JobQueue
  import opened PoolProtocol
  import opened PoolInvariants
  import opened PoolHistory

  lemma {:induction false} RunKeeps(s: Pool, run: seq<Action>)
    requires Invariant(s) && History(s) && Possible(s, run)
    ensures Invariant(After(s, run)) && History(After(s, run))
    decreases |run|
  {
    if run != [] {
      InvariantStep(s, run[0]);
      HistoryStep(s, run[0]);
      RunKeeps(Next(s, run[0]), run[1..]);
    }
  }

  lemma InitialHolds(workers: nat, clients: nat)
    requires workers >= 1
    ensures Invariant(Initial(workers, clients)) && History(Initial(workers, clients))
  {
    var s := Initial(workers, clients);
    IdleCount(s.workers, workers);
  }

  lemma {:induction false} IdleCount(ws: seq<Worker>, n: nat)
    requires n <= |ws| && forall i :: 0 <= i < |ws| ==> !Active(ws[i])
    ensures ActiveAmong(ws, n) == 0
  {
    if n > 0 {
      IdleCount(ws, n - 1);
    }
  }

  /** Both groups of invariants hold in every reachable state. */
  lemma ReachableHolds(s: Pool)
    requires Reachable(s)
    ensures Invariant(s) && History(s)
  {
    var workers: nat, clients: nat, run: seq<Action> :|
      workers >= 1 && Possible(Initial(workers, clients), run) && After(Initial(workers, clients), run) == s;
    InitialHolds(workers, clients);
    RunKeeps(Initial(workers, clients), run);
  }

  lemma {:induction false} RunAppend(s: Pool, run: seq<Action>, a: Action)
    requires Possible(s, run) && Enabled(After(s, run), a)
    ensures Possible(s, run + [a]) && After(s, run + [a]) == Next(After(s, run), a)
    decreases |run|
  {
    if run == [] {
      assert [a][1..] == [] && [] + [a] == [a];
    } else {
      assert (run + [a])[1..] == run[1..] + [a];
      RunAppend(Next(s, run[0]), run[1..], a);
    }
  }

  lemma ReachableNext(s: Pool, a: Action)
    requires Reachable(s) && Enabled(s, a)
    ensures Reachable(Next(s, a))
  {
    var workers: nat, clients: nat, run: seq<Action> :|
      workers >= 1 && Possible(Initial(workers, clients), run) && After(Initial(workers, clients), run) == s;
    RunAppend(Initial(workers, clients), run, a);
  }

  /**
   If jobs are queued while any worker sleeps unsignalled, a batch is open or a broadcast is still
   to come: no wakeup is lost, although enqueue reads in_batch and broadcasts without the mutex.
   */
  lemma NoLostWorkWakeup(s: Pool)
    requires Reachable(s) && s.jobs.queue != [] && SomeAsleep(s)
    ensures s.inBatch || BroadcastDue(s)
  {
    ReachableHolds(s);
  }

  /** Whoever holds the mutex can take a step. */
  lemma HolderMoves(s: Pool)
    requires MutexOk(s) && s.mutex != Nobody
    ensures (exists w: nat :: Enabled(s, WorkerStep(w)))
         || (exists c: nat :: Enabled(s, ClientStep(c)) && s.clients[c].Testing?)
  {
    if s.mutex.ByWorker? {
      assert HoldsMutex(s.workers[s.mutex.w]);
      assert Enabled(s, WorkerStep(s.mutex.w));
    } else {
      assert s.clients[s.mutex.c].Testing?;
      assert Enabled(s, ClientStep(s.mutex.c));
    }
  }

  /** With jobs queued and no batch open, some thread can take a step that is not a new request. */
  lemma QueuedJobsMove(s: Pool)
    requires Reachable(s) && s.jobs.queue != [] && !s.inBatch
    ensures (exists w: nat :: Enabled(s, WorkerStep(w)))
         || (exists c: nat :: Enabled(s, ClientStep(c)) && !s.clients[c].Pushing? && !s.clients[c].Locking?)
  {
    ReachableHolds(s);
    if s.mutex != Nobody {
      HolderMoves(s);
    } else if s.workers[0].Asleep? {
      var c :| 0 <= c < |s.clients| && (s.clients[c].Pushed? || s.clients[c].Announcing?);
      assert Enabled(s, ClientStep(c));
    } else {
      assert Enabled(s, WorkerStep(0));
    }
  }

  lemma {:induction false} SomeActive(ws: seq<Worker>, n: nat) returns (w: nat)
    requires n <= |ws| && ActiveAmong(ws, n) > 0
    ensures w < n && Active(ws[w])
  {
    if Active(ws[n - 1]) {
      w := n - 1;
    } else {
      w := SomeActive(ws, n - 1);
    }
  }

  /**
   While a waiter with an attainable goal sleeps, no batch is open and no queued job was dropped,
   some thread can take a step that is not a new request: the waiter is not forgotten.
   */
  lemma SleepingWaiterNotForgotten(s: Pool, c: nat)
    requires Reachable(s) && s.cleared == [] && !s.inBatch && c < |s.clients| && s.clients[c].Waiting?
    requires s.clients[c].goal.AtMost? ==> s.clients[c].goal.target >= 0
    ensures (exists w: nat :: Enabled(s, WorkerStep(w)))
         || (exists c: nat :: Enabled(s, ClientStep(c)) && !s.clients[c].Pushing? && !s.clients[c].Locking?)
  {
    ReachableHolds(s);
    NoLostDoneWakeup(s, c);
    if s.jobs.queue != [] {
      QueuedJobsMove(s);
    } else if s.mutex != Nobody {
      HolderMoves(s);
    } else {
      var w := SomeActive(s.workers, |s.workers|);
      assert Enabled(s, WorkerStep(w));
    }
  }

  /** As long as no queued job was dropped, no waiter sleeps unsignalled once its goal is met. */
  lemma NoLostDoneWakeup(s: Pool, c: nat)
    requires Reachable(s) && s.cleared == [] && c < |s.clients| && s.clients[c].Waiting?
    ensures !Met(s.clients[c].goal, s.jobs)
  {
    ReachableHolds(s);
  }

  /** A pool with one worker that has not run and two clients. */
  function Small(clients: seq<Client>, mutex: Holder, queue: seq<nat>, inBatch: bool, issued: nat,
                 cleared: seq<nat>): Pool
  {
    Pool([Start], clients, mutex, Jobs(queue, |queue|, 0), inBatch, issued, [], [], {}, [], cleared)
  }

  /** A batch holds back a job, a waiter goes to sleep, and clear empties the queue without waking it. */
  const STRANDING_RUN: seq<Action> :=
    [BeginBatch(0), BeginEnqueue(0), ClientStep(0), ClientStep(0), BeginWait(1, NoneLeft),
     ClientStep(1), ClientStep(1), Clear(0)]

  /** The condition on the last lemma is needed: after this run a waiter whose goal is met sleeps on. */
  lemma {:induction false} ClearStrandsWaiter()
    ensures Possible(Initial(1, 2), STRANDING_RUN)
    ensures var s := After(Initial(1, 2), STRANDING_RUN);
            s.clients == [Idle, Waiting(NoneLeft)] && Met(NoneLeft, s.jobs) && s.cleared != []
  {
    var r := STRANDING_RUN;
    var s0 := Small([Idle, Idle], Nobody, [], false, 0, []);
    assert s0 == Initial(1, 2);
    OneStep(s0, r, Small([Idle, Idle], Nobody, [], true, 0, []));
    var s1 := Next(s0, r[0]);
    OneStep(s1, r[1..], Small([Pushing, Idle], Nobody, [], true, 0, []));
    var s2 := Next(s1, r[1]);
    OneStep(s2, r[2..], Small([Pushed, Idle], Nobody, [0], true, 1, []));
    var s3 := Next(s2, r[2]);
    OneStep(s3, r[3..], Small([Idle, Idle], Nobody, [0], true, 1, []));
    StrandingEnd(r[4..]);
  }

  lemma StrandingEnd(r: seq<Action>)
    requires r == [BeginWait(1, NoneLeft), ClientStep(1), ClientStep(1), Clear(0)]
    ensures var s := Small([Idle, Idle], Nobody, [0], true, 1, []);
            Possible(s, r) && After(s, r) == Small([Idle, Waiting(NoneLeft)], Nobody, [], true, 1, [0])
  {
    var s4 := Small([Idle, Idle], Nobody, [0], true, 1, []);
    OneStep(s4, r, Small([Idle, Locking(NoneLeft)], Nobody, [0], true, 1, []));
    var s5 := Next(s4, r[0]);
    OneStep(s5, r[1..], Small([Idle, Testing(NoneLeft)], ByClient(1), [0], true, 1, []));
    var s6 := Next(s5, r[1]);
    OneStep(s6, r[2..], Small([Idle, Waiting(NoneLeft)], Nobody, [0], true, 1, []));
    var s7 := Next(s6, r[2]);
    OneStep(s7, r[3..], Small([Idle, Waiting(NoneLeft)], Nobody, [], true, 1, [0]));
  }

  /** Unfolds one step of a run. */
  lemma OneStep(s: Pool, run: seq<Action>, t: Pool)
    requires run != [] && Enabled(s, run[0]) && Next(s, run[0]) == t
    ensures Possible(s, run) <==> Possible(t, run[1..])
    ensures Possible(t, run[1..]) ==> After(s, run) == After(t, run[1..])
  {
  }

  /**
   Conservation: every job enqueued so far is queued, held by a worker, retired or cleared, the
   counters count the first two, no job's work function is called twice, and jobs start in the
   order of enqueueing.
   */
  lemma Conservation(s: Pool)
    requires Reachable(s)
    ensures s.issued == |s.jobs.queue| + s.jobs.nactive + |s.retired| + |s.cleared|
    ensures s.jobs.qsize == |s.jobs.queue| && s.jobs.nactive == ActiveAmong(s.workers, |s.workers|)
    ensures forall j: nat :: j < s.issued ==>
              j in s.jobs.queue || HeldBySome(s, j) || j in s.retired || j in s.cleared
    ensures forall i, j :: 0 <= i < j < |s.worked| ==> s.worked[i] != s.worked[j]
    ensures forall i, j :: 0 <= i < j < |s.started| ==> s.started[i] < s.started[j]
    ensures forall j, k :: j in s.started && k in s.jobs.queue ==> j < k
  {
    ReachableHolds(s);
    var first := s.issued - |s.jobs.queue|;
    forall j: nat | j < s.issued ensures j in s.jobs.queue || HeldBySome(s, j) || j in s.retired || j in s.cleared {
      if j >= first {
        assert s.jobs.queue[j - first] == j;
      } else {
        assert j in s.started || j in s.cleared;
      }
    }
  }

  /** The four places where a job can be exclude each other. */
  lemma OnePlace(s: Pool, j: nat)
    requires Reachable(s)
    ensures j in s.jobs.queue ==> !HeldBySome(s, j) && j !in s.retired && j !in s.cleared
    ensures HeldBySome(s, j) ==> j !in s.retired && j !in s.cleared
    ensures j in s.retired ==> j !in s.cleared
    ensures forall v, w :: 0 <= v < w < |s.workers| && Active(s.workers[v]) && Active(s.workers[w]) ==>
              s.workers[v].job != s.workers[w].job
  {
    ReachableHolds(s);
    if j in s.jobs.queue {
      var i :| 0 <= i < |s.jobs.queue| && s.jobs.queue[i] == j;
      assert j !in s.started;
    }
  }

  /** A waiter of `resman_tpool_wait` returns only when every job is done with or was cleared. */
  lemma WaitMeansDone(s: Pool, c: nat, j: nat)
    requires Reachable(s) && c < |s.clients| && s.clients[c] == Testing(NoneLeft)
    requires Next(s, ClientStep(c)).clients[c] == Idle && j < s.issued
    ensures (j in s.worked && j in s.completed) || j in s.cleared
  {
    ReachableHolds(s);
    Conservation(s);
    if HeldBySome(s, j) {
      var w :| 0 <= w < |s.workers| && Active(s.workers[w]) && s.workers[w].job == j;
      CountPositive(s.workers, |s.workers|, w);
    }
  }

  /** A waiter of `resman_tpool_wait_pending` returns only when at most the target are pending. */
  lemma WaitPendingMeansAtMost(s: Pool, c: nat, target: int)
    requires Reachable(s) && c < |s.clients| && s.clients[c] == Testing(AtMost(target))
    requires Next(s, ClientStep(c)).clients[c] == Idle
    ensures s.issued - |s.retired| - |s.cleared| <= target
  {
    Conservation(s);
  }
}
