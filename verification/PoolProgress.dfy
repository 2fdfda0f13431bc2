/**
 Left to themselves, the threads of the pool come to rest after a bounded number of steps, with
 the queued jobs done and the waiters returned.
 */
module PoolProgress {
  import opened PoolProtocol
  import PoolWaiters
  import PoolTheorems

  /** A step of a thread on its way, neither a new request nor a spurious wakeup. */
  predicate Progress(a: Action) {
    a.WorkerStep? || a.ClientStep?
  }

  /* ---- how many steps are left ---- */

  /** Steps before a worker sleeps, with `m` clients that its broadcast may wake. */
  function WorkerCost(w: Worker, m: nat, empty: bool): nat {
    match w
    case Start => 4
    case Outer => if empty then 1 else 3
    case Asleep => 0
    case Woken => 3
    case Inner => 2
    case Working(_) => 7 + 2 * m
    case Finishing(_) => 6 + 2 * m
    case Returning(_) => 5 + 2 * m
    case Notifying(_) => 4 + 2 * m
    case Retiring(_) => 3
  }

  /** Steps before a client is idle or sleeps, with `n` workers and `m` clients to wake. */
  function ClientCost(c: Client, n: nat, m: nat): nat {
    match c
    case Idle => 0
    case Pushing => 9 + 5 * n + 2 * m
    case Pushed => 2 + 3 * n
    case Announcing => 1 + 3 * n
    case Locking(_) => 2
    case Testing(_) => 1
    case Waiting(_) => 0
    case Waking(_) => 2
  }

  function WorkersCost(ws: seq<Worker>, k: nat, m: nat, empty: bool): nat
    requires k <= |ws|
  {
    if k == 0 then 0 else WorkersCost(ws, k - 1, m, empty) + WorkerCost(ws[k - 1], m, empty)
  }

  function ClientsCost(cs: seq<Client>, k: nat, n: nat, m: nat): nat
    requires k <= |cs|
  {
    if k == 0 then 0 else ClientsCost(cs, k - 1, n, m) + ClientCost(cs[k - 1], n, m)
  }

  function QueueCost(k: nat, m: nat): nat {
    if k == 0 then 0 else QueueCost(k - 1, m) + 6 + 2 * m
  }

  /** An upper bound on the steps before the pool is at rest. */
  function StepsLeft(s: Pool): nat {
    var n, m := |s.workers|, |s.clients|;
    WorkersCost(s.workers, n, m, s.jobs.queue == []) + ClientsCost(s.clients, m, n, m) + QueueCost(|s.jobs.queue|, m)
  }

  lemma {:induction false} WorkersUpdate(ws: seq<Worker>, k: nat, m: nat, empty: bool, w: nat, pc: Worker)
    requires w < |ws| && k <= |ws|
    ensures WorkersCost(ws[w := pc], k, m, empty) == WorkersCost(ws, k, m, empty)
            + if w < k then WorkerCost(pc, m, empty) - WorkerCost(ws[w], m, empty) else 0
  {
    if k > 0 {
      WorkersUpdate(ws, k - 1, m, empty, w, pc);
    }
  }

  lemma {:induction false} ClientsUpdate(cs: seq<Client>, k: nat, n: nat, m: nat, c: nat, pc: Client)
    requires c < |cs| && k <= |cs|
    ensures ClientsCost(cs[c := pc], k, n, m) == ClientsCost(cs, k, n, m)
            + if c < k then ClientCost(pc, n, m) - ClientCost(cs[c], n, m) else 0
  {
    if k > 0 {
      ClientsUpdate(cs, k - 1, n, m, c, pc);
    }
  }

  /** A job that comes into an empty queue costs each worker at the outer loop two steps. */
  lemma {:induction false} WorkersFilled(ws: seq<Worker>, k: nat, m: nat)
    requires k <= |ws|
    ensures WorkersCost(ws, k, m, true) <= WorkersCost(ws, k, m, false) <= WorkersCost(ws, k, m, true) + 2 * k
  {
    if k > 0 {
      WorkersFilled(ws, k - 1, m);
    }
  }

  lemma {:induction false} WorkersWoken(ws: seq<Worker>, k: nat, m: nat, empty: bool)
    requires k <= |ws|
    ensures WorkersCost(WakeWorkers(ws), k, m, empty) <= WorkersCost(ws, k, m, empty) + 3 * k
  {
    if k > 0 {
      WorkersWoken(ws, k - 1, m, empty);
    }
  }

  lemma {:induction false} WaitersWoken(cs: seq<Client>, k: nat, n: nat, m: nat)
    requires k <= |cs|
    ensures ClientsCost(WakeWaiters(cs), k, n, m) <= ClientsCost(cs, k, n, m) + 2 * k
  {
    if k > 0 {
      WaitersWoken(cs, k - 1, n, m);
    }
  }

  lemma TakeProgress(s: Pool, w: nat)
    requires Enabled(s, WorkerStep(w)) && s.workers[w].Inner? && s.jobs.queue != []
    ensures StepsLeft(WorkerNext(s, w)) < StepsLeft(s)
  {
    var t, n, m := WorkerNext(s, w), |s.workers|, |s.clients|;
    assert t.workers == s.workers[w := t.workers[w]];
    WorkersUpdate(s.workers, n, m, false, w, t.workers[w]);
    WorkersFilled(t.workers, n, m);
  }

  lemma NotifyProgress(s: Pool, w: nat)
    requires Enabled(s, WorkerStep(w)) && s.workers[w].Notifying?
    ensures StepsLeft(WorkerNext(s, w)) < StepsLeft(s)
  {
    var t, n, m := WorkerNext(s, w), |s.workers|, |s.clients|;
    WorkersUpdate(s.workers, n, m, s.jobs.queue == [], w, t.workers[w]);
    WaitersWoken(s.clients, m, n, m);
  }

  lemma WorkerProgress(s: Pool, w: nat)
    requires Enabled(s, WorkerStep(w))
    ensures StepsLeft(WorkerNext(s, w)) < StepsLeft(s)
  {
    if s.workers[w].Notifying? {
      NotifyProgress(s, w);
    } else if s.workers[w].Inner? && s.jobs.queue != [] {
      TakeProgress(s, w);
    } else {
      var t := WorkerNext(s, w);
      assert t.workers == s.workers[w := t.workers[w]] && t.clients == s.clients && t.jobs.queue == s.jobs.queue;
      WorkersUpdate(s.workers, |s.workers|, |s.clients|, s.jobs.queue == [], w, t.workers[w]);
    }
  }

  lemma ClientProgress(s: Pool, c: nat)
    requires Enabled(s, ClientStep(c))
    ensures StepsLeft(ClientNext(s, c)) < StepsLeft(s)
  {
    var t, n, m := ClientNext(s, c), |s.workers|, |s.clients|;
    assert t.clients == s.clients[c := t.clients[c]];
    ClientsUpdate(s.clients, m, n, m, c, t.clients[c]);
    if s.clients[c].Announcing? {
      WorkersWoken(s.workers, n, m, s.jobs.queue == []);
    } else if s.clients[c].Pushing? {
      WorkersFilled(s.workers, n, m);
    }
  }

  /** No run of progress steps is longer than the bound. */
  lemma {:induction false} ProgressEnds(s: Pool, run: seq<Action>)
    requires Possible(s, run) && forall k :: 0 <= k < |run| ==> Progress(run[k])
    ensures |run| + StepsLeft(After(s, run)) <= StepsLeft(s)
    decreases |run|
  {
    if run != [] {
      if run[0].WorkerStep? {
        WorkerProgress(s, run[0].w);
      } else {
        ClientProgress(s, run[0].c);
      }
      ProgressEnds(Next(s, run[0]), run[1..]);
    }
  }

  /* ---- where it ends ---- */

  ghost predicate AtRest(s: Pool) {
    && (forall w: nat :: !Enabled(s, WorkerStep(w)))
    && (forall c: nat :: !Enabled(s, ClientStep(c)))
  }

  /** At rest the workers sleep without jobs, and jobs are queued only by an open batch. */
  lemma RestMeansDone(s: Pool)
    requires Reachable(s) && AtRest(s)
    ensures s.mutex == Nobody && s.jobs.nactive == 0 && (s.jobs.queue == [] || s.inBatch)
    ensures forall w :: 0 <= w < |s.workers| ==> s.workers[w].Asleep?
    ensures forall c :: 0 <= c < |s.clients| ==> s.clients[c].Idle? || s.clients[c].Waiting?
  {
    PoolTheorems.ReachableHolds(s);
    if s.mutex != Nobody {
      PoolTheorems.HolderMoves(s);
      assert false;
    }
    forall w | 0 <= w < |s.workers| ensures s.workers[w].Asleep? {
      assert !Enabled(s, WorkerStep(w));
    }
    forall c | 0 <= c < |s.clients| ensures s.clients[c].Idle? || s.clients[c].Waiting? {
      assert !Enabled(s, ClientStep(c));
    }
    PoolTheorems.IdleCount(s.workers, |s.workers|);
    assert s.workers[0].Asleep?;
  }

  /** At rest with no batch open, a client sleeps only if a clear stranded it or its target is negative. */
  lemma RestMeansReturned(s: Pool, c: nat)
    requires Reachable(s) && AtRest(s) && !s.inBatch && c < |s.clients|
    ensures s.jobs.queue == [] && s.jobs.nactive == 0
    ensures s.clients[c].Idle? || s.clients[c].Waiting?
    ensures s.clients[c].Waiting? ==>
              (Met(s.clients[c].goal, s.jobs) <==> !(s.clients[c].goal.AtMost? && s.clients[c].goal.target < 0))
  {
    PoolTheorems.ReachableHolds(s);
    RestMeansDone(s);
  }

  /** Unless some clear strands a waiter, every wait with an attainable goal has returned when the pool is at rest. */
  lemma WaitersReturn(workers: nat, clients: nat, run: seq<Action>, c: nat)
    requires workers >= 1 && Possible(Initial(workers, clients), run)
    requires !PoolWaiters.SometimeStrands(Initial(workers, clients), run)
    requires AtRest(After(Initial(workers, clients), run)) && !After(Initial(workers, clients), run).inBatch
    requires c < |After(Initial(workers, clients), run).clients|
    ensures var pc := After(Initial(workers, clients), run).clients[c];
            pc.Idle? || (pc.Waiting? && pc.goal.AtMost? && pc.goal.target < 0)
  {
    PoolWaiters.OnlyClearStrands(workers, clients, run);
    RestMeansReturned(After(Initial(workers, clients), run), c);
  }

  /** At rest every job that is not held back by an open batch is done with or was cleared. */
  lemma RestMeansWorked(s: Pool, j: nat)
    requires Reachable(s) && AtRest(s) && j < s.issued
    ensures (j in s.worked && j in s.completed) || j in s.cleared || (j in s.jobs.queue && s.inBatch)
  {
    PoolTheorems.ReachableHolds(s);
    PoolTheorems.Conservation(s);
    RestMeansDone(s);
  }

  /** From every reachable state the pool can come to rest by progress steps alone. */
  lemma {:induction false} ComesToRest(s: Pool) returns (run: seq<Action>)
    ensures Possible(s, run) && AtRest(After(s, run))
    ensures forall k :: 0 <= k < |run| ==> Progress(run[k])
    decreases StepsLeft(s)
  {
    run := [];
    if w: nat :| Enabled(s, WorkerStep(w)) {
      WorkerProgress(s, w);
      var rest := ComesToRest(WorkerNext(s, w));
      run := [WorkerStep(w)] + rest;
      assert run[1..] == rest;
    } else if c: nat :| Enabled(s, ClientStep(c)) {
      ClientProgress(s, c);
      var rest := ComesToRest(ClientNext(s, c));
      run := [ClientStep(c)] + rest;
      assert run[1..] == rest;
    }
  }
}
