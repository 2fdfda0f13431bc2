/**
 The resource manager's jobs on the pool's threads: job `k` of the pool is task `k` of the manager. A
 worker at the call of its job's work function runs the steps of that task, and the locked region of
 the enqueueing client is the manager's enqueueing step.
 */
module ManagerPool {
  import PoolProtocol
  import PoolTheorems
  import PoolProgress
  import ResmanProgress
  import opened ResmanProtocol
  import opened ResmanTheorems

  datatype Joint = Joint(pool: PoolProtocol.Pool, man: Man)

  datatype Move =
    | OfPool(p: PoolProtocol.Action)
    | OfManager(m: Action)
    | Push(c: nat, answer: Answer)   // client `c` appends the manager's job to the queue

  function Initial(workers: nat, clients: nat, hasDone: bool, watching: bool): Joint {
    Joint(PoolProtocol.Initial(workers, clients), ResmanProtocol.Initial(hasDone, watching))
  }

  /** The client is at the locked region of enqueue. */
  predicate AtPush(p: PoolProtocol.Pool, a: PoolProtocol.Action) {
    a.ClientStep? && a.c < |p.clients| && p.clients[a.c].Pushing?
  }

  predicate Runs(p: PoolProtocol.Pool, k: nat) {
    exists w :: 0 <= w < |p.workers| && p.workers[w] == PoolProtocol.Working(k)
  }

  predicate Allowed(s: Joint, m: Move) {
    match m
    case OfPool(a) =>
      && PoolProtocol.Enabled(s.pool, a) && !AtPush(s.pool, a)
      && (a.WorkerStep? && s.pool.workers[a.w].Working? ==>
            var k := s.pool.workers[a.w].job; k < |s.man.tasks| && s.man.tasks[k].phase.Over?)
    case OfManager(a) =>
      && Enabled(s.man, a) && !(a.MainStep? && s.man.main.Enqueueing?)
      && (a.TaskStep? ==> Runs(s.pool, a.task))
    case Push(c, x) =>
      && PoolProtocol.Enabled(s.pool, PoolProtocol.ClientStep(c)) && s.pool.clients[c].Pushing?
      && Enabled(s.man, MainStep(x)) && s.man.main.Enqueueing?
  }

  function After(s: Joint, m: Move): Joint
    requires Allowed(s, m)
  {
    match m
    case OfPool(a) => s.(pool := PoolProtocol.Next(s.pool, a))
    case OfManager(a) => s.(man := Next(s.man, a))
    case Push(c, x) =>
      Joint(PoolProtocol.Next(s.pool, PoolProtocol.ClientStep(c)), Next(s.man, MainStep(x)))
  }

  ghost predicate Leads(s: Joint, run: seq<Move>, t: Joint)
    decreases |run|
  {
    if run == [] then s == t else Allowed(s, run[0]) && Leads(After(s, run[0]), run[1..], t)
  }

  ghost predicate Reachable(s: Joint) {
    exists workers: nat, clients: nat, hasDone, watching, run ::
      workers >= 1 && Leads(Initial(workers, clients, hasDone, watching), run, s)
  }

  /** Both parts are reachable by themselves, every enqueued job is a task, and done work is a task that is over. */
  ghost predicate Coupled(s: Joint) {
    && PoolProtocol.Reachable(s.pool) && ResmanProtocol.Reachable(s.man)
    && s.pool.issued == |s.man.tasks|
    && forall j :: j in s.pool.worked ==> j < |s.man.tasks| && s.man.tasks[j].phase.Over?
  }

  lemma PoolWork(p: PoolProtocol.Pool, a: PoolProtocol.Action)
    requires PoolProtocol.Enabled(p, a)
    ensures var q := PoolProtocol.Next(p, a);
            && q.issued == p.issued + (if AtPush(p, a) then 1 else 0)
            && forall j :: j in q.worked ==>
                 j in p.worked || (a.WorkerStep? && p.workers[a.w] == PoolProtocol.Working(j))
  {
  }

  /** Tasks are only appended, by the enqueueing step, and a task that is over stays so. */
  lemma TasksGrow(s: Man, a: Action)
    requires Enabled(s, a)
    ensures var t := Next(s, a);
            && |t.tasks| == |s.tasks| + (if a.MainStep? && s.main.Enqueueing? then 1 else 0)
            && forall k :: 0 <= k < |s.tasks| && s.tasks[k].phase.Over? ==> t.tasks[k].phase.Over?
  {
    if a.MainStep? {
      MainTasks(s, a.answer);
    } else if a.TaskStep? {
      var t := TaskNext(s, a.task, a.answer);
      assert |t.tasks| == |s.tasks| && forall k :: 0 <= k < |s.tasks| && k != a.task ==> t.tasks[k] == s.tasks[k];
    }
  }

  lemma MainTasks(s: Man, x: Answer)
    requires Enabled(s, MainStep(x))
    ensures MainNext(s, x).tasks ==
            if s.main.Enqueueing? then s.tasks + [Task(s.main.res, Queued)] else s.tasks
  {
    if s.main.Delivering? {
      ResmanProgress.DeliverKeepsTasks(s, x);
    }
  }

  lemma CoupledStep(s: Joint, m: Move)
    requires Coupled(s) && Allowed(s, m)
    ensures Coupled(After(s, m))
  {
    match m
    case OfPool(a) =>
      PoolTheorems.ReachableNext(s.pool, a);
      PoolWork(s.pool, a);
    case OfManager(a) =>
      ReachableNext(s.man, a);
      TasksGrow(s.man, a);
    case Push(c, x) =>
      PoolTheorems.ReachableNext(s.pool, PoolProtocol.ClientStep(c));
      PoolWork(s.pool, PoolProtocol.ClientStep(c));
      ReachableNext(s.man, MainStep(x));
      TasksGrow(s.man, MainStep(x));
  }

  lemma {:induction false} CoupledRun(s: Joint, run: seq<Move>, t: Joint)
    requires Coupled(s) && Leads(s, run, t)
    ensures Coupled(t)
    decreases |run|
  {
    if run != [] {
      CoupledStep(s, run[0]);
      CoupledRun(After(s, run[0]), run[1..], t);
    }
  }

  lemma ReachableCoupled(s: Joint)
    requires Reachable(s)
    ensures Coupled(s)
  {
    var workers: nat, clients: nat, hasDone, watching, run :|
      workers >= 1 && Leads(Initial(workers, clients, hasDone, watching), run, s);
    var i := Initial(workers, clients, hasDone, watching);
    assert PoolProtocol.Possible(i.pool, []) && PoolProtocol.After(i.pool, []) == i.pool;
    assert Possible(i.man, []) && ResmanProtocol.After(i.man, []) == i.man;
    CoupledRun(i, run, s);
  }

  /**
   When `resman_wait_all` returns, no job was dropped and the owning thread has no reload under way,
   every load job is over and no live resource is pending.
   */
  lemma WaitAllMeansLoaded(s: Joint, c: nat)
    requires Reachable(s) && c < |s.pool.clients| && s.pool.clients[c] == PoolProtocol.Testing(PoolProtocol.NoneLeft)
    requires PoolProtocol.Next(s.pool, PoolProtocol.ClientStep(c)).clients[c] == PoolProtocol.Idle
    requires s.pool.cleared == [] && !s.man.main.Enqueueing? && !s.man.faulted
    ensures forall k :: 0 <= k < |s.man.tasks| ==> s.man.tasks[k].phase.Over?
    ensures forall i: nat :: IsLive(s.man, i) ==> !s.man.slots[i].r.pending
  {
    ReachableCoupled(s);
    forall j: nat | j < s.pool.issued ensures j in s.pool.worked {
      PoolTheorems.WaitMeansDone(s.pool, c, j);
    }
    AllWorkedMeansLoaded(s);
  }

  /**
   Neither side holds up the other: whatever a worker can do in the pool it can do here, or it is at
   the call of its job and can run the next step of that task.
   */
  lemma {:induction false} WorkersMove(s: Joint, w: nat, x: Answer)
    requires Reachable(s) && !s.man.faulted && PoolProtocol.Enabled(s.pool, PoolProtocol.WorkerStep(w))
    ensures Allowed(s, OfPool(PoolProtocol.WorkerStep(w)))
            || (s.pool.workers[w].Working? && Allowed(s, OfManager(TaskStep(s.pool.workers[w].job, x))))
  {
    ReachableCoupled(s);
    PoolTheorems.ReachableHolds(s.pool);
    if s.pool.workers[w].Working? {
      var k := s.pool.workers[w].job;
      assert PoolProtocol.Active(s.pool.workers[w]) && k in s.pool.started && k < s.pool.issued;
      assert Runs(s.pool, k);
    }
  }

  /** The owning thread can always go on, and enqueues as soon as a client has the mutex to itself. */
  lemma {:induction false} OwnerMoves(s: Joint, a: Action, c: nat, x: Answer)
    requires Enabled(s.man, a) && ResmanProgress.OwnStep(a)
    ensures if s.man.main.Enqueueing? && a.MainStep?
            then c < |s.pool.clients| && s.pool.clients[c].Pushing? && s.pool.mutex == PoolProtocol.Nobody ==>
                   Allowed(s, Push(c, x))
            else Allowed(s, OfManager(a))
  {
  }

  /** When all enqueued work is done, every task is over and no live resource is pending. */
  lemma AllWorkedMeansLoaded(s: Joint)
    requires Coupled(s) && !s.man.main.Enqueueing? && !s.man.faulted
    requires forall j: nat :: j < s.pool.issued ==> j in s.pool.worked
    ensures forall k :: 0 <= k < |s.man.tasks| ==> s.man.tasks[k].phase.Over?
    ensures forall i: nat :: IsLive(s.man, i) ==> !s.man.slots[i].r.pending
  {
    forall k | 0 <= k < |s.man.tasks| ensures s.man.tasks[k].phase.Over? {
      assert k in s.pool.worked;
    }
    forall i: nat | IsLive(s.man, i) ensures !s.man.slots[i].r.pending {
      if s.man.slots[i].r.pending {
        PendingHasJob(s.man, i);
      }
    }
  }

  /**
   Once the pool has come to rest with no batch open and no job dropped, and the owning thread has no
   reload under way, every load job is over and no live resource is pending, without any wait.
   */
  lemma RestMeansLoaded(s: Joint)
    requires Reachable(s) && PoolProgress.AtRest(s.pool) && !s.pool.inBatch && s.pool.cleared == []
    requires !s.man.main.Enqueueing? && !s.man.faulted
    ensures forall k :: 0 <= k < |s.man.tasks| ==> s.man.tasks[k].phase.Over?
    ensures forall i: nat :: IsLive(s.man, i) ==> !s.man.slots[i].r.pending
  {
    ReachableCoupled(s);
    forall j: nat | j < s.pool.issued ensures j in s.pool.worked {
      PoolProgress.RestMeansWorked(s.pool, j);
    }
    AllWorkedMeansLoaded(s);
  }
}
