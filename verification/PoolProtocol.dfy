/**
 The threads of `src/tpool.c` as an interleaved step system, up to shutdown.

 Every locked region that other threads cannot look into is one step; everything that happens
 without the mutex, and every broadcast, is a step of its own. Condition variables may wake
 spuriously.
 */
module PoolProtocol {
  import opened JobQueue

  /** Where a worker is in `thread_func`. */
  datatype Worker =
    | Start                 // about to lock the mutex for the first time
    | Outer                 // in the outer loop, with the mutex
    | Asleep                // blocked on the work condition variable, not signalled
    | Woken                 // signalled, about to get the mutex back
    | Inner                 // at the inner loop's test, with the mutex
    | Working(job: nat)     // about to call the job's work function
    | Finishing(job: nat)   // about to call the job's done function
    | Returning(job: nat)   // about to lock the mutex again
    | Notifying(job: nat)   // about to broadcast "done", with the mutex
    | Retiring(job: nat)    // has broadcast, about to decrement nactive, with the mutex

  /** What a waiter waits for: `resman_tpool_wait` or `resman_tpool_wait_pending`. */
  datatype Goal = NoneLeft | AtMost(target: int)

  /** Where a thread that uses the pool is. */
  datatype Client =
    | Idle
    | Pushing               // in enqueue, about to lock the mutex
    | Pushed                // in enqueue, mutex released, about to read in_batch
    | Announcing            // about to broadcast on the work condition variable
    | Locking(goal: Goal)   // in wait, about to lock the mutex
    | Testing(goal: Goal)   // in wait, at the loop's test, with the mutex
    | Waiting(goal: Goal)   // blocked on the done condition variable, not signalled
    | Waking(goal: Goal)    // signalled, about to get the mutex back

  datatype Holder = Nobody | ByWorker(w: nat) | ByClient(c: nat)

  /**
   Jobs are numbered in the order of enqueueing. `started`, `worked`, `completed`, `retired` and
   `cleared` record what happened to them: taken from the queue, work function called, done
   function returned, counted as no longer active, dropped by `resman_tpool_clear`.
   */
  datatype Pool = Pool(
    workers: seq<Worker>, clients: seq<Client>, mutex: Holder, jobs: Jobs<nat>, inBatch: bool,
    issued: nat, started: seq<nat>, worked: seq<nat>, completed: set<nat>, retired: seq<nat>, cleared: seq<nat>)

  function Initial(workers: nat, clients: nat): Pool {
    Pool(seq(workers, _ => Start), seq(clients, _ => Idle), Nobody, Jobs([], 0, 0), false, 0, [], [], {}, [], [])
  }

  predicate HoldsMutex(w: Worker) {
    w.Outer? || w.Inner? || w.Notifying? || w.Retiring?
  }

  /** Between taking a job and retiring it. */
  predicate Active(w: Worker) {
    w.Working? || w.Finishing? || w.Returning? || w.Notifying? || w.Retiring?
  }

  predicate Met(goal: Goal, jobs: Jobs<nat>) {
    match goal
    case NoneLeft => jobs.nactive == 0 && jobs.qsize == 0
    case AtMost(target) => jobs.qsize + jobs.nactive <= target
  }

  /** A broadcast on the work condition variable. */
  function WakeWorkers(ws: seq<Worker>): (r: seq<Worker>) {
    seq(|ws|, i requires 0 <= i < |ws| => if ws[i].Asleep? then Woken else ws[i])
  }

  /** A broadcast on the done condition variable. */
  function WakeWaiters(cs: seq<Client>): (r: seq<Client>) {
    seq(|cs|, i requires 0 <= i < |cs| => if cs[i].Waiting? then Waking(cs[i].goal) else cs[i])
  }

  datatype Action =
    | WorkerStep(w: nat)          // the next step of thread_func
    | WorkerSpurious(w: nat)      // a spurious wakeup
    | BeginBatch(c: nat)
    | EndBatch(c: nat)
    | BeginEnqueue(c: nat)
    | BeginWait(c: nat, goal: Goal)
    | Clear(c: nat)
    | ClientStep(c: nat)          // the next step of the operation the client is in
    | ClientSpurious(c: nat)

  predicate Enabled(s: Pool, a: Action) {
    match a
    case WorkerStep(w) =>
      w < |s.workers| && !s.workers[w].Asleep?
      && (s.workers[w].Start? || s.workers[w].Woken? || s.workers[w].Returning? ==> s.mutex == Nobody)
    case WorkerSpurious(w) => w < |s.workers| && s.workers[w].Asleep?
    case BeginBatch(c) => c < |s.clients| && s.clients[c].Idle?
    case EndBatch(c) => c < |s.clients| && s.clients[c].Idle?
    case BeginEnqueue(c) => c < |s.clients| && s.clients[c].Idle?
    case BeginWait(c, _) => c < |s.clients| && s.clients[c].Idle?
    case Clear(c) => c < |s.clients| && s.clients[c].Idle? && s.mutex == Nobody
    case ClientStep(c) =>
      c < |s.clients| && !s.clients[c].Idle? && !s.clients[c].Waiting?
      && (s.clients[c].Pushing? || s.clients[c].Locking? || s.clients[c].Waking? ==> s.mutex == Nobody)
    case ClientSpurious(c) => c < |s.clients| && s.clients[c].Waiting?
  }

  function SetWorker(s: Pool, w: nat, pc: Worker): Pool
    requires w < |s.workers|
  {
    s.(workers := s.workers[w := pc])
  }

  function SetClient(s: Pool, c: nat, pc: Client): Pool
    requires c < |s.clients|
  {
    s.(clients := s.clients[c := pc])
  }

  function WorkerNext(s: Pool, w: nat): Pool
    requires Enabled(s, WorkerStep(w))
  {
    match s.workers[w]
    case Start => SetWorker(s, w, Outer).(mutex := ByWorker(w))
    case Outer =>
      if s.jobs.queue == [] then SetWorker(s, w, Asleep).(mutex := Nobody) else SetWorker(s, w, Inner)
    case Woken => SetWorker(s, w, Inner).(mutex := ByWorker(w))
    case Inner =>
      if s.jobs.queue == [] then SetWorker(s, w, Outer)
      else
        var job := s.jobs.queue[0];
        SetWorker(s, w, Working(job)).(mutex := Nobody, jobs := Take(s.jobs), started := s.started + [job])
    case Working(job) => SetWorker(s, w, Finishing(job)).(worked := s.worked + [job])
    case Finishing(job) => SetWorker(s, w, Returning(job)).(completed := s.completed + {job})
    case Returning(job) => SetWorker(s, w, Notifying(job)).(mutex := ByWorker(w))
    case Notifying(job) => SetWorker(s, w, Retiring(job)).(clients := WakeWaiters(s.clients))
    case Retiring(job) => SetWorker(s, w, Inner).(jobs := Retire(s.jobs), retired := s.retired + [job])
    case Asleep => s
  }

  function ClientNext(s: Pool, c: nat): Pool
    requires Enabled(s, ClientStep(c))
  {
    match s.clients[c]
    case Pushing =>
      SetClient(s, c, Pushed).(jobs := Enqueue(s.jobs, s.issued), issued := s.issued + 1)
    case Pushed => SetClient(s, c, if s.inBatch then Idle else Announcing)
    case Announcing => SetClient(s, c, Idle).(workers := WakeWorkers(s.workers))
    case Locking(goal) => SetClient(s, c, Testing(goal)).(mutex := ByClient(c))
    case Testing(goal) =>
      SetClient(s, c, if Met(goal, s.jobs) then Idle else Waiting(goal)).(mutex := Nobody)
    case Waking(goal) => SetClient(s, c, Testing(goal)).(mutex := ByClient(c))
    case Idle => s
    case Waiting(_) => s
  }

  function Next(s: Pool, a: Action): Pool
    requires Enabled(s, a)
  {
    match a
    case WorkerStep(w) => WorkerNext(s, w)
    case WorkerSpurious(w) => SetWorker(s, w, Woken)
    case BeginBatch(c) => s.(inBatch := true)
    case EndBatch(c) => SetClient(s, c, Announcing).(inBatch := false)
    case BeginEnqueue(c) => SetClient(s, c, Pushing)
    case BeginWait(c, goal) => SetClient(s, c, Locking(goal))
    case Clear(c) => s.(jobs := JobQueue.Clear(s.jobs), cleared := s.cleared + s.jobs.queue)
    case ClientStep(c) => ClientNext(s, c)
    case ClientSpurious(c) => SetClient(s, c, Waking(s.clients[c].goal))
  }

  /** The actions can happen one after the other. */
  predicate Possible(s: Pool, run: seq<Action>)
    decreases |run|
  {
    run == [] || (Enabled(s, run[0]) && Possible(Next(s, run[0]), run[1..]))
  }

  function After(s: Pool, run: seq<Action>): Pool
    requires Possible(s, run)
    decreases |run|
  {
    if run == [] then s else After(Next(s, run[0]), run[1..])
  }

  /** `s` is reached by some run of a pool with at least one worker. */
  ghost predicate Reachable(s: Pool) {
    exists workers: nat, clients: nat, run: seq<Action> ::
      workers >= 1 && Possible(Initial(workers, clients), run) && After(Initial(workers, clients), run) == s
  }
}
