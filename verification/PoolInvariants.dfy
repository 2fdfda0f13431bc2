/** What holds in every reachable state of the thread pool. */
module PoolInvariants {
  import opened PoolProtocol

  /** How many of the first `n` workers hold a job. */
  function ActiveAmong(ws: seq<Worker>, n: nat): nat
    requires n <= |ws|
  {
    if n == 0 then 0 else ActiveAmong(ws, n - 1) + if Active(ws[n - 1]) then 1 else 0
  }

  lemma {:induction false} CountUpdate(ws: seq<Worker>, n: nat, w: nat, pc: Worker)
    requires w < |ws| && n <= |ws|
    ensures ActiveAmong(ws[w := pc], n) == ActiveAmong(ws, n)
            + if w < n then (if Active(pc) then 1 else 0) - (if Active(ws[w]) then 1 else 0) else 0
  {
    if n > 0 {
      CountUpdate(ws, n - 1, w, pc);
    }
  }

  lemma {:induction false} CountSame(ws: seq<Worker>, vs: seq<Worker>, n: nat)
    requires n <= |ws| == |vs| && forall i :: 0 <= i < n ==> Active(ws[i]) == Active(vs[i])
    ensures ActiveAmong(ws, n) == ActiveAmong(vs, n)
  {
    if n > 0 {
      CountSame(ws, vs, n - 1);
    }
  }

  lemma {:induction false} CountPositive(ws: seq<Worker>, n: nat, w: nat)
    requires w < n <= |ws| && Active(ws[w])
    ensures ActiveAmong(ws, n) > 0
  {
    if w < n - 1 {
      CountPositive(ws, n - 1, w);
    }
  }

  /* ---- the invariants ---- */

  ghost predicate MutexOk(s: Pool) {
    && (forall w {:trigger s.workers[w]} :: 0 <= w < |s.workers| ==>
          (HoldsMutex(s.workers[w]) <==> s.mutex == ByWorker(w)))
    && (forall c {:trigger s.clients[c]} :: 0 <= c < |s.clients| ==>
          (s.clients[c].Testing? <==> s.mutex == ByClient(c)))
    && (s.mutex.ByWorker? ==> s.mutex.w < |s.workers|)
    && (s.mutex.ByClient? ==> s.mutex.c < |s.clients|)
  }

  /** qsize is the length of the queue and nactive the number of workers that hold a job. */
  ghost predicate CountsOk(s: Pool) {
    s.jobs.qsize == |s.jobs.queue| && s.jobs.nactive == ActiveAmong(s.workers, |s.workers|)
  }

  ghost predicate SomeAsleep(s: Pool) {
    exists w :: 0 <= w < |s.workers| && s.workers[w].Asleep?
  }

  /** Some thread has yet to look at in_batch after pushing, or to broadcast. */
  ghost predicate BroadcastDue(s: Pool) {
    exists c :: 0 <= c < |s.clients| && (s.clients[c].Pushed? || s.clients[c].Announcing?)
  }

  /** No wakeup of the workers is lost. */
  ghost predicate WorkWakeOk(s: Pool) {
    s.jobs.queue != [] && SomeAsleep(s) ==> s.inBatch || BroadcastDue(s)
  }

  /** No wakeup of the waiters is lost, unless jobs were dropped from the queue. */
  ghost predicate DoneWakeOk(s: Pool) {
    && (s.cleared == [] ==>
          forall c :: 0 <= c < |s.clients| && s.clients[c].Waiting? ==> !Met(s.clients[c].goal, s.jobs))
    && ((exists w :: 0 <= w < |s.workers| && s.workers[w].Retiring?) ==>
          forall c :: 0 <= c < |s.clients| ==> !s.clients[c].Waiting?)
  }

  ghost predicate Invariant(s: Pool) {
    |s.workers| >= 1 && MutexOk(s) && CountsOk(s) && WorkWakeOk(s) && DoneWakeOk(s)
  }

  lemma MutexWorker(s: Pool, w: nat)
    requires MutexOk(s) && Enabled(s, WorkerStep(w))
    ensures MutexOk(WorkerNext(s, w))
  {
  }

  lemma MutexStep(s: Pool, a: Action)
    requires MutexOk(s) && Enabled(s, a)
    ensures MutexOk(Next(s, a))
  {
    var t := Next(s, a);
    if a.WorkerStep? {
      MutexWorker(s, a.w);
    } else if a.WorkerSpurious? {
      assert t.workers == s.workers[a.w := Woken];
    } else {
      assert forall w :: 0 <= w < |s.workers| ==> HoldsMutex(t.workers[w]) == HoldsMutex(s.workers[w]);
      assert t.clients == s.clients[a.c := t.clients[a.c]];
      assert forall c :: 0 <= c < |s.clients| && c != a.c ==> t.clients[c] == s.clients[c];
    }
  }

  lemma CountsWorker(s: Pool, w: nat)
    requires CountsOk(s) && Enabled(s, WorkerStep(w))
    ensures CountsOk(WorkerNext(s, w))
  {
    var t := WorkerNext(s, w);
    CountUpdate(s.workers, |s.workers|, w, t.workers[w]);
    assert t.workers == s.workers[w := t.workers[w]];
  }

  lemma CountsStep(s: Pool, a: Action)
    requires CountsOk(s) && Enabled(s, a)
    ensures CountsOk(Next(s, a))
  {
    var t := Next(s, a);
    if a.WorkerStep? {
      CountsWorker(s, a.w);
    } else {
      assert forall w :: 0 <= w < |s.workers| ==> Active(t.workers[w]) == Active(s.workers[w]);
      CountSame(s.workers, t.workers, |s.workers|);
    }
  }

  lemma WorkWakeStep(s: Pool, a: Action)
    requires WorkWakeOk(s) && Enabled(s, a)
    ensures WorkWakeOk(Next(s, a))
  {
    var t := Next(s, a);
    if t.jobs.queue != [] && SomeAsleep(t) {
      if a.WorkerStep? || a.WorkerSpurious? {
        WorkWakeWorker(s, a);
      } else {
        assert !(a.ClientStep? && s.clients[a.c].Announcing?);
        WorkWakeClient(s, a);
      }
    }
  }

  lemma WorkWakeWorker(s: Pool, a: Action)
    requires WorkWakeOk(s) && Enabled(s, a) && (a.WorkerStep? || a.WorkerSpurious?)
    requires Next(s, a).jobs.queue != [] && SomeAsleep(Next(s, a))
    ensures Next(s, a).inBatch || BroadcastDue(Next(s, a))
  {
    var t := Next(s, a);
    var w :| 0 <= w < |t.workers| && t.workers[w].Asleep?;
    assert s.workers[w].Asleep? && s.jobs.queue != [];
    if !s.inBatch {
      var c :| 0 <= c < |s.clients| && (s.clients[c].Pushed? || s.clients[c].Announcing?);
      assert t.clients[c] == s.clients[c];
    }
  }

  lemma WorkWakeClient(s: Pool, a: Action)
    requires WorkWakeOk(s) && Enabled(s, a) && !a.WorkerStep? && !a.WorkerSpurious?
    requires Next(s, a).jobs.queue != [] && SomeAsleep(s) && Next(s, a).workers == s.workers
    requires a.ClientStep? ==> !s.clients[a.c].Announcing?
    ensures Next(s, a).inBatch || BroadcastDue(Next(s, a))
  {
    var t := Next(s, a);
    assert t.clients == s.clients[a.c := t.clients[a.c]];
    if t.clients[a.c].Pushed? || t.clients[a.c].Announcing? {
      assert BroadcastDue(t);
    } else if !t.inBatch {
      assert t.jobs.queue == s.jobs.queue && !s.inBatch;
      var c :| 0 <= c < |s.clients| && (s.clients[c].Pushed? || s.clients[c].Announcing?);
      assert t.clients[c] == s.clients[c];
    }
  }

  lemma {:induction false} DoneWakeWorker(s: Pool, w: nat)
    requires MutexOk(s) && CountsOk(s) && DoneWakeOk(s) && Enabled(s, WorkerStep(w))
    ensures DoneWakeOk(WorkerNext(s, w))
  {
    var t := WorkerNext(s, w);
    assert HoldsMutex(s.workers[w]) <==> s.mutex == ByWorker(w);
    assert t.workers == s.workers[w := t.workers[w]];
    if s.workers[w].Notifying? {
      assert forall c :: 0 <= c < |t.clients| ==> !t.clients[c].Waiting?;
    } else {
      assert t.clients == s.clients;
      assert s.workers[w].Retiring? ==> forall c :: 0 <= c < |s.clients| ==> !s.clients[c].Waiting?;
      assert !t.workers[w].Retiring?;
    }
  }

  lemma {:induction false} DoneWakeClient(s: Pool, a: Action)
    requires MutexOk(s) && CountsOk(s) && DoneWakeOk(s) && Enabled(s, a) && !a.WorkerStep? && !a.WorkerSpurious?
    ensures DoneWakeOk(Next(s, a))
  {
    var t := Next(s, a);
    assert forall w :: 0 <= w < |s.workers| ==> (t.workers[w].Retiring? <==> s.workers[w].Retiring?);
    assert t.clients == s.clients[a.c := t.clients[a.c]];
    if a.Clear? && t.cleared == [] {
      assert s.jobs.queue == [];
    }
    if a.ClientStep? && s.clients[a.c].Testing? {
      forall w | 0 <= w < |s.workers| ensures !s.workers[w].Retiring? {
        assert HoldsMutex(s.workers[w]) <==> s.mutex == ByWorker(w);
      }
    }
  }

  lemma {:induction false} DoneWakeStep(s: Pool, a: Action)
    requires MutexOk(s) && CountsOk(s) && DoneWakeOk(s) && Enabled(s, a)
    ensures DoneWakeOk(Next(s, a))
  {
    if a.WorkerStep? {
      DoneWakeWorker(s, a.w);
    } else if a.WorkerSpurious? {
      assert Next(s, a).workers == s.workers[a.w := Woken];
    } else {
      DoneWakeClient(s, a);
    }
  }

  lemma InvariantStep(s: Pool, a: Action)
    requires Invariant(s) && Enabled(s, a)
    ensures Invariant(Next(s, a))
  {
    MutexStep(s, a);
    CountsStep(s, a);
    WorkWakeStep(s, a);
    DoneWakeStep(s, a);
  }
}
