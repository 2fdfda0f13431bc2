/** What happens to every job over a whole run of the thread pool. */
module PoolHistory {
  import opened PoolProtocol

  /** Every job number so far is on exactly one of the lists queue, started and cleared. */
  ghost predicate QueueOk(s: Pool) {
    var first := s.issued - |s.jobs.queue|;
    && first >= 0
    && (forall i :: 0 <= i < |s.jobs.queue| ==> s.jobs.queue[i] == first + i)
    && (forall i, j :: 0 <= i < j < |s.started| ==> s.started[i] < s.started[j])
    && (forall j :: j in s.started ==> j < first && j !in s.cleared)
    && (forall j :: j in s.cleared ==> j < first)
    && (forall j: nat :: j < first ==> j in s.started || j in s.cleared)
    && |s.started| + |s.cleared| == first
  }

  /** A started job is held by exactly one worker until it is retired. */
  ghost predicate RunOk(s: Pool) {
    && (forall w :: 0 <= w < |s.workers| && Active(s.workers[w]) ==>
          s.workers[w].job in s.started && s.workers[w].job !in s.retired)
    && (forall v, w :: 0 <= v < w < |s.workers| && Active(s.workers[v]) && Active(s.workers[w]) ==>
          s.workers[v].job != s.workers[w].job)
    && (forall j :: j in s.started ==> j in s.retired || HeldBySome(s, j))
    && (forall j :: j in s.retired ==> j in s.started)
    && |s.started| == s.jobs.nactive + |s.retired|
  }

  ghost predicate HeldBySome(s: Pool, job: nat) {
    exists w :: 0 <= w < |s.workers| && Active(s.workers[w]) && s.workers[w].job == job
  }

  /** Work comes before the done function, and each happens once per job. */
  ghost predicate WorkOk(s: Pool) {
    && (forall i, j :: 0 <= i < j < |s.worked| ==> s.worked[i] != s.worked[j])
    && (forall j :: j in s.worked ==> j in s.started)
    && (forall j :: j in s.retired ==> j in s.completed)
    && s.completed <= (set j | j in s.worked)
    && (forall w :: 0 <= w < |s.workers| && Active(s.workers[w]) ==>
          && (s.workers[w].job in s.worked <==> !s.workers[w].Working?)
          && (s.workers[w].job in s.completed <==> !s.workers[w].Working? && !s.workers[w].Finishing?))
  }

  ghost predicate History(s: Pool) {
    QueueOk(s) && RunOk(s) && WorkOk(s)
  }

  /** A worker takes or retires a job. */
  ghost predicate Takes(s: Pool, a: Action) {
    Enabled(s, a) && a.WorkerStep? && s.workers[a.w].Inner? && s.jobs.queue != []
  }

  ghost predicate Retires(s: Pool, a: Action) {
    Enabled(s, a) && a.WorkerStep? && s.workers[a.w].Retiring?
  }

  /** Every worker holds the same job in `t` as in `s`, if any. */
  ghost predicate SameHolders(s: Pool, t: Pool) {
    && |t.workers| == |s.workers|
    && (forall w :: 0 <= w < |s.workers| ==> Active(t.workers[w]) == Active(s.workers[w]))
    && (forall w :: 0 <= w < |s.workers| && Active(s.workers[w]) ==> t.workers[w].job == s.workers[w].job)
    && t.started == s.started && t.retired == s.retired && t.jobs.nactive == s.jobs.nactive
  }

  lemma {:induction false} OtherStepsKeepHolders(s: Pool, a: Action)
    requires Enabled(s, a) && !Takes(s, a) && !Retires(s, a)
    ensures SameHolders(s, Next(s, a))
  {
    if a.WorkerStep? {
      var t := WorkerNext(s, a.w);
      assert t.workers == s.workers[a.w := t.workers[a.w]];
    }
  }

  lemma SameHoldersRun(s: Pool, t: Pool)
    requires RunOk(s) && SameHolders(s, t)
    ensures RunOk(t)
  {
  }

  /* ---- the queue and the lists of jobs ---- */

  lemma TakeQueue(s: Pool, w: nat)
    requires QueueOk(s) && Enabled(s, WorkerStep(w)) && s.workers[w].Inner? && s.jobs.queue != []
    ensures QueueOk(WorkerNext(s, w))
  {
    var t := WorkerNext(s, w);
    var first := s.issued - |s.jobs.queue|;
    assert s.jobs.queue[0] == first;
    assert forall i :: 0 <= i < |t.jobs.queue| ==> t.jobs.queue[i] == s.jobs.queue[i + 1];
    forall i | 0 <= i < |s.started| ensures s.started[i] < first {
      assert s.started[i] in s.started;
    }
    forall j: nat | j < first + 1 ensures j in t.started || j in t.cleared {
      if j == first {
        assert t.started[|s.started|] == first;
      } else {
        assert j in s.started || j in s.cleared;
      }
    }
  }

  lemma ClearQueue(s: Pool, c: nat)
    requires QueueOk(s) && Enabled(s, Clear(c))
    ensures QueueOk(Next(s, Clear(c)))
  {
    var t := Next(s, Clear(c));
    assert forall i :: 0 <= i < |s.jobs.queue| ==> s.jobs.queue[i] in s.jobs.queue;
    forall j: nat | j < s.issued ensures j in t.started || j in t.cleared {
      var first := s.issued - |s.jobs.queue|;
      if j >= first {
        assert s.jobs.queue[j - first] == j;
      }
    }
  }

  ghost predicate Puts(s: Pool, a: Action) {
    Enabled(s, a) && a.ClientStep? && s.clients[a.c].Pushing?
  }

  lemma PutQueue(s: Pool, c: nat)
    requires QueueOk(s) && Puts(s, ClientStep(c))
    ensures QueueOk(Next(s, ClientStep(c)))
  {
  }

  lemma OtherStepsKeepLists(s: Pool, a: Action)
    requires Enabled(s, a) && !Takes(s, a) && !Puts(s, a) && !a.Clear?
    ensures var t := Next(s, a);
            && t.jobs.queue == s.jobs.queue && t.issued == s.issued
            && t.started == s.started && t.cleared == s.cleared
  {
  }

  lemma QueueStep(s: Pool, a: Action)
    requires QueueOk(s) && Enabled(s, a)
    ensures QueueOk(Next(s, a))
  {
    if Takes(s, a) {
      TakeQueue(s, a.w);
    } else if Puts(s, a) {
      PutQueue(s, a.c);
    } else if a.Clear? {
      ClearQueue(s, a.c);
    } else {
      OtherStepsKeepLists(s, a);
    }
  }

  /* ---- a worker's steps ---- */

  lemma TakeRun(s: Pool, w: nat)
    requires QueueOk(s) && RunOk(s) && Enabled(s, WorkerStep(w)) && s.workers[w].Inner? && s.jobs.queue != []
    ensures RunOk(WorkerNext(s, w))
  {
    var t := WorkerNext(s, w);
    var job := s.jobs.queue[0];
    assert job !in s.started && job !in s.retired;
    assert Active(t.workers[w]) && t.workers[w].job == job;
    assert t.started[|s.started|] == job;
    forall j | j in t.started ensures j in t.retired || HeldBySome(t, j) {
      if j != job && j !in s.retired {
        assert j in s.started;
        var v :| 0 <= v < |s.workers| && Active(s.workers[v]) && s.workers[v].job == j;
        assert t.workers[v] == s.workers[v];
      }
    }
    forall v | 0 <= v < |s.workers| && v != w && Active(t.workers[v]) ensures t.workers[v].job in s.started {
      assert t.workers[v] == s.workers[v];
    }
  }

  lemma RetireRun(s: Pool, w: nat)
    requires RunOk(s) && Enabled(s, WorkerStep(w)) && s.workers[w].Retiring?
    ensures RunOk(WorkerNext(s, w))
  {
    var t := WorkerNext(s, w);
    var job := s.workers[w].job;
    assert t.retired[|s.retired|] == job;
    forall v | 0 <= v < |s.workers| && Active(t.workers[v])
      ensures t.workers[v] == s.workers[v] && t.workers[v].job != job
    {
      assert v != w;
      assert v < w || w < v;
    }
    forall j | j in t.started ensures j in t.retired || HeldBySome(t, j) {
      if j != job && j !in s.retired {
        var v :| 0 <= v < |s.workers| && Active(s.workers[v]) && s.workers[v].job == j;
        assert v != w && t.workers[v] == s.workers[v];
      }
    }
  }

  lemma RunStep(s: Pool, a: Action)
    requires QueueOk(s) && RunOk(s) && Enabled(s, a)
    ensures RunOk(Next(s, a))
  {
    if Takes(s, a) {
      TakeRun(s, a.w);
    } else if Retires(s, a) {
      RetireRun(s, a.w);
    } else {
      OtherStepsKeepHolders(s, a);
      SameHoldersRun(s, Next(s, a));
    }
  }

  /** The step of a worker that calls its job's work function. */
  lemma WorkingWork(s: Pool, w: nat)
    requires RunOk(s) && WorkOk(s) && Enabled(s, WorkerStep(w)) && s.workers[w].Working?
    ensures WorkOk(WorkerNext(s, w))
  {
  }

  /** The step of a worker that calls its job's done function. */
  lemma FinishingWork(s: Pool, w: nat)
    requires RunOk(s) && WorkOk(s) && Enabled(s, WorkerStep(w)) && s.workers[w].Finishing?
    ensures WorkOk(WorkerNext(s, w))
  {
  }

  lemma TakeWork(s: Pool, w: nat)
    requires QueueOk(s) && WorkOk(s) && Takes(s, WorkerStep(w))
    ensures WorkOk(WorkerNext(s, w))
  {
  }

  /** Every worker is in the same phase of the same job in `t` as in `s`. */
  ghost predicate SamePhases(s: Pool, t: Pool) {
    && SameHolders(s, t)
    && (forall w :: 0 <= w < |s.workers| ==>
          && t.workers[w].Working? == s.workers[w].Working?
          && t.workers[w].Finishing? == s.workers[w].Finishing?)
    && t.worked == s.worked && t.completed == s.completed
  }

  lemma SamePhasesWork(s: Pool, t: Pool)
    requires WorkOk(s) && SamePhases(s, t)
    ensures WorkOk(t)
  {
  }

  lemma RetireWork(s: Pool, w: nat)
    requires WorkOk(s) && Retires(s, WorkerStep(w))
    ensures WorkOk(WorkerNext(s, w))
  {
  }

  lemma {:induction false} OtherStepsKeepPhases(s: Pool, a: Action)
    requires Enabled(s, a) && !Takes(s, a) && !Retires(s, a)
    requires a.WorkerStep? ==> !s.workers[a.w].Working? && !s.workers[a.w].Finishing?
    ensures SamePhases(s, Next(s, a))
  {
    OtherStepsKeepHolders(s, a);
  }

  lemma WorkStep(s: Pool, a: Action)
    requires History(s) && Enabled(s, a)
    ensures WorkOk(Next(s, a))
  {
    if Takes(s, a) {
      TakeWork(s, a.w);
    } else if a.WorkerStep? && s.workers[a.w].Working? {
      WorkingWork(s, a.w);
    } else if a.WorkerStep? && s.workers[a.w].Finishing? {
      FinishingWork(s, a.w);
    } else if Retires(s, a) {
      RetireWork(s, a.w);
    } else {
      OtherStepsKeepPhases(s, a);
      SamePhasesWork(s, Next(s, a));
    }
  }

  lemma HistoryStep(s: Pool, a: Action)
    requires History(s) && Enabled(s, a)
    ensures History(Next(s, a))
  {
    QueueStep(s, a);
    RunStep(s, a);
    WorkStep(s, a);
  }
}
