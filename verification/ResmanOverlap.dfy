/**
 Two load jobs of one resource at a time are what lets a removal free a resource under a job: without
 them it never happens, watched or not, and with them it can.
 */
module ResmanOverlap {
  import opened ResmanProtocol
  import opened ResmanInvariants
  import opened ResmanTheorems

  /** The step begins a load of the resource in slot `i` while another one is queued or running. */
  ghost predicate Overlaps(s: Man, a: Action, i: nat) {
    a.MainStep? && s.main.Reloading? && s.main.res == i && Outstanding(s, i)
  }

  ghost predicate SomeOverlap(s: Man, run: seq<Action>, i: nat)
    requires Possible(s, run)
    decreases |run|
  {
    run != [] && (Overlaps(s, run[0], i) || SomeOverlap(Next(s, run[0]), run[1..], i))
  }

  ghost predicate SoleJob(tasks: seq<Task>, i: nat) {
    forall j, k :: 0 <= j < k < |tasks| && tasks[j].res == i && tasks[k].res == i ==>
      tasks[j].phase.Over? || tasks[k].phase.Over?
  }

  /** The owning thread reloads the resource in slot `i`. */
  predicate Reloads(m: Main, i: nat) {
    (m.Reloading? || m.Enqueueing?) && m.res == i
  }

  ghost predicate NoEntry(s: Man, i: nat) {
    forall wd :: wd in s.watches ==> s.watches[wd] != i
  }

  /** Before its first done call a resource has one job, no watch and no timeout. */
  ghost predicate Fresh(s: Man, i: nat)
    requires IsLive(s, i)
  {
    var r := s.slots[i].r;
    && r.nfd <= 0 && r.reloadTimeout == 0 && NoEntry(s, i)
    && (Reloads(s.main, i) ==> !Outstanding(s, i))
    && (r.donePending ==> !Outstanding(s, i) && !Reloads(s.main, i))
  }

  ghost predicate Guarded(s: Man, i: nat) {
    && SoleJob(s.tasks, i)
    && (Outstanding(s, i) ==> IsLive(s, i) && s.slots[i].r.pending)
    && (s.main.Enqueueing? && s.main.res == i ==> IsLive(s, i) && s.slots[i].r.pending && !Outstanding(s, i))
    && (s.main == DeleteRemoving(i) ==> IsLive(s, i) && !s.slots[i].r.pending)
    && (s.main.DoneRemoving? && s.main.i == i ==> !Outstanding(s, i))
    && (s.hasDone && IsLive(s, i) && s.slots[i].r.numLoads == 0 ==> Fresh(s, i))
  }

  /* ---- how the jobs change ---- */

  /** The step is the end of a load of the resource in slot `i`. */
  ghost predicate Finishes(s: Man, a: Action, i: nat) {
    a.TaskStep? && a.task < |s.tasks| && s.tasks[a.task].res == i && s.tasks[a.task].phase.Loaded?
  }

  /** The step enqueues a job for the resource in slot `i`. */
  ghost predicate Enqueues(s: Man, a: Action, i: nat) {
    a.MainStep? && s.main.Enqueueing? && s.main.res == i
  }

  lemma JobsAppend(tasks: seq<Task>, t: Task, i: nat)
    requires SoleJob(tasks, i)
    requires t.res == i && !t.phase.Over? ==> forall k :: 0 <= k < |tasks| && tasks[k].res == i ==> tasks[k].phase.Over?
    ensures SoleJob(tasks + [t], i)
  {
  }

  lemma JobsStep(s: Man, a: Action, i: nat)
    requires Enabled(s, a) && !Next(s, a).faulted && SoleJob(s.tasks, i)
    requires Enqueues(s, a, i) ==> !Outstanding(s, i)
    ensures var t := Next(s, a);
            && SoleJob(t.tasks, i)
            && (Outstanding(t, i) <==> Enqueues(s, a, i) || (Outstanding(s, i) && !Finishes(s, a, i)))
  {
    var t := Next(s, a);
    if a.TaskStep? {
      TaskJobs(s, a.task, a.answer, i);
    } else if a.MainStep? && s.main.Enqueueing? {
      var job := Task(s.main.res, Queued);
      assert t.tasks == s.tasks + [job];
      JobsAppend(s.tasks, job, i);
      assert t.tasks[|s.tasks|] == job;
      if Outstanding(s, i) {
        var k :| 0 <= k < |s.tasks| && s.tasks[k].res == i && !s.tasks[k].phase.Over?;
        assert t.tasks[k] == s.tasks[k];
      }
    } else {
      assert t.tasks == s.tasks;
    }
  }

  lemma TaskJobs(s: Man, n: nat, x: Answer, i: nat)
    requires Enabled(s, TaskStep(n, x)) && !TaskNext(s, n, x).faulted && SoleJob(s.tasks, i)
    ensures var t := TaskNext(s, n, x);
            && SoleJob(t.tasks, i)
            && (Outstanding(t, i) <==> Outstanding(s, i) && !Finishes(s, TaskStep(n, x), i))
  {
    var t := TaskNext(s, n, x);
    assert t.tasks == s.tasks[n := t.tasks[n]] && t.tasks[n].res == s.tasks[n].res;
    assert t.tasks[n].phase.Over? <==> s.tasks[n].phase.Loaded?;
    if Outstanding(s, i) && !Finishes(s, TaskStep(n, x), i) {
      var k :| 0 <= k < |s.tasks| && s.tasks[k].res == i && !s.tasks[k].phase.Over?;
      assert t.tasks[k].res == i && !t.tasks[k].phase.Over?;
    }
    if Outstanding(t, i) {
      var k :| 0 <= k < |t.tasks| && t.tasks[k].res == i && !t.tasks[k].phase.Over?;
      assert s.tasks[k].res == i && !s.tasks[k].phase.Over?;
    }
  }

  /* ---- a resource before its first done call ---- */

  lemma FreshDeliver(s: Man, x: Answer, i: nat)
    requires Enabled(s, MainStep(x)) && s.main.Delivering? && IsLive(s, i)
    requires var t := DeliverNext(s, s.main.i, s.main.start, x); IsLive(t, i) && t.slots[i].r.numLoads == 0
    requires s.slots[i].r.nfd <= 0 && NoEntry(s, i)
    ensures var t := DeliverNext(s, s.main.i, s.main.start, x); t.slots[i].r.nfd <= 0 && NoEntry(t, i)
  {
  }

  lemma FreshMain(s: Man, x: Answer, i: nat)
    requires Enabled(s, MainStep(x)) && !s.main.Delivering? && !MainNext(s, x).faulted && IsLive(s, i)
    requires IsLive(MainNext(s, x), i) && s.slots[i].r.nfd <= 0 && NoEntry(s, i)
    ensures MainNext(s, x).slots[i].r.nfd <= 0 && NoEntry(MainNext(s, x), i)
  {
  }

  lemma FreshTable(s: Man, a: Action, i: nat)
    requires AllOk(s) && Enabled(s, a) && !Next(s, a).faulted && s.hasDone && IsLive(s, i) && IsLive(Next(s, a), i)
    requires Next(s, a).slots[i].r.numLoads == 0 && s.slots[i].r.nfd <= 0 && NoEntry(s, i)
    ensures Next(s, a).slots[i].r.nfd <= 0 && NoEntry(Next(s, a), i)
  {
    if a.MainStep? {
      if s.main.Delivering? { FreshDeliver(s, a.answer, i); } else { FreshMain(s, a.answer, i); }
    }
  }

  /* ---- what a step does to the pending mark and to the owning thread's place ---- */

  lemma PendingChange(s: Man, a: Action, i: nat)
    requires Enabled(s, a) && !Next(s, a).faulted && IsLive(s, i) && IsLive(Next(s, a), i)
    ensures Next(s, a).slots[i].r.pending ==
            if Finishes(s, a, i) then false
            else (a.MainStep? && s.main.Reloading? && s.main.res == i) || s.slots[i].r.pending
  {
    if a.MainStep? {
      MainPending(s, a.answer, i);
    }
  }

  lemma MainPending(s: Man, x: Answer, i: nat)
    requires Enabled(s, MainStep(x)) && !MainNext(s, x).faulted && IsLive(s, i) && IsLive(MainNext(s, x), i)
    ensures MainNext(s, x).slots[i].r.pending ==
            ((s.main.Reloading? && s.main.res == i) || s.slots[i].r.pending)
  {
    if !s.main.Reloading? {
      MainEffect(s, x, MainNext(s, x), i);
    }
  }

  /* ---- the invariant ---- */

  lemma OutstandingStays(s: Man, a: Action, i: nat)
    requires AllOk(s) && Guarded(s, i) && Enabled(s, a) && !Next(s, a).faulted && Outstanding(Next(s, a), i)
    ensures IsLive(Next(s, a), i) && Next(s, a).slots[i].r.pending
  {
    JobsStep(s, a, i);
    RemovalStep(s, a, i);
    PendingChange(s, a, i);
  }

  lemma {:induction false} RemovingUnguarded(s: Man, a: Action, i: nat)
    requires AllOk(s) && Guarded(s, i) && Enabled(s, a) && !Next(s, a).faulted
    ensures Next(s, a).main == DeleteRemoving(i) ==> IsLive(Next(s, a), i) && !Next(s, a).slots[i].r.pending
  {
    var t := Next(s, a);
    if t.main == DeleteRemoving(i) {
      if a.MainStep? {
        assert s.main == Deleting(i) && t.slots == s.slots;
      } else {
        assert s.main == t.main;
        RemovalStep(s, a, i);
        PendingChange(s, a, i);
      }
    }
  }

  lemma {:induction false} RefusedHasNoJob(s: Man, a: Action, i: nat)
    requires AllOk(s) && Guarded(s, i) && Enabled(s, a) && !Next(s, a).faulted
    ensures Next(s, a).main.DoneRemoving? && Next(s, a).main.i == i ==> !Outstanding(Next(s, a), i)
  {
    JobsStep(s, a, i);
    if Next(s, a).main.DoneRemoving? && a.MainStep? {
      assert s.main.Delivering? && s.hasDone;
    }
  }

  lemma {:induction false} EnqueueingGuarded(s: Man, a: Action, i: nat)
    requires AllOk(s) && Guarded(s, i) && Enabled(s, a) && !Next(s, a).faulted && !Overlaps(s, a, i)
    requires Next(s, a).main.Enqueueing? && Next(s, a).main.res == i
    ensures IsLive(Next(s, a), i) && Next(s, a).slots[i].r.pending && !Outstanding(Next(s, a), i)
  {
    JobsStep(s, a, i);
    if a.MainStep? {
      assert s.main.Reloading? && s.main.res == i;
    } else {
      assert s.main == Next(s, a).main;
      RemovalStep(s, a, i);
      PendingChange(s, a, i);
    }
  }

  /** The owning thread begins to reload a resource because it is new, modified, or its timeout has run out. */
  lemma {:induction false} ReloadBegins(s: Man, a: Action, i: nat)
    requires Enabled(s, a) && !Next(s, a).faulted && Reloads(Next(s, a).main, i) && !Reloads(s.main, i)
    ensures || (a.Add? && i == |s.slots|)
            || (i < |s.slots| && !NoEntry(s, i))
            || (IsLive(s, i) && s.slots[i].r.reloadTimeout != 0)
  {
    if a.MainStep? {
      MainReloads(s, a.answer, i);
    }
  }

  lemma {:induction false} MainReloads(s: Man, x: Answer, i: nat)
    requires Enabled(s, MainStep(x)) && !MainNext(s, x).faulted
    requires Reloads(MainNext(s, x).main, i) && !Reloads(s.main, i)
    ensures IsLive(s, i) && s.slots[i].r.reloadTimeout != 0
  {
    assert s.main.Delivering? && s.main.i == i;
  }

  /** A resource that is still fresh: it was there before the step, and fresh as well, or was just added. */
  lemma {:induction false} FreshBefore(s: Man, a: Action, i: nat)
    requires AllOk(s) && Guarded(s, i) && Enabled(s, a) && !Next(s, a).faulted && s.hasDone
    requires IsLive(Next(s, a), i) && Next(s, a).slots[i].r.numLoads == 0
    ensures (a.Add? && i == |s.slots|) || (IsLive(s, i) && Fresh(s, i))
  {
    if i < |s.slots| {
      StepEffect(s, a, Next(s, a), i);
    }
  }

  lemma FreshReloads(s: Man, a: Action, i: nat)
    requires AllOk(s) && Guarded(s, i) && Enabled(s, a) && !Next(s, a).faulted && s.hasDone
    requires IsLive(s, i) && IsLive(Next(s, a), i) && Fresh(s, i)
    ensures Reloads(Next(s, a).main, i) ==> Reloads(s.main, i) && !Outstanding(Next(s, a), i)
    ensures Next(s, a).slots[i].r.donePending ==> !Outstanding(Next(s, a), i) && !Reloads(Next(s, a).main, i)
  {
    JobsStep(s, a, i);
    if Reloads(Next(s, a).main, i) && !Reloads(s.main, i) {
      ReloadBegins(s, a, i);
    }
    assert Enqueues(s, a, i) ==> !Reloads(Next(s, a).main, i);
    DonePendingFrom(s, a, i);
  }

  /** A resource waits for a done call because it did before, or because its load ends. */
  lemma {:induction false} DonePendingFrom(s: Man, a: Action, i: nat)
    requires Enabled(s, a) && !Next(s, a).faulted && IsLive(s, i) && IsLive(Next(s, a), i)
    ensures Next(s, a).slots[i].r.donePending ==> s.slots[i].r.donePending || Finishes(s, a, i)
  {
    if !a.TaskStep? {
      StepEffect(s, a, Next(s, a), i);
    }
  }

  lemma FreshStep(s: Man, a: Action, i: nat)
    requires AllOk(s) && Guarded(s, i) && Enabled(s, a) && !Next(s, a).faulted && s.hasDone
    requires IsLive(Next(s, a), i) && Next(s, a).slots[i].r.numLoads == 0
    ensures Fresh(Next(s, a), i)
  {
    FreshBefore(s, a, i);
    if i < |s.slots| {
      FreshTable(s, a, i);
      FreshReloads(s, a, i);
      StepEffect(s, a, Next(s, a), i);
    }
  }

  lemma GuardedStep(s: Man, a: Action, i: nat)
    requires AllOk(s) && Guarded(s, i) && Enabled(s, a) && !Next(s, a).faulted && !Overlaps(s, a, i)
    ensures Guarded(Next(s, a), i)
  {
    var t := Next(s, a);
    JobsStep(s, a, i);
    if Outstanding(t, i) { OutstandingStays(s, a, i); }
    if t.main.Enqueueing? && t.main.res == i { EnqueueingGuarded(s, a, i); }
    RemovingUnguarded(s, a, i);
    RefusedHasNoJob(s, a, i);
    AllOkStep(s, a);
    if s.hasDone && IsLive(t, i) && t.slots[i].r.numLoads == 0 { FreshStep(s, a, i); }
  }

  lemma {:induction false} GuardedRun(s: Man, run: seq<Action>, i: nat)
    requires AllOk(s) && Guarded(s, i) && Possible(s, run) && !After(s, run).faulted && !SomeOverlap(s, run, i)
    ensures Guarded(After(s, run), i)
    decreases |run|
  {
    if run != [] {
      AllOkStep(s, run[0]);
      GuardedStep(s, run[0], i);
      GuardedRun(Next(s, run[0]), run[1..], i);
    }
  }

  /**
   Watched or not: in a run in which no load of a resource begins while another one is queued or
   running, the resource is live and pending as long as its job is outstanding, and no step frees it.
   */
  lemma SafeWithoutOverlap(hasDone: bool, watching: bool, run: seq<Action>, i: nat, a: Action)
    requires Possible(Initial(hasDone, watching), run) && !SomeOverlap(Initial(hasDone, watching), run, i)
    requires var s := After(Initial(hasDone, watching), run); Enabled(s, a) && Outstanding(s, i)
    ensures var s := After(Initial(hasDone, watching), run);
            && IsLive(s, i) && s.slots[i].r.pending
            && (!Next(s, a).faulted ==> IsLive(Next(s, a), i))
            && (a.TaskStep? && s.tasks[a.task].res == i ==> !Next(s, a).faulted)
  {
    var s := After(Initial(hasDone, watching), run);
    GuardedRun(Initial(hasDone, watching), run, i);
    if !Next(s, a).faulted {
      RemovalStep(s, a, i);
    }
  }
}
