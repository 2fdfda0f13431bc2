/**
 What overlapping loads of one resource lead to: the guard of removal comes to hold while a job of
 the resource is outstanding, and a poll then frees the resource under the job.
 */
module ResmanHazard {
  import opened ResourceState
  import opened ResmanProtocol
  import opened ResmanInvariants
  import opened ResmanTheorems
  import opened ResmanOverlap

  const ANSWER := Answer(0, 0, 0, false)

  ghost predicate Reaches(s: Man, run: seq<Action>, t: Man) {
    Possible(s, run) && After(s, run) == t
  }

  lemma OneStep(s: Man, a: Action)
    requires Enabled(s, a)
    ensures Reaches(s, [a], Next(s, a))
  {
    assert [a][1..] == [];
  }

  lemma Chain(s: Man, first: seq<Action>, t: Man, run: seq<Action>, u: Man)
    requires Reaches(s, first, t) && Reaches(t, run, u)
    ensures Reaches(s, first + run, u)
  {
    RunConcat(s, first, run);
  }

  /** Poll would remove the resource although a job of it is queued or running. */
  ghost predicate GuardBroken(s: Man, i: nat) {
    !s.faulted && IsLive(s, i) && Outstanding(s, i) && DeleteDue(s.slots[i].r)
  }

  /** Task `k` is a queued or running job of the resource in slot `i`. */
  predicate Busy(s: Man, k: nat, i: nat) {
    k < |s.tasks| && s.tasks[k].res == i && !s.tasks[k].phase.Over?
  }

  /** A step of a job, of the owning thread, or the request to remove the resource in slot `i`. */
  predicate Plain(a: Action, i: nat) {
    a.TaskStep? || a.MainStep? || a == Remove(i)
  }

  /* ---- an overlap breaks the guard ---- */

  /** The job runs to its end and clears the pending mark, wherever the owning thread is. */
  lemma {:induction false} FinishJob(s: Man, k: nat, i: nat) returns (run: seq<Action>, t: Man)
    requires !s.faulted && IsLive(s, i) && Busy(s, k, i)
    ensures Reaches(s, run, t) && |run| <= 3 && forall n :: 0 <= n < |run| ==> Plain(run[n], i)
    ensures s.tasks[k].phase.Loading? ==> |run| <= 2
    ensures s.tasks[k].phase.Loaded? ==> |run| <= 1
    ensures !t.faulted && t.tasks == s.tasks[k := Task(i, Over)] && IsLive(t, i) && !t.slots[i].r.pending
    decreases match s.tasks[k].phase case Queued => 2 case Loading => 1 case _ => 0
  {
    var a := TaskStep(k, ANSWER);
    OneStep(s, a);
    run, t := [a], Next(s, a);
    if !s.tasks[k].phase.Loaded? {
      var rest, u := FinishJob(t, k, i);
      Chain(s, run, t, rest, u);
      run, t := run + rest, u;
    }
  }

  /**
   From every load that begins while another one of the same resource is outstanding, at most five
   steps break the guard: the new job is enqueued, the old one ends, and removal is asked for.
   */
  lemma OverlapBreaksGuard(s: Man, a: Action, i: nat) returns (run: seq<Action>, t: Man)
    requires Enabled(s, a) && Overlaps(s, a, i) && !Next(s, a).faulted
    ensures Reaches(s, [a] + run, t) && GuardBroken(t, i)
    ensures |run| <= 5 && forall n :: 0 <= n < |run| ==> Plain(run[n], i)
  {
    var j :| 0 <= j < |s.tasks| && s.tasks[j].res == i && !s.tasks[j].phase.Over?;
    OneStep(s, a);
    t := Next(s, a);
    var x := MainStep(ANSWER);
    OneStep(t, x);
    var u := Next(t, x);
    Chain(s, [a], t, [x], u);
    assert Busy(u, j, i) && Busy(u, |s.tasks|, i);
    var rest, v := FinishJob(u, j, i);
    Chain(s, [a] + [x], u, rest, v);
    OneStep(v, Remove(i));
    t := Next(v, Remove(i));
    Chain(s, [a] + [x] + rest, v, [Remove(i)], t);
    run := [x] + rest + [Remove(i)];
    assert [a] + [x] + rest + [Remove(i)] == [a] + run;
    assert Busy(t, |s.tasks|, i);
  }

  /* ---- a broken guard frees the resource under its job ---- */

  /** The owning thread is about to remove a resource and would meet a null pointer in the watch table. */
  ghost predicate MeetsNull(s: Man) {
    && s.main.DeleteRemoving? && IsLive(s, s.main.i)
    && StopWatch(s.watches, s.slots[s.main.i].r.nfd).None?
  }

  /** The first loop of a poll comes to a resource that is due for deletion, and removes it. */
  lemma {:induction false} DeleteLoop(s: Man, j: nat, i: nat) returns (run: seq<Action>, t: Man)
    requires !s.faulted && s.main == Deleting(j) && j <= i && IsLive(s, i) && DeleteDue(s.slots[i].r)
    ensures Reaches(s, run, t) && !t.faulted && t.tasks == s.tasks
    ensures !IsLive(t, i) || MeetsNull(t)
    ensures forall n :: 0 <= n < |run| ==> run[n].MainStep?
    decreases i - j
  {
    var x := MainStep(ANSWER);
    OneStep(s, x);
    run, t := [x], Next(s, x);
    if t.main.DeleteRemoving? && !MeetsNull(t) {
      OneStep(t, x);
      Chain(s, run, t, [x], Next(t, x));
      run, t := run + [x], Next(t, x);
    }
    if !MeetsNull(t) && j < i {
      var rest, u := DeleteLoop(t, j + 1, i);
      Chain(s, run, t, rest, u);
      run, t := run + rest, u;
    }
  }

  /** A poll that begins with a broken guard frees the resource under its job, unless a removal meets a null pointer. */
  lemma PollFreesUnderJob(s: Man, i: nat) returns (run: seq<Action>, t: Man)
    requires s.main.Idle? && GuardBroken(s, i)
    ensures Reaches(s, [BeginPoll] + run, t) && forall n :: 0 <= n < |run| ==> run[n].MainStep?
    ensures !t.faulted && Outstanding(t, i) && (!IsLive(t, i) || MeetsNull(t))
  {
    OneStep(s, BeginPoll);
    var u := Next(s, BeginPoll);
    run, t := DeleteLoop(u, 0, i);
    Chain(s, [BeginPoll], u, run, t);
  }

  /** A job whose resource is gone faults at its next step. */
  lemma FreedJobFaults(s: Man, k: nat, x: Answer)
    requires Enabled(s, TaskStep(k, x)) && !IsLive(s, s.tasks[k].res)
    ensures Next(s, TaskStep(k, x)).faulted
  {
  }

  /* ---- exactly ---- */

  /** The first overlap of a run comes after some part of it. */
  lemma {:induction false} OverlapAt(s: Man, run: seq<Action>, i: nat) returns (first: seq<Action>, a: Action)
    requires Possible(s, run) && !After(s, run).faulted && SomeOverlap(s, run, i)
    ensures Possible(s, first) && Enabled(After(s, first), a) && Overlaps(After(s, first), a, i)
    ensures !Next(After(s, first), a).faulted
    decreases |run|
  {
    if Overlaps(s, run[0], i) {
      first, a := [], run[0];
    } else {
      var rest;
      rest, a := OverlapAt(Next(s, run[0]), run[1..], i);
      first := [run[0]] + rest;
      assert first[1..] == rest;
    }
  }

  /** Some run, of a build with or without watching and with or without a done callback, breaks the guard. */
  ghost predicate CanBreak(hasDone: bool, watching: bool, i: nat) {
    exists run :: Possible(Initial(hasDone, watching), run) && GuardBroken(After(Initial(hasDone, watching), run), i)
  }

  ghost predicate CanOverlap(hasDone: bool, watching: bool, i: nat) {
    exists run :: Possible(Initial(hasDone, watching), run) && !After(Initial(hasDone, watching), run).faulted
                  && SomeOverlap(Initial(hasDone, watching), run, i)
  }

  lemma BrokenHasOverlap(hasDone: bool, watching: bool, run: seq<Action>, i: nat)
    requires Possible(Initial(hasDone, watching), run) && GuardBroken(After(Initial(hasDone, watching), run), i)
    ensures SomeOverlap(Initial(hasDone, watching), run, i)
  {
    if !SomeOverlap(Initial(hasDone, watching), run, i) {
      GuardedRun(Initial(hasDone, watching), run, i);
      assert false;
    }
  }

  /** A run that breaks the guard has an overlap, and every overlap is part of a run that breaks the guard. */
  lemma BreaksExactly(hasDone: bool, watching: bool, i: nat)
    ensures CanBreak(hasDone, watching, i) <==> CanOverlap(hasDone, watching, i)
  {
    var s := Initial(hasDone, watching);
    if CanBreak(hasDone, watching, i) {
      var run :| Possible(s, run) && GuardBroken(After(s, run), i);
      BrokenHasOverlap(hasDone, watching, run, i);
    }
    if CanOverlap(hasDone, watching, i) {
      var run :| Possible(s, run) && !After(s, run).faulted && SomeOverlap(s, run, i);
      var first, a := OverlapAt(s, run, i);
      var rest, t := OverlapBreaksGuard(After(s, first), a, i);
      Chain(s, first, After(s, first), [a] + rest, t);
    }
  }
}
