/**
 A whole undisturbed `resman_poll` is one of the runs of the step system: what `PollSpec` computes is
 what the owning thread's steps do, one after the other, with file watching compiled out.
 */
module PollRefinement {
  import opened Options
  import opened ResourceState
  import opened ResmanProtocol
  import ResmanTheorems
  import PollSpec

  function SlotView(slot: Slot): Option<Resource> {
    if slot.Live? then Some(slot.r) else None
  }

  function View(slots: seq<Slot>): (r: PollSpec.Slots)
    ensures |r| == |slots|
  {
    seq(|slots|, i requires 0 <= i < |slots| => SlotView(slots[i]))
  }

  function NewTasks(jobs: seq<nat>): (r: seq<Task>)
    ensures |r| == |jobs|
  {
    seq(|jobs|, i requires 0 <= i < |jobs| => Task(jobs[i], Queued))
  }

  /** No descriptor is held, so removing a resource leaves the watch table alone. */
  ghost predicate NoWatches(s: Man) {
    !s.watching && !s.faulted && forall i :: 0 <= i < |s.slots| ==> s.slots[i].r.nfd == 0
  }

  /** `t` follows from `s` by the steps in `run`, all of the owning thread. */
  ghost predicate Reaches(s: Man, run: seq<Action>, t: Man) {
    Possible(s, run) && After(s, run) == t && forall k :: 0 <= k < |run| ==> run[k].MainStep? || run[k].BeginPoll?
  }

  lemma OneStep(s: Man, a: Action)
    requires Enabled(s, a) && (a.MainStep? || a.BeginPoll?)
    ensures Reaches(s, [a], Next(s, a))
  {
  }

  lemma Chain(s: Man, first: seq<Action>, t: Man, run: seq<Action>, u: Man)
    requires Reaches(s, first, t) && Reaches(t, run, u)
    ensures Reaches(s, first + run, u)
  {
    ResmanTheorems.RunConcat(s, first, run);
  }

  /** The part of the state that poll works on. */
  ghost predicate Shows(s: Man, o: PollSpec.Outcome, tasks: seq<Task>) {
    NoWatches(s) && View(s.slots) == o.slots && s.tasks == tasks + NewTasks(o.jobs)
  }

  function Step(ret: int, late: bool): Action {
    MainStep(Answer(0, ret, 0, late))
  }

  /** One turn of the second loop. */
  lemma Turn(s: Man, i: nat, start: nat, reply: PollSpec.Reply, o: PollSpec.Outcome, tasks: seq<Task>)
    returns (run: seq<Action>, t: Man)
    requires Shows(s, o, tasks) && s.main == Delivering(i, start) && i < |s.slots|
    ensures Reaches(s, run, t) && Shows(t, PollSpec.DeliverOne(o, i, start, reply.ret), tasks) && t.hasDone == s.hasDone
    ensures t.main == if PollSpec.Stops(o.slots[i], reply) then Idle else Delivering(i + 1, start)
  {
    var x := Step(reply.ret, reply.late);
    var p := PollSpec.DeliverOne(o, i, start, reply.ret);
    OneStep(s, x);
    run, t := [x], Next(s, x);
    assert o.slots[i] == SlotView(s.slots[i]);
    if s.slots[i].Live? && s.slots[i].r.donePending && Refused(s.slots[i].r, reply.ret) {
      OneStep(t, x);
      Chain(s, run, t, [x], Next(t, x));
      run, t := run + [x], Next(t, x);
      assert View(t.slots) == p.slots;
    } else if s.slots[i].Live? && ReloadDue(s.slots[i].r, start) {
      OneStep(t, x);
      Chain(s, run, t, [x], Next(t, x));
      run, t := run + [x], Next(t, x);
      OneStep(t, x);
      Chain(s, run, t, [x], Next(t, x));
      run, t := run + [x], Next(t, x);
      assert View(t.slots) == p.slots;
      assert NewTasks(p.jobs) == NewTasks(o.jobs) + [Task(i, Queued)];
    } else {
      assert View(t.slots) == p.slots;
    }
  }

  /** The second loop from some turn on. */
  lemma {:induction false} Turns(s: Man, i: nat, start: nat, replies: seq<PollSpec.Reply>, o: PollSpec.Outcome,
                                 tasks: seq<Task>)
    returns (run: seq<Action>, t: Man)
    requires Shows(s, o, tasks) && s.main == Delivering(i, start) && i <= |s.slots| == |replies|
    ensures Reaches(s, run, t) && Shows(t, PollSpec.DeliverFrom(o, i, start, replies), tasks) && t.main.Idle?
    decreases |s.slots| - i
  {
    if i == |s.slots| {
      var x := Step(0, false);
      OneStep(s, x);
      run, t := [x], Next(s, x);
    } else {
      run, t := Turn(s, i, start, replies[i], o, tasks);
      if !PollSpec.Stops(o.slots[i], replies[i]) {
        var p := PollSpec.DeliverOne(o, i, start, replies[i].ret);
        assert |p.slots| == |t.slots|;
        var rest, u := Turns(t, i + 1, start, replies, p, tasks);
        Chain(s, run, t, rest, u);
        run, t := run + rest, u;
      }
    }
  }

  /** The first loop from some turn on. */
  lemma {:induction false} Deletions(s: Man, i: nat, slots: PollSpec.Slots, start: nat)
    returns (run: seq<Action>, t: Man)
    requires NoWatches(s) && s.main == Deleting(i) && i <= |slots| == |s.slots|
    requires View(s.slots) == PollSpec.Deleted(slots, i)
    ensures Reaches(s, run, t) && NoWatches(t) && View(t.slots) == PollSpec.DeletePass(slots)
    ensures t.tasks == s.tasks && t.hasDone == s.hasDone
    ensures t.main == if s.hasDone then Delivering(0, start) else Idle
    decreases |slots| - i
  {
    var x := MainStep(Answer(start, 0, 0, false));
    OneStep(s, x);
    run, t := [x], Next(s, x);
    if i < |slots| {
      assert slots[i] == View(s.slots)[i] == SlotView(s.slots[i]);
      if t.main.DeleteRemoving? {
        OneStep(t, x);
        Chain(s, run, t, [x], Next(t, x));
        run, t := run + [x], Next(t, x);
      }
      assert View(t.slots)[i] == PollSpec.DeletePass(slots)[i];
      forall j | 0 <= j < |slots| ensures View(t.slots)[j] == PollSpec.Deleted(slots, i + 1)[j] {
        if j != i {
          assert View(t.slots)[j] == View(s.slots)[j] == PollSpec.Deleted(slots, i)[j];
        }
      }
      assert View(t.slots) == PollSpec.Deleted(slots, i + 1);
      var rest, u := Deletions(t, i + 1, slots, start);
      Chain(s, run, t, rest, u);
      run, t := run + rest, u;
    }
  }

  /** From any idle state without watches, one poll is a run to the state that `PollSpec` computes. */
  lemma PollIsARun(s: Man, start: nat, replies: seq<PollSpec.Reply>) returns (run: seq<Action>, t: Man)
    requires NoWatches(s) && s.main.Idle? && |replies| == |s.slots|
    ensures Reaches(s, run, t) && t.main.Idle?
    ensures var p := PollSpec.Poll(View(s.slots), s.hasDone, start, replies, []);
            View(t.slots) == p.slots && t.tasks == s.tasks + NewTasks(p.jobs)
  {
    OneStep(s, BeginPoll);
    run, t := [BeginPoll], Next(s, BeginPoll);
    PollSpec.DeletedEnds(View(s.slots));
    var rest, u := Deletions(t, 0, View(s.slots), start);
    Chain(s, run, t, rest, u);
    run, t := run + rest, u;
    if s.hasDone {
      var o := PollSpec.Outcome(View(t.slots), [], []);
      assert NewTasks([]) == [] && t.tasks + [] == t.tasks;
      rest, u := Turns(t, 0, start, replies, o, t.tasks);
      Chain(s, run, t, rest, u);
      run, t := run + rest, u;
    }
  }
}
