/** Every poll comes to an end: how many steps the owning thread has left. */
module ResmanProgress {
  import opened ResmanProtocol

  /** A step of the owning thread inside a call. */
  predicate OwnStep(a: Action) {
    a.MainStep? || a.ReloadModified?
  }

  /** Steps of the second loop of `resman_poll` from slot `i` on, of `n` slots. */
  function DeliverLeft(n: nat, i: nat): nat {
    if i >= n then 1 else 4 * (n - i) + 1
  }

  /** Steps from the reloads of `marked` modified resources on. */
  function ModifiedLeft(n: nat, marked: nat): nat {
    3 * marked + 1 + DeliverLeft(n, 0)
  }

  /** Steps of the first loop from slot `i` on. */
  function DeleteLeft(n: nat, i: nat): nat {
    (if i >= n then 0 else 2 * (n - i)) + 2 + ModifiedLeft(n, 0)
  }

  function BackLeft(n: nat, back: Back): nat {
    match back
    case ToIdle => 0
    case ToModified(rest) => ModifiedLeft(n, |rest|)
    case ToDelivering(i, _) => DeliverLeft(n, i)
  }

  /** An upper bound on the steps before the owning thread is idle. */
  function StepsLeft(s: Man): nat {
    var n := |s.slots|;
    match s.main
    case Idle => 0
    case Reloading(_, back) => 2 + BackLeft(n, back)
    case Enqueueing(_, back) => 1 + BackLeft(n, back)
    case Deleting(i) => DeleteLeft(n, i)
    case DeleteRemoving(i) => 1 + DeleteLeft(n, i + 1)
    case Watching(_, modset) => 1 + ModifiedLeft(n, |modset|)
    case Modified(rest) => ModifiedLeft(n, |rest|)
    case Delivering(i, _) => DeliverLeft(n, i)
    case DoneRemoving(i, _) => 1 + DeliverLeft(n, i + 1)
  }

  lemma DeliverProgress(s: Man, x: Answer)
    requires Enabled(s, MainStep(x)) && s.main.Delivering?
    ensures var t := DeliverNext(s, s.main.i, s.main.start, x);
            |t.slots| == |s.slots| && !t.faulted && StepsLeft(t) < StepsLeft(s)
  {
  }

  lemma {:induction false} DeletingProgress(s: Man, x: Answer)
    requires Enabled(s, MainStep(x)) && s.main.Deleting?
    ensures var t := MainNext(s, x); |t.slots| == |s.slots| && !t.faulted && StepsLeft(t) < StepsLeft(s)
  {
    var none: set<int> := {};
    assert |none| == 0;
  }

  lemma {:induction false} RemovingProgress(s: Man, x: Answer)
    requires Enabled(s, MainStep(x)) && !MainNext(s, x).faulted && (s.main.DeleteRemoving? || s.main.DoneRemoving?)
    ensures |MainNext(s, x).slots| == |s.slots| && StepsLeft(MainNext(s, x)) < StepsLeft(s)
  {
    assert |RemoveResource(s, s.main.i).slots| == |s.slots|;
  }

  lemma {:induction false} OtherProgress(s: Man, x: Answer)
    requires Enabled(s, MainStep(x)) && !MainNext(s, x).faulted
    requires s.main.Reloading? || s.main.Enqueueing? || s.main.Watching? || s.main.Modified?
    ensures |MainNext(s, x).slots| == |s.slots| && StepsLeft(MainNext(s, x)) < StepsLeft(s)
  {
    var t := MainNext(s, x);
    assert |t.slots| == |s.slots|;
    assert s.main.Reloading? ==> t.main == Enqueueing(s.main.res, s.main.back);
  }

  /** Every step inside a call brings the owning thread nearer to its end. */
  lemma OwnProgress(s: Man, a: Action)
    requires Enabled(s, a) && OwnStep(a) && !Next(s, a).faulted
    ensures |Next(s, a).slots| == |s.slots| && StepsLeft(Next(s, a)) < StepsLeft(s)
  {
    if a.ReloadModified? {
      assert |s.main.rest - {a.wd}| == |s.main.rest| - 1;
    } else if s.main.Delivering? {
      DeliverProgress(s, a.answer);
    } else if s.main.Deleting? {
      DeletingProgress(s, a.answer);
    } else if s.main.DeleteRemoving? || s.main.DoneRemoving? {
      RemovingProgress(s, a.answer);
    } else {
      OtherProgress(s, a.answer);
    }
  }

  /** The step puts a descriptor into the modified set. */
  predicate Marks(a: Action) {
    a.CloseWriteEvent? || a.IgnoredEvent?
  }

  lemma {:induction false} MarkCost(s: Man, a: Action)
    requires Enabled(s, a) && Marks(a) && !Next(s, a).faulted
    ensures StepsLeft(Next(s, a)) <= StepsLeft(s) + 3
  {
    var t, fd := Next(s, a), if a.IgnoredEvent? then a.fd else a.wd;
    assert |t.slots| == |s.slots|;
    if t.main != s.main {
      assert t.main == s.main.(modset := s.main.modset + {fd});
      assert |s.main.modset + {fd}| <= |s.main.modset| + 1;
    }
  }

  /** Steps of other threads leave the bound alone; a file event costs at most one more reload. */
  lemma {:induction false} OtherSteps(s: Man, a: Action)
    requires Enabled(s, a) && !OwnStep(a) && !a.Add? && !a.BeginPoll? && !Next(s, a).faulted
    ensures StepsLeft(Next(s, a)) <= StepsLeft(s) + if Marks(a) then 3 else 0
  {
    var t := Next(s, a);
    if Marks(a) {
      MarkCost(s, a);
    } else {
      assert t.main == s.main && |t.slots| == |s.slots|;
    }
  }

  function OwnSteps(run: seq<Action>): nat {
    if run == [] then 0 else (if OwnStep(run[0]) then 1 else 0) + OwnSteps(run[1..])
  }

  function FileEvents(run: seq<Action>): nat {
    if run == [] then 0 else (if Marks(run[0]) then 1 else 0) + FileEvents(run[1..])
  }

  /**
   In a run that begins no other call the owning thread makes at most as many steps as the bound
   says, and three for each file event: every poll ends, whatever the other threads do.
   */
  lemma {:induction false} CallEnds(s: Man, run: seq<Action>)
    requires Possible(s, run) && !After(s, run).faulted
    requires forall k :: 0 <= k < |run| ==> !run[k].Add? && !run[k].BeginPoll?
    ensures OwnSteps(run) + StepsLeft(After(s, run)) <= StepsLeft(s) + 3 * FileEvents(run)
    decreases |run|
  {
    if run != [] {
      assert !Next(s, run[0]).faulted;
      if OwnStep(run[0]) {
        OwnProgress(s, run[0]);
      } else {
        OtherSteps(s, run[0]);
      }
      CallEnds(Next(s, run[0]), run[1..]);
    }
  }

  /** Steps of the owning thread only append to the tasks. */
  lemma {:induction false} OwnKeepsTasks(s: Man, a: Action)
    requires Enabled(s, a) && OwnStep(a)
    ensures s.tasks <= Next(s, a).tasks && |Next(s, a).slots| == |s.slots|
  {
    if a.MainStep? {
      if s.main.Delivering? { DeliverKeepsTasks(s, a.answer); } else { MainKeepsTasks(s, a.answer); }
    }
  }

  lemma DeliverKeepsTasks(s: Man, x: Answer)
    requires Enabled(s, MainStep(x)) && s.main.Delivering?
    ensures var t := DeliverNext(s, s.main.i, s.main.start, x); t.tasks == s.tasks && |t.slots| == |s.slots|
  {
  }

  lemma MainKeepsTasks(s: Man, x: Answer)
    requires Enabled(s, MainStep(x)) && !s.main.Delivering?
    ensures s.tasks <= MainNext(s, x).tasks && |MainNext(s, x).slots| == |s.slots|
  {
  }

  lemma SomeOwnStep(s: Man) returns (a: Action)
    requires !s.main.Idle? && !s.faulted
    ensures Enabled(s, a) && OwnStep(a)
  {
    a := MainStep(Answer(0, 0, 0, false));
    if !Enabled(s, a) {
      var wd := Member(s.main.rest);
      a := ReloadModified(wd);
    }
  }

  lemma Member(s: set<int>) returns (x: int)
    requires s != {}
    ensures x in s
  {
    if forall y :: y !in s {
      assert false;
    }
    x :| x in s;
  }

  /** By its own steps alone the owning thread can always come to the end of its call, unless it faults. */
  lemma {:induction false} ComesToEnd(s: Man) returns (run: seq<Action>)
    ensures Possible(s, run) && (After(s, run).main.Idle? || After(s, run).faulted)
    ensures s.tasks <= After(s, run).tasks && |After(s, run).slots| == |s.slots|
    ensures forall k :: 0 <= k < |run| ==> OwnStep(run[k])
    decreases StepsLeft(s)
  {
    run := [];
    if !s.main.Idle? && !s.faulted {
      var a := SomeOwnStep(s);
      OwnKeepsTasks(s, a);
      var t := Next(s, a);
      var rest := [];
      if !t.faulted {
        OwnProgress(s, a);
        rest := ComesToEnd(t);
      }
      run := [a] + rest;
      assert run[1..] == rest;
    }
  }
}
