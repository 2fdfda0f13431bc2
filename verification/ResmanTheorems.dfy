/** What the resource manager promises, for every interleaving. */
module ResmanTheorems {
  import opened ResourceState
  import opened ResmanProtocol
  import opened ResmanInvariants
  import ResmanQuiet

  ghost predicate AllOk(s: Man) {
    SlotsOk(s) && WatchesOk(s) && PendingOk(s)
  }

  lemma AllOkStep(s: Man, a: Action)
    requires AllOk(s) && Enabled(s, a)
    ensures Next(s, a).faulted || AllOk(Next(s, a))
    ensures Next(s, a).hasDone == s.hasDone && Next(s, a).watching == s.watching
  {
    if !Next(s, a).faulted {
      SlotsStep(s, a);
      WatchesStep(s, a);
      PendingStep(s, a);
    }
  }

  lemma {:induction false} RunKeeps(s: Man, run: seq<Action>)
    requires AllOk(s) && Possible(s, run)
    ensures After(s, run).faulted || AllOk(After(s, run))
    decreases |run|
  {
    if run != [] {
      AllOkStep(s, run[0]);
      if Next(s, run[0]).faulted {
        assert run[1..] == [];
      } else {
        RunKeeps(Next(s, run[0]), run[1..]);
      }
    }
  }

  lemma ReachableHolds(s: Man)
    requires Reachable(s) && !s.faulted
    ensures AllOk(s)
  {
    var hasDone: bool, watching: bool, run: seq<Action> :|
      Possible(Initial(hasDone, watching), run) && After(Initial(hasDone, watching), run) == s;
    RunKeeps(Initial(hasDone, watching), run);
  }

  /** A resource marked pending has a load job queued, running or about to be enqueued. */
  lemma PendingHasJob(s: Man, i: nat)
    requires Reachable(s) && !s.faulted && IsLive(s, i) && s.slots[i].r.pending
    ensures Outstanding(s, i) || (s.main.Enqueueing? && s.main.res == i)
  {
    ReachableHolds(s);
  }

  /* ---- file watching compiled out ---- */

  lemma {:induction false} QuietRun(s: Man, run: seq<Action>)
    requires ResmanQuiet.JobsOk(s) && Possible(s, run)
    ensures ResmanQuiet.JobsOk(After(s, run))
    decreases |run|
  {
    if run != [] {
      ResmanQuiet.QuietStep(s, run[0]);
      QuietRun(Next(s, run[0]), run[1..]);
    }
  }

  lemma {:induction false} ModeKept(s: Man, run: seq<Action>)
    requires Possible(s, run)
    ensures After(s, run).watching == s.watching && After(s, run).hasDone == s.hasDone
    decreases |run|
  {
    if run != [] {
      ModeKept(Next(s, run[0]), run[1..]);
    }
  }

  lemma UnwatchedHolds(s: Man)
    requires Reachable(s) && !s.watching
    ensures ResmanQuiet.JobsOk(s)
  {
    var hasDone: bool, watching: bool, run: seq<Action> :|
      Possible(Initial(hasDone, watching), run) && After(Initial(hasDone, watching), run) == s;
    ModeKept(Initial(hasDone, watching), run);
    QuietRun(Initial(hasDone, watching), run);
  }

  /**
   Without file watching, `pending` is set exactly while the resource's only job is outstanding, and
   no run ever touches a freed resource.
   */
  lemma UnwatchedPendingExact(s: Man, i: nat)
    requires Reachable(s) && !s.watching && IsLive(s, i)
    ensures !s.faulted
    ensures s.slots[i].r.pending <==> Outstanding(s, i) || s.main == Enqueueing(i, ToIdle)
    ensures forall j, k :: 0 <= j < k < |s.tasks| ==> s.tasks[j].res != s.tasks[k].res
  {
    UnwatchedHolds(s);
    assert ResmanQuiet.QuietSlot(s, i);
  }

  /** Without file watching, neither removal in poll frees a resource that a job refers to. */
  lemma UnwatchedRemovalSafe(s: Man, a: Action, k: nat)
    requires Reachable(s) && !s.watching && Enabled(s, a)
    requires k < |s.tasks| && !s.tasks[k].phase.Over?
    ensures IsLive(s, s.tasks[k].res) && IsLive(Next(s, a), s.tasks[k].res) && !Next(s, a).faulted
  {
    UnwatchedHolds(s);
    ResmanQuiet.QuietStep(s, a);
    var i := s.tasks[k].res;
    if a.MainStep? && (s.main.DeleteRemoving? || s.main.DoneRemoving?) {
      assert s.main.i != i;
    }
  }

  /* ---- done calls ---- */

  /**
   With a done callback, done_pending is set exactly when a load finished after the last done call,
   done calls never exceed finished loads, and num_loads of a live resource counts its done calls.
   */
  lemma DoneCallsExact(s: Man, i: nat)
    requires Reachable(s) && !s.faulted && s.hasDone && IsLive(s, i)
    ensures s.slots[i].r.donePending <==> s.slots[i].r.unseen > 0
    ensures s.slots[i].r.doneCalls + s.slots[i].r.unseen <= s.slots[i].r.finished
    ensures !(s.main.DoneRemoving? && s.main.i == i) ==> s.slots[i].r.numLoads == s.slots[i].r.doneCalls
  {
    ReachableHolds(s);
    assert SlotOk(s.hasDone, s.main, i, s.slots[i]);
  }

  /** A step of the owning thread delivers a done call for slot `i`. */
  ghost predicate DeliversDone(s: Man, a: Action, i: nat) {
    Enabled(s, a) && a.MainStep? && s.main.Delivering? && s.main.i == i && IsLive(s, i) && s.slots[i].r.donePending
  }

  /** Everything one step can do to the resource in a slot, apart from its watch. */
  ghost predicate Effect(s: Man, a: Action, i: nat, r: Resource, q: Resource) {
    || q == r
    || (a.MainStep? && s.main.Reloading? && s.main.res == i && q == SetPending(r))
    || (a == Remove(i) && q == AskRemove(r))
    || (a.TaskStep? && a.task < |s.tasks| && s.tasks[a.task].res == i
        && (q == SetResult(r, a.answer.ret) || q == FinishLoad(r, s.hasDone)))
    || (a.ModifyEvent? && a.wd in s.watches && s.watches[a.wd] == i && s.main.Watching? && q == Modify(r, s.main.msec))
    || (a.CloseWriteEvent? && a.wd in s.watches && s.watches[a.wd] == i && q == CloseWrite(r))
    || (s.main.Delivering? && s.main.i == i && ReloadDue(r, s.main.start) && a.MainStep? && q == DelayedReload(r))
    || (DeliversDone(s, a, i) && q == DeliverDone(r, a.answer.ret))
  }

  lemma StepEffect(s: Man, a: Action, t: Man, i: nat)
    requires Enabled(s, a) && t == Next(s, a) && i < |s.slots|
    ensures i < |t.slots|
    ensures Effect(s, a, i, s.slots[i].r, t.slots[i].r.(nfd := s.slots[i].r.nfd))
    ensures s.slots[i].Gone? ==> t.slots[i] == s.slots[i]
  {
    match a
    case MainStep(x) => MainEffect(s, x, t, i);
    case TaskStep(k, x) => TaskEffect(s, k, x, t, i);
    case ModifyEvent(_) => EventEffect(s, a, i);
    case CloseWriteEvent(_) => EventEffect(s, a, i);
    case _ =>
  }

  lemma EventEffect(s: Man, a: Action, i: nat)
    requires Enabled(s, a) && i < |s.slots| && (a.ModifyEvent? || a.CloseWriteEvent?)
    ensures i < |Next(s, a).slots|
    ensures Effect(s, a, i, s.slots[i].r, Next(s, a).slots[i].r)
    ensures s.slots[i].Gone? ==> Next(s, a).slots[i] == s.slots[i]
  {
  }

  lemma TaskEffect(s: Man, k: nat, x: Answer, t: Man, i: nat)
    requires Enabled(s, TaskStep(k, x)) && t == TaskNext(s, k, x) && i < |s.slots|
    ensures i < |t.slots|
    ensures Effect(s, TaskStep(k, x), i, s.slots[i].r, t.slots[i].r.(nfd := s.slots[i].r.nfd))
    ensures s.slots[i].Gone? ==> t.slots[i] == s.slots[i]
  {
    var j := s.tasks[k].res;
    if IsLive(s, j) && s.tasks[k].phase.Loaded? {
      var u := SetRes(s, j, FinishLoad(s.slots[j].r, s.hasDone)).(tasks := s.tasks[k := Task(j, Over)]);
      WatchEffect(u, j, x.fd, i);
      assert t == u || t == StartWatch(u, j, x.fd);
      assert i != j ==> u.slots[i] == s.slots[i];
    } else {
      assert i != j ==> t.slots[i] == s.slots[i];
    }
  }

  /** Starting a watch changes nothing but the descriptor of its resource. */
  lemma WatchEffect(s: Man, j: nat, fd: int, i: nat)
    requires IsLive(s, j) && i < |s.slots|
    ensures var t := StartWatch(s, j, fd);
            && i < |t.slots| && t.slots[i].r.(nfd := s.slots[i].r.nfd) == s.slots[i].r
            && (i != j ==> t.slots[i] == s.slots[i]) && t.slots[i].Live? == s.slots[i].Live?
  {
  }

  lemma MainEffect(s: Man, x: Answer, t: Man, i: nat)
    requires Enabled(s, MainStep(x)) && t == MainNext(s, x) && i < |s.slots|
    ensures i < |t.slots|
    ensures Effect(s, MainStep(x), i, s.slots[i].r, t.slots[i].r.(nfd := s.slots[i].r.nfd))
    ensures s.slots[i].Gone? ==> t.slots[i] == s.slots[i]
  {
    if s.main.Delivering? {
      DeliverEffect(s, s.main.i, s.main.start, x, t, i);
    } else if s.main.Reloading? || s.main.DeleteRemoving? || s.main.DoneRemoving? {
      var j := if s.main.Reloading? then s.main.res else s.main.i;
      assert i != j ==> t.slots[i] == s.slots[i];
    } else {
      assert t.slots == s.slots;
    }
  }

  lemma {:induction false} DeliverEffect(s: Man, j: nat, start: nat, x: Answer, t: Man, i: nat)
    requires Enabled(s, MainStep(x)) && s.main == Delivering(j, start) && t == DeliverNext(s, j, start, x)
    requires i < |s.slots|
    ensures i < |t.slots|
    ensures Effect(s, MainStep(x), i, s.slots[i].r, t.slots[i].r.(nfd := s.slots[i].r.nfd))
    ensures s.slots[i].Gone? ==> t.slots[i] == s.slots[i]
  {
    if j < |s.slots| && s.slots[j].Live? && s.slots[j].r.donePending {
      var u := SetRes(s, j, DeliverDone(s.slots[j].r, x.ret));
      WatchEffect(u, j, x.fd, i);
      assert i != j ==> u.slots[i] == s.slots[i];
      assert t.slots == u.slots || t.slots == StartWatch(u, j, x.fd).slots;
    } else {
      assert i != j ==> i < |t.slots| && t.slots[i] == s.slots[i];
    }
  }

  /** Only a removal step of the owning thread empties a slot, and its first loop chooses only what is due. */
  lemma RemovalStep(s: Man, a: Action, i: nat)
    requires Enabled(s, a) && !Next(s, a).faulted && IsLive(s, i)
    ensures !IsLive(Next(s, a), i) ==> a.MainStep? && (s.main.DeleteRemoving? || s.main.DoneRemoving?) && s.main.i == i
    ensures Next(s, a).main == DeleteRemoving(i) && s.main != DeleteRemoving(i) ==> DeleteDue(s.slots[i].r)
  {
    match a
    case MainStep(x) => if s.main.Delivering? { DeliverKeeps(s, x, i); } else { MainKeeps(s, x, i); }
    case TaskStep(k, x) => TaskKeeps(s, k, x, i);
    case _ =>
  }

  lemma DeliverKeeps(s: Man, x: Answer, i: nat)
    requires Enabled(s, MainStep(x)) && s.main.Delivering? && IsLive(s, i)
    ensures var t := DeliverNext(s, s.main.i, s.main.start, x); IsLive(t, i) && !t.main.DeleteRemoving?
  {
  }

  lemma MainKeeps(s: Man, x: Answer, i: nat)
    requires Enabled(s, MainStep(x)) && !s.main.Delivering? && !MainNext(s, x).faulted && IsLive(s, i)
    ensures var t := MainNext(s, x);
            && (!IsLive(t, i) ==> (s.main.DeleteRemoving? || s.main.DoneRemoving?) && s.main.i == i)
            && (t.main == DeleteRemoving(i) ==> DeleteDue(s.slots[i].r))
  {
  }

  lemma TaskKeeps(s: Man, k: nat, x: Answer, i: nat)
    requires Enabled(s, TaskStep(k, x)) && IsLive(s, i)
    ensures IsLive(TaskNext(s, k, x), i) && TaskNext(s, k, x).main == s.main
  {
  }

  /** A done call is made only for a load that finished since the last one. */
  lemma DoneCallNeedsLoad(s: Man, a: Action, t: Man, i: nat)
    requires Reachable(s) && Enabled(s, a) && t == Next(s, a) && s.hasDone && i < |s.slots|
    ensures i < |t.slots|
    ensures t.slots[i].r.doneCalls != s.slots[i].r.doneCalls ==>
              && t.slots[i].r.doneCalls == s.slots[i].r.doneCalls + 1
              && s.slots[i].r.unseen > 0 && t.slots[i].r.unseen == 0
  {
    ReachableHolds(s);
    assert SlotOk(s.hasDone, s.main, i, s.slots[i]);
    StepEffect(s, a, t, i);
  }

  /** With a done callback, a resource is removed on request or by the refusal of its first load. */
  lemma RemovalHasReason(s: Man, i: nat)
    requires Reachable(s) && !s.faulted && s.hasDone && i < |s.slots| && s.slots[i].Gone?
    ensures RemovalOk(s.slots[i].r)
  {
    ReachableHolds(s);
    assert SlotOk(s.hasDone, s.main, i, s.slots[i]);
  }

  lemma LoadsGrow(s: Man, a: Action, i: nat)
    requires Enabled(s, a) && i < |s.slots|
    ensures i < |Next(s, a).slots| && s.slots[i].r.numLoads <= Next(s, a).slots[i].r.numLoads
  {
    StepEffect(s, a, Next(s, a), i);
  }

  lemma {:induction false} LoadsGrowOverRun(s: Man, run: seq<Action>, i: nat)
    requires Possible(s, run) && i < |s.slots|
    ensures i < |After(s, run).slots| && s.slots[i].r.numLoads <= After(s, run).slots[i].r.numLoads
    decreases |run|
  {
    if run != [] {
      LoadsGrow(s, run[0], i);
      LoadsGrowOverRun(Next(s, run[0]), run[1..], i);
    }
  }

  /**
   With a done callback, a resource that survived its first done call is never removed later unless
   resman_remove was called on it, whatever later loads and done calls return.
   */
  lemma SurvivorsStay(s: Man, run: seq<Action>, i: nat)
    requires Reachable(s) && !s.faulted && s.hasDone && IsLive(s, i) && s.slots[i].r.numLoads > 0
    requires Possible(s, run) && !After(s, run).faulted
    ensures i < |After(s, run).slots|
    ensures After(s, run).slots[i].Gone? ==> After(s, run).slots[i].r.removeAsked
  {
    ReachableHolds(s);
    RunKeeps(s, run);
    ModeKept(s, run);
    LoadsGrowOverRun(s, run, i);
    var t := After(s, run);
    assert SlotOk(t.hasDone, t.main, i, t.slots[i]);
  }

  /**
   Without a done callback num_loads is never counted, so a failed load marks the resource for
   deletion whether or not earlier loads succeeded.
   */
  lemma FailureDeletesWithoutDone(s: Man, k: nat, x: Answer)
    requires Reachable(s) && !s.hasDone && Enabled(s, TaskStep(k, x)) && s.tasks[k].phase.Loaded?
    requires IsLive(s, s.tasks[k].res) && !s.slots[s.tasks[k].res].r.deletePending
    ensures IsLive(Next(s, TaskStep(k, x)), s.tasks[k].res)
    ensures Next(s, TaskStep(k, x)).slots[s.tasks[k].res].r.deletePending
            <==> s.slots[s.tasks[k].res].r.result == FAILED
  {
    ReachableHolds(s);
    var i := s.tasks[k].res;
    assert SlotOk(s.hasDone, s.main, i, s.slots[i]);
  }

  /* ---- delayed reloads ---- */

  /** The step issues a delayed reload of the resource in slot `i`. */
  ghost predicate IssuesDelayedReload(s: Man, a: Action, i: nat) {
    Enabled(s, a) && s.main.Delivering? && s.main.i == i && Next(s, a).main.Reloading?
  }

  /**
   A delayed reload is issued by a poll that started at least 128 ms after the last handled modify
   event, and only if there was such an event since the previous delayed reload.
   */
  lemma DelayedReloadWaits(s: Man, a: Action, i: nat)
    requires Reachable(s) && IssuesDelayedReload(s, a, i)
    ensures IsLive(s, i) && s.main.start >= s.slots[i].r.lastModify + RELOAD_DELAY
    ensures s.slots[i].r.edits >= 1
    ensures Next(s, a).slots[i].r.edits == 0 && Next(s, a).slots[i].r.reloadTimeout == 0
  {
    ReachableHolds(s);
    assert SlotOk(s.hasDone, s.main, i, s.slots[i]);
  }

  /** Without a done callback no poll gets to the delayed reloads, however long a timeout has run. */
  lemma NoDelayedReloadWithoutDone(s: Man, a: Action, i: nat)
    requires Reachable(s) && !s.hasDone
    ensures !IssuesDelayedReload(s, a, i)
  {
    if !s.faulted {
      ReachableHolds(s);
    }
  }

  /** Some step of the run is a handled modify event of the resource in slot `i`. */
  ghost predicate SomeModify(s: Man, run: seq<Action>, i: nat)
    requires Possible(s, run)
    decreases |run|
  {
    run != [] &&
    (|| (run[0].ModifyEvent? && run[0].wd in s.watches && s.watches[run[0].wd] == i)
     || SomeModify(Next(s, run[0]), run[1..], i))
  }

  lemma {:induction false} EditsNeedEvents(s: Man, run: seq<Action>, i: nat)
    requires Possible(s, run) && i < |s.slots| && !SomeModify(s, run, i)
    ensures i < |After(s, run).slots| && After(s, run).slots[i].r.edits <= s.slots[i].r.edits
    decreases |run|
  {
    if run != [] {
      StepEffect(s, run[0], Next(s, run[0]), i);
      EditsNeedEvents(Next(s, run[0]), run[1..], i);
    }
  }

  lemma {:induction false} RunConcat(s: Man, first: seq<Action>, run: seq<Action>)
    requires Possible(s, first) && Possible(After(s, first), run)
    ensures Possible(s, first + run) && After(s, first + run) == After(After(s, first), run)
    decreases |first|
  {
    if first == [] {
      assert first + run == run;
    } else {
      assert (first + run)[1..] == first[1..] + run;
      RunConcat(Next(s, first[0]), first[1..], run);
    }
  }

  lemma ReachableExtends(s: Man, run: seq<Action>)
    requires Reachable(s) && Possible(s, run)
    ensures Reachable(After(s, run))
  {
    var hasDone: bool, watching: bool, first: seq<Action> :|
      Possible(Initial(hasDone, watching), first) && After(Initial(hasDone, watching), first) == s;
    RunConcat(Initial(hasDone, watching), first, run);
  }

  lemma ReachableNext(s: Man, a: Action)
    requires Reachable(s) && Enabled(s, a)
    ensures Reachable(Next(s, a))
  {
    assert [a][1..] == [];
    assert Possible(Next(s, a), []) && After(Next(s, a), []) == Next(s, a);
    assert Possible(s, [a]) && After(s, [a]) == Next(s, a);
    ReachableExtends(s, [a]);
  }

  /** Between two delayed reloads of a resource there is a handled modify event of it. */
  lemma ModifyBetweenReloads(s: Man, a: Action, run: seq<Action>, b: Action, i: nat)
    requires Reachable(s) && IssuesDelayedReload(s, a, i) && Possible(Next(s, a), run)
    requires IssuesDelayedReload(After(Next(s, a), run), b, i)
    ensures SomeModify(Next(s, a), run, i)
  {
    var t := Next(s, a);
    ReachableNext(s, a);
    ReachableExtends(t, run);
    DelayedReloadWaits(s, a, i);
    StepEffect(s, a, t, i);
    DelayedReloadWaits(After(t, run), b, i);
    if !SomeModify(t, run, i) {
      EditsNeedEvents(t, run, i);
    }
  }

  /**
   An armed timeout stays armed until a reload is issued, a close-write event moves the resource to
   the modified set, or the resource is removed.
   */
  lemma TimeoutStaysArmed(s: Man, a: Action, t: Man, i: nat)
    requires Enabled(s, a) && t == Next(s, a) && IsLive(s, i) && s.slots[i].r.reloadTimeout != 0
    ensures i < |t.slots|
    ensures || t.slots[i].r.reloadTimeout == s.slots[i].r.reloadTimeout
            || (a.ModifyEvent? && s.main.Watching? && t.slots[i].r.reloadTimeout == s.main.msec + RELOAD_DELAY)
            || IssuesDelayedReload(s, a, i)
            || (a.CloseWriteEvent? && t.main.Watching? && a.wd in t.main.modset
                && a.wd in t.watches && t.watches[a.wd] == i)
  {
    StepEffect(s, a, t, i);
  }

  /** Some step of the run reloads the resource in slot `i`, moves it to the modified set or removes it. */
  ghost predicate SomeDisarm(s: Man, run: seq<Action>, i: nat)
    requires Possible(s, run)
    decreases |run|
  {
    run != [] &&
    (|| IssuesDelayedReload(s, run[0], i)
     || (run[0].CloseWriteEvent? && run[0].wd in s.watches && s.watches[run[0].wd] == i)
     || !IsLive(Next(s, run[0]), i)
     || SomeDisarm(Next(s, run[0]), run[1..], i))
  }

  /** Nothing else disarms the timeout, over any run. */
  lemma {:induction false} TimeoutArmedOverRun(s: Man, run: seq<Action>, i: nat)
    requires Possible(s, run) && IsLive(s, i) && s.slots[i].r.reloadTimeout != 0 && !SomeDisarm(s, run, i)
    ensures IsLive(After(s, run), i) && After(s, run).slots[i].r.reloadTimeout != 0
    decreases |run|
  {
    if run != [] {
      TimeoutStaysArmed(s, run[0], Next(s, run[0]), i);
      TimeoutArmedOverRun(Next(s, run[0]), run[1..], i);
    }
  }

  /**
   A handled modify event arms the timeout 128 ms after the check of the watches began. It faults
   exactly if the descriptor's entry leads to a removed resource.
   */
  lemma ModifyArms(s: Man, wd: int)
    requires Reachable(s) && Enabled(s, ModifyEvent(wd)) && wd in s.watches
    ensures var t := Next(s, ModifyEvent(wd)); var i := s.watches[wd];
            && i < |s.slots| && (t.faulted <==> s.slots[i].Gone?)
            && (!t.faulted ==> IsLive(t, i) && t.slots[i].r.reloadTimeout == s.main.msec + RELOAD_DELAY)
  {
    ReachableHolds(s);
  }

  /* ---- where a removal faults ---- */

  /**
   A removal reaches a null pointer exactly when the resource is watched and its descriptor is the
   only one in the watch table, or is no longer there because another resource got the same one or
   a dropped watch could not be restarted.
   */
  lemma RemovalFaultsIff(s: Man, x: Answer)
    requires Reachable(s) && !s.faulted && (s.main.DeleteRemoving? || s.main.DoneRemoving?)
    ensures IsLive(s, s.main.i)
    ensures var nfd := s.slots[s.main.i].r.nfd;
            Next(s, MainStep(x)).faulted <==> nfd > 0 && (nfd !in s.watches || s.watches.Keys == {nfd})
  {
    ReachableHolds(s);
    assert MainUses(s.main, s.main.i);
    var nfd := s.slots[s.main.i].r.nfd;
    if nfd in s.watches {
      assert |s.watches| == |s.watches.Keys|;
      OnlyElement(s.watches.Keys, nfd);
    }
  }

  lemma OnlyElement(s: set<int>, x: int)
    requires x in s
    ensures s == {x} <==> |s| == 1
  {
    assert s == {x} + (s - {x});
  }
}
