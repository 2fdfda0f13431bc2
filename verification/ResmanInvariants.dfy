/** What holds in every reachable state of the resource manager. */
module ResmanInvariants {
  import opened ResourceState
  import opened ResmanProtocol

  /** The owning thread is about to use the resource in slot `i`. */
  predicate MainUses(m: Main, i: nat) {
    match m
    case Reloading(j, _) => i == j
    case Enqueueing(j, _) => i == j
    case DeleteRemoving(j) => i == j
    case DoneRemoving(j, _) => i == j
    case _ => false
  }

  /** A job for slot `i` is queued or running. */
  ghost predicate Outstanding(s: Man, i: nat) {
    exists k :: 0 <= k < |s.tasks| && s.tasks[k].res == i && !s.tasks[k].phase.Over?
  }

  /** Why a resource was removed, with a done callback installed. */
  ghost predicate RemovalOk(r: Resource) {
    r.removeAsked || (r.doneCalls == 1 && r.numLoads == 0)
  }

  /** One slot, given where the owning thread is. */
  ghost predicate SlotOk(hasDone: bool, m: Main, i: nat, slot: Slot) {
    && TimeoutOk(slot.r)
    && (slot.Gone? ==> !MainUses(m, i))
    && (m == DeleteRemoving(i) ==> slot.r.deletePending)
    && (if !hasDone then UncountedOk(slot.r)
        else
          && DoneOk(slot.r)
          && (slot.Gone? ==> RemovalOk(slot.r))
          && (slot.Live? ==> if m.DoneRemoving? && m.i == i then slot.r.numLoads == 0 && slot.r.doneCalls == 1
                             else slot.r.numLoads == slot.r.doneCalls))
  }

  /** The owning thread is only where the callbacks and the file monitor let it be. */
  ghost predicate MainOk(hasDone: bool, watching: bool, m: Main) {
    match m
    case Reloading(_, back) => BackOk(hasDone, watching, back)
    case Enqueueing(_, back) => BackOk(hasDone, watching, back)
    case Watching(_, _) => watching
    case Modified(_) => watching
    case Delivering(_, _) => hasDone
    case DoneRemoving(_, _) => hasDone
    case _ => true
  }

  ghost predicate BackOk(hasDone: bool, watching: bool, back: Back) {
    (back.ToModified? ==> watching) && (back.ToDelivering? ==> hasDone)
  }

  ghost predicate SlotsOk(s: Man) {
    && (forall i: nat {:trigger s.slots[i]} :: i < |s.slots| ==> SlotOk(s.hasDone, s.main, i, s.slots[i]))
    && (forall i: nat {:trigger MainUses(s.main, i)} :: MainUses(s.main, i) ==> i < |s.slots|)
    && MainOk(s.hasDone, s.watching, s.main)
  }

  /** The watch table leads to resources that were added, and is empty without file watching. */
  ghost predicate WatchesOk(s: Man) {
    && (forall wd :: wd in s.watches ==> wd > 0 && s.watches[wd] < |s.slots|)
    && (!s.watching ==> s.watches == map[])
  }

  /** A resource marked pending has a job queued, running or about to be enqueued. */
  ghost predicate PendingOk(s: Man) {
    && (forall k :: 0 <= k < |s.tasks| ==> s.tasks[k].res < |s.slots|)
    && (forall i: nat {:trigger IsLive(s, i)} :: IsLive(s, i) && s.slots[i].r.pending ==>
          Outstanding(s, i) || (s.main.Enqueueing? && s.main.res == i))
  }

  /* ---- the slots ---- */

  /** Moving the owning thread to a place where it uses at most live resources. */
  lemma MoveSlots(s: Man, m: Main)
    requires SlotsOk(s) && !m.DeleteRemoving? && !m.DoneRemoving? && !s.main.DoneRemoving?
    requires forall i: nat {:trigger MainUses(m, i)} :: MainUses(m, i) ==> IsLive(s, i)
    requires MainOk(s.hasDone, s.watching, m)
    ensures SlotsOk(s.(main := m))
  {
  }

  /** Replacing one live resource by a state that is in order. */
  lemma SetResSlots(s: Man, i: nat, r: Resource)
    requires SlotsOk(s) && IsLive(s, i) && SlotOk(s.hasDone, s.main, i, Live(r))
    ensures SlotsOk(SetRes(s, i, r))
  {
  }

  lemma StartWatchSlots(s: Man, i: nat, fd: int)
    requires SlotsOk(s) && IsLive(s, i)
    ensures SlotsOk(StartWatch(s, i, fd))
  {
  }

  lemma {:induction false} RemoveSlots(s: Man, x: Answer)
    requires SlotsOk(s) && Enabled(s, MainStep(x)) && !MainNext(s, x).faulted
    requires s.main.DeleteRemoving? || s.main.DoneRemoving?
    ensures SlotsOk(MainNext(s, x))
  {
    var i, t := s.main.i, MainNext(s, x);
    assert SlotOk(s.hasDone, s.main, i, s.slots[i]);
    assert forall j: nat :: j < |s.slots| && j != i ==> t.slots[j] == s.slots[j];
  }

  lemma {:induction false} ReloadSlots(s: Man, x: Answer)
    requires SlotsOk(s) && Enabled(s, MainStep(x)) && !MainNext(s, x).faulted && s.main.Reloading?
    ensures SlotsOk(MainNext(s, x))
  {
    var i := s.main.res;
    assert SlotOk(s.hasDone, s.main, i, s.slots[i]);
    SetResSlots(s, i, SetPending(s.slots[i].r));
    MoveSlots(SetRes(s, i, SetPending(s.slots[i].r)), Enqueueing(i, s.main.back));
  }

  /** The first loop of poll goes past a slot or chooses it for removal. */
  lemma {:induction false} DeletingSlots(s: Man, x: Answer)
    requires SlotsOk(s) && Enabled(s, MainStep(x)) && s.main.Deleting?
    ensures SlotsOk(MainNext(s, x))
  {
    var t := MainNext(s, x);
    if t.main.DeleteRemoving? {
      assert forall j: nat :: j < |s.slots| ==> SlotOk(s.hasDone, s.main, j, s.slots[j]);
    } else {
      MoveSlots(s, t.main);
    }
  }

  /** The steps of the owning thread that only move it on. */
  lemma {:induction false} PassSlots(s: Man, x: Answer)
    requires SlotsOk(s) && Enabled(s, MainStep(x))
    requires s.main.Enqueueing? || s.main.Watching? || s.main.Modified?
    ensures SlotsOk(MainNext(s, x))
  {
    var t := MainNext(s, x);
    MoveSlots(s, t.main);
    assert SlotsOk(t.(tasks := s.tasks));
  }

  /** The owning thread's steps outside the second loop of poll. */
  lemma {:induction false} MainSlots(s: Man, x: Answer)
    requires SlotsOk(s) && Enabled(s, MainStep(x)) && !MainNext(s, x).faulted && !s.main.Delivering?
    ensures SlotsOk(MainNext(s, x))
  {
    if s.main.Reloading? {
      ReloadSlots(s, x);
    } else if s.main.DeleteRemoving? || s.main.DoneRemoving? {
      RemoveSlots(s, x);
    } else if s.main.Deleting? {
      DeletingSlots(s, x);
    } else {
      PassSlots(s, x);
    }
  }

  /** One turn of the second loop of poll. */
  lemma {:induction false} DeliverSlots(s: Man, i: nat, start: nat, x: Answer)
    requires SlotsOk(s) && s.main == Delivering(i, start)
    ensures SlotsOk(DeliverNext(s, i, start, x))
  {
    if i >= |s.slots| || s.slots[i].Gone? {
      MoveSlots(s, DeliverNext(s, i, start, x).main);
    } else {
      var r := s.slots[i].r;
      assert SlotOk(s.hasDone, s.main, i, s.slots[i]);
      if !r.donePending {
        if ReloadDue(r, start) {
          SetResSlots(s, i, DelayedReload(r));
          MoveSlots(SetRes(s, i, DelayedReload(r)), Reloading(i, ToDelivering(i + 1, start)));
        } else {
          MoveSlots(s, Delivering(i + 1, start));
        }
      } else {
        var d := DeliverDone(r, x.ret);
        var t := SetRes(s, i, d);
        if Refused(r, x.ret) {
          var u := t.(main := DoneRemoving(i, start));
          assert forall j: nat :: j < |s.slots| && j != i ==> u.slots[j] == s.slots[j];
          assert SlotsOk(u);
        } else {
          SetResSlots(s, i, d);
          StartWatchSlots(t, i, x.fd);
          MoveSlots(StartWatch(t, i, x.fd), DeliverNext(s, i, start, x).main);
        }
      }
    }
  }

  /** A load job's steps. */
  lemma TaskSlots(s: Man, k: nat, x: Answer)
    requires SlotsOk(s) && Enabled(s, TaskStep(k, x)) && !TaskNext(s, k, x).faulted
    ensures SlotsOk(TaskNext(s, k, x))
  {
    var i := s.tasks[k].res;
    if s.tasks[k].phase.Loaded? {
      FinishSlots(s, k, x);
    } else if s.tasks[k].phase.Loading? {
      assert SlotOk(s.hasDone, s.main, i, s.slots[i]);
      SetResSlots(s, i, SetResult(s.slots[i].r, x.ret));
    }
  }

  lemma {:induction false} FinishSlots(s: Man, k: nat, x: Answer)
    requires SlotsOk(s) && Enabled(s, TaskStep(k, x)) && IsLive(s, s.tasks[k].res) && s.tasks[k].phase.Loaded?
    ensures SlotsOk(TaskNext(s, k, x))
  {
    var i := s.tasks[k].res;
    var f := FinishLoad(s.slots[i].r, s.hasDone);
    assert SlotOk(s.hasDone, s.main, i, s.slots[i]);
    SetResSlots(s, i, f);
    var t := SetRes(s, i, f).(tasks := s.tasks[k := Task(i, Over)]);
    StartWatchSlots(t, i, x.fd);
  }

  lemma {:induction false} RestartSlots(s: Man, i: nat, fd: int)
    requires SlotsOk(s) && s.main.Watching? && !Restart(s, i, fd).faulted && IsLive(s, i)
    ensures SlotsOk(Restart(s, i, fd))
  {
    assert SlotOk(s.hasDone, s.main, i, s.slots[i]);
    if fd > 0 {
      SetResSlots(s, i, s.slots[i].r.(nfd := fd));
      MoveSlots(SetRes(s, i, s.slots[i].r.(nfd := fd)), Restart(s, i, fd).main);
    }
  }

  lemma SlotsStep(s: Man, a: Action)
    requires SlotsOk(s) && Enabled(s, a) && !Next(s, a).faulted
    ensures SlotsOk(Next(s, a))
  {
    match a
    case Add =>
      var t := s.(slots := s.slots + [Live(NEW)]);
      assert SlotsOk(t);
      MoveSlots(t, Reloading(|s.slots|, ToIdle));
    case Remove(i) =>
      assert SlotOk(s.hasDone, s.main, i, s.slots[i]);
      SetResSlots(s, i, AskRemove(s.slots[i].r));
    case BeginPoll => MoveSlots(s, Deleting(0));
    case MainStep(x) =>
      if s.main.Delivering? { DeliverSlots(s, s.main.i, s.main.start, x); } else { MainSlots(s, x); }
    case ModifyEvent(wd) =>
      if wd in s.watches {
        var i := s.watches[wd];
        assert SlotOk(s.hasDone, s.main, i, s.slots[i]);
        SetResSlots(s, i, Modify(s.slots[i].r, s.main.msec));
      }
    case CloseWriteEvent(wd) =>
      if wd in s.watches {
        var i := s.watches[wd];
        assert SlotOk(s.hasDone, s.main, i, s.slots[i]);
        SetResSlots(s, i, CloseWrite(s.slots[i].r));
        MoveSlots(SetRes(s, i, CloseWrite(s.slots[i].r)), Next(s, a).main);
      }
    case IgnoredEvent(wd, fd) => if wd in s.watches { RestartSlots(s, s.watches[wd], fd); }
    case ReloadModified(wd) => MoveSlots(s, Next(s, a).main);
    case TaskStep(k, x) => TaskSlots(s, k, x);
  }

  /* ---- the watch table ---- */

  lemma StartWatchWatches(s: Man, i: nat, fd: int)
    requires WatchesOk(s) && IsLive(s, i)
    ensures WatchesOk(StartWatch(s, i, fd))
  {
  }

  lemma SetResWatches(s: Man, i: nat, r: Resource)
    requires WatchesOk(s) && IsLive(s, i)
    ensures WatchesOk(SetRes(s, i, r))
  {
  }

  lemma RemoveWatches(s: Man, i: nat)
    requires WatchesOk(s) && IsLive(s, i) && !s.faulted && !RemoveResource(s, i).faulted
    ensures WatchesOk(RemoveResource(s, i))
  {
  }

  lemma {:induction false} WatchesStep(s: Man, a: Action)
    requires WatchesOk(s) && Enabled(s, a) && !Next(s, a).faulted
    ensures WatchesOk(Next(s, a))
  {
    match a
    case MainStep(x) => MainWatches(s, x);
    case TaskStep(k, x) => TaskWatches(s, k, x);
    case _ =>
  }

  lemma {:induction false} MainWatches(s: Man, x: Answer)
    requires WatchesOk(s) && Enabled(s, MainStep(x)) && !MainNext(s, x).faulted
    ensures WatchesOk(MainNext(s, x))
  {
    match s.main
    case DeleteRemoving(i) => RemoveWatches(s, i);
    case DoneRemoving(i, _) => RemoveWatches(s, i);
    case Delivering(i, start) =>
      if i < |s.slots| && s.slots[i].Live? && s.slots[i].r.donePending && !Refused(s.slots[i].r, x.ret) {
        var d := DeliverDone(s.slots[i].r, x.ret);
        SetResWatches(s, i, d);
        StartWatchWatches(SetRes(s, i, d), i, x.fd);
      }
    case _ =>
  }

  lemma {:induction false} TaskWatches(s: Man, k: nat, x: Answer)
    requires WatchesOk(s) && Enabled(s, TaskStep(k, x)) && !TaskNext(s, k, x).faulted
    ensures WatchesOk(TaskNext(s, k, x))
  {
    var i := s.tasks[k].res;
    if s.tasks[k].phase.Loaded? {
      var f := FinishLoad(s.slots[i].r, s.hasDone);
      SetResWatches(s, i, f);
      StartWatchWatches(SetRes(s, i, f).(tasks := s.tasks[k := Task(i, Over)]), i, x.fd);
    }
  }

  /* ---- pending ---- */

  /** A step that enqueues at most, and marks no resource pending. */
  lemma PendingKept(s: Man, t: Man)
    requires PendingOk(s) && |t.slots| >= |s.slots| && |t.tasks| >= |s.tasks|
    requires forall k :: 0 <= k < |s.tasks| ==> t.tasks[k].res == s.tasks[k].res
    requires forall k :: |s.tasks| <= k < |t.tasks| ==> t.tasks[k].res < |t.slots|
    requires forall i: nat {:trigger IsLive(t, i)} :: IsLive(t, i) && t.slots[i].r.pending ==>
               IsLive(s, i) && s.slots[i].r.pending
    requires forall k :: 0 <= k < |s.tasks| && !s.tasks[k].phase.Over? ==>
               !t.tasks[k].phase.Over? || !IsLive(t, s.tasks[k].res) || !t.slots[s.tasks[k].res].r.pending
    requires s.main.Enqueueing? ==> t.main == s.main || Outstanding(t, s.main.res)
    ensures PendingOk(t)
  {
  }

  /** The owning thread's steps. */
  lemma PendingMain(s: Man, x: Answer)
    requires SlotsOk(s) && PendingOk(s) && Enabled(s, MainStep(x)) && !MainNext(s, x).faulted
    ensures PendingOk(MainNext(s, x))
  {
    var t := MainNext(s, x);
    if s.main.Reloading? {
      var r := s.main.res;
      forall i: nat | IsLive(t, i) && t.slots[i].r.pending && i != r ensures Outstanding(t, i) {
        assert IsLive(s, i) && s.slots[i] == t.slots[i];
        assert Outstanding(s, i);
        var k :| 0 <= k < |s.tasks| && s.tasks[k].res == i && !s.tasks[k].phase.Over?;
        assert t.tasks[k].res == i;
      }
    } else if s.main.Enqueueing? {
      assert t.tasks[|s.tasks|] == Task(s.main.res, Queued);
      assert MainUses(s.main, s.main.res);
      PendingKept(s, t);
    } else {
      PollPending(s, x);
      PendingKept(s, t);
    }
  }

  /** Every live resource of `t` was live in `s` with the same pending mark. */
  ghost predicate SamePending(s: Man, t: Man) {
    && |t.slots| == |s.slots|
    && (forall i: nat {:trigger t.slots[i]} :: i < |s.slots| && t.slots[i].Live? ==>
          s.slots[i].Live? && t.slots[i].r.pending == s.slots[i].r.pending)
  }

  /** The steps of poll mark nothing pending. */
  lemma PollPending(s: Man, x: Answer)
    requires Enabled(s, MainStep(x)) && !s.main.Reloading? && !s.main.Enqueueing?
    ensures MainNext(s, x).tasks == s.tasks && SamePending(s, MainNext(s, x))
  {
    if s.main.Delivering? && s.main.i < |s.slots| && s.slots[s.main.i].Live? && s.slots[s.main.i].r.donePending {
      var i := s.main.i;
      var t := SetRes(s, i, DeliverDone(s.slots[i].r, x.ret));
      assert SamePending(s, t);
      assert SamePending(t, StartWatch(t, i, x.fd));
    }
  }

  lemma PendingTask(s: Man, k: nat, x: Answer)
    requires PendingOk(s) && Enabled(s, TaskStep(k, x)) && !TaskNext(s, k, x).faulted
    ensures PendingOk(TaskNext(s, k, x))
  {
    if s.tasks[k].phase.Loaded? {
      FinishPending(s, k, x);
    } else {
      PendingKept(s, TaskNext(s, k, x));
    }
  }

  lemma FinishPending(s: Man, k: nat, x: Answer)
    requires PendingOk(s) && Enabled(s, TaskStep(k, x)) && IsLive(s, s.tasks[k].res) && s.tasks[k].phase.Loaded?
    ensures PendingOk(TaskNext(s, k, x))
  {
    var t, i := TaskNext(s, k, x), s.tasks[k].res;
    var u := SetRes(s, i, FinishLoad(s.slots[i].r, s.hasDone)).(tasks := s.tasks[k := Task(i, Over)]);
    PendingKept(s, u);
    assert t == u || t == StartWatch(u, i, x.fd);
    PendingKept(u, t);
  }

  lemma PendingStep(s: Man, a: Action)
    requires SlotsOk(s) && WatchesOk(s) && PendingOk(s) && Enabled(s, a) && !Next(s, a).faulted
    ensures PendingOk(Next(s, a))
  {
    var t := Next(s, a);
    match a
    case MainStep(x) => PendingMain(s, x);
    case TaskStep(k, x) => PendingTask(s, k, x);
    case _ =>
      assert t.tasks == s.tasks;
      assert s.main.Enqueueing? ==> t.main == s.main;
      PendingKept(s, t);
  }
}
