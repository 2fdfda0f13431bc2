/** What makes the owning thread go where it goes, and what a callback or the clock must have said for it. */
module ResmanCauses {
  import opened ResmanProtocol
  import opened ResmanInvariants
  import opened ResmanTheorems
  import opened ResmanFields
  import ResmanProgress

  /* ---- removal ---- */

  /** The first loop of poll chooses a resource exactly if it is marked for deletion and no load is pending. */
  lemma {:induction false} ChosenIff(s: Man, x: Answer)
    requires Enabled(s, MainStep(x)) && s.main.Deleting? && s.main.i < |s.slots|
    ensures var i := s.main.i;
            Next(s, MainStep(x)).main ==
            if IsLive(s, i) && s.slots[i].r.deletePending && !s.slots[i].r.pending then DeleteRemoving(i)
            else Deleting(i + 1)
  {
  }

  /** The chosen resource goes, and so does one whose done call was refused; nothing else ever empties a slot. */
  lemma {:induction false} GoesIff(s: Man, a: Action, i: nat)
    requires Enabled(s, a) && !Next(s, a).faulted && IsLive(s, i)
    ensures !IsLive(Next(s, a), i) <==>
            a.MainStep? && (s.main == DeleteRemoving(i) || (s.main.DoneRemoving? && s.main.i == i))
  {
    RemovalStep(s, a, i);
  }

  /**
   A done call leads to removal exactly if the callback returned -1 and the resource was never
   delivered before; otherwise the resource stays and counts one more load.
   */
  lemma {:induction false} RefusedIff(s: Man, a: Action, i: nat)
    requires Enabled(s, a) && DoneCall(s, a, i)
    ensures var t, n := Next(s, a), s.slots[i].r.numLoads;
            && !t.faulted && IsLive(t, i)
            && (t.main == DoneRemoving(i, s.main.start) <==> a.answer.ret == -1 && n == 0)
            && t.slots[i].r.numLoads == (if a.answer.ret == -1 && n == 0 then 0 else n + 1)
  {
    StepFields(s, a, i);
  }

  /** After an accepted done call the poll ends exactly if the time slice is used up, and else goes on. */
  lemma {:induction false} SliceEndsIff(s: Man, a: Action, i: nat)
    requires Enabled(s, a) && DoneCall(s, a, i) && !(a.answer.ret == -1 && s.slots[i].r.numLoads == 0)
    ensures Next(s, a).main == if a.answer.late then Idle else Delivering(i + 1, s.main.start)
  {
  }

  /** A slot without a waiting done call is passed, after its delayed reload if its timeout is over. */
  lemma {:induction false} PassedOrReloaded(s: Man, a: Action, i: nat)
    requires Enabled(s, a) && a.MainStep? && s.main.Delivering? && s.main.i == i < |s.slots| && !DoneCall(s, a, i)
    ensures var next := Delivering(i + 1, s.main.start);
            Next(s, a).main == if TimeoutPassed(s, a, i) then Reloading(i, ToDelivering(i + 1, s.main.start)) else next
    ensures IssuesDelayedReload(s, a, i) <==> TimeoutPassed(s, a, i)
  {
  }

  /** A new resource has nothing set, counted or watched, and its load comes next. */
  lemma {:induction false} AddedBlank(s: Man)
    requires Enabled(s, Add)
    ensures var t, n := Next(s, Add), |s.slots|;
            && |t.slots| == n + 1 && t.slots[..n] == s.slots && IsLive(t, n) && t.main == Reloading(n, ToIdle)
            && var r := t.slots[n].r;
            && !r.pending && !r.donePending && !r.deletePending && r.numLoads == 0 && r.nfd == 0 && r.reloadTimeout == 0
            && r.result == 0 && r.finished == 0 && r.unseen == 0 && r.doneCalls == 0 && !r.removeAsked && r.edits == 0
  {
  }

  /** Whoever is about to be removed after a refused done call is removed before the poll is over. */
  lemma {:induction false} RefusedIsRemoved(s: Man, run: seq<Action>, i: nat)
    requires Possible(s, run) && s.main.DoneRemoving? && s.main.i == i && IsLive(s, i)
    requires After(s, run).main.Idle? && !After(s, run).faulted
    ensures i < |After(s, run).slots| && After(s, run).slots[i].Gone?
    decreases |run|
  {
    if run != [] {
      var t := Next(s, run[0]);
      GoesIff(s, run[0], i);
      StepEffect(s, run[0], t, i);
      if run[0].MainStep? {
        GoneForGood(t, run[1..], i);
      } else {
        RefusedIsRemoved(t, run[1..], i);
      }
    }
  }

  lemma {:induction false} GoneForGood(s: Man, run: seq<Action>, i: nat)
    requires Possible(s, run) && i < |s.slots| && s.slots[i].Gone?
    ensures i < |After(s, run).slots| && After(s, run).slots[i].Gone?
    decreases |run|
  {
    if run != [] {
      StepEffect(s, run[0], Next(s, run[0]), i);
      GoneForGood(Next(s, run[0]), run[1..], i);
    }
  }

  /* ---- the watch table ---- */

  /** The slot whose watch the step can start or restart. */
  function WatchedSlot(s: Man, a: Action): nat {
    match a
    case MainStep(_) => if s.main.Delivering? then s.main.i else |s.slots|
    case TaskStep(k, _) => if k < |s.tasks| then s.tasks[k].res else |s.slots|
    case IgnoredEvent(wd, _) => if wd in s.watches then s.watches[wd] else |s.slots|
    case _ => |s.slots|
  }

  /** The slot whose watch the step stops: a removed resource, or a dropped watch that cannot be restarted. */
  function StoppedSlot(s: Man, a: Action): nat {
    match a
    case MainStep(_) => if s.main.DeleteRemoving? || s.main.DoneRemoving? then s.main.i else |s.slots|
    case IgnoredEvent(wd, fd) => if wd in s.watches && fd <= 0 then s.watches[wd] else |s.slots|
    case _ => |s.slots|
  }

  /** A granted descriptor leads to its resource, a stopped one leaves the table, and nothing else changes it. */
  ghost predicate TableChange(s: Man, a: Action, t: Man) {
    var i, j := WatchedSlot(s, a), StoppedSlot(s, a);
    t.watches == if i < |s.slots| && Granted(s, a, i) > 0 then s.watches[Granted(s, a, i) := i]
                 else if j < |s.slots| && s.slots[j].r.nfd > 0 then s.watches - {s.slots[j].r.nfd}
                 else s.watches
  }

  lemma {:induction false} DeliverTable(s: Man, x: Answer)
    requires Enabled(s, MainStep(x)) && s.main.Delivering?
    ensures TableChange(s, MainStep(x), DeliverNext(s, s.main.i, s.main.start, x))
  {
  }

  lemma {:induction false} MainTable(s: Man, x: Answer)
    requires Enabled(s, MainStep(x)) && !s.main.Delivering? && !MainNext(s, x).faulted
    ensures TableChange(s, MainStep(x), MainNext(s, x))
  {
  }

  lemma {:induction false} TaskTable(s: Man, k: nat, x: Answer)
    requires Enabled(s, TaskStep(k, x)) && !TaskNext(s, k, x).faulted
    ensures TableChange(s, TaskStep(k, x), TaskNext(s, k, x))
  {
    assert s.tasks[k] == Task(s.tasks[k].res, s.tasks[k].phase);
  }

  lemma {:induction false} TableStep(s: Man, a: Action)
    requires Enabled(s, a) && !Next(s, a).faulted
    ensures TableChange(s, a, Next(s, a))
  {
    match a
    case MainStep(x) => if s.main.Delivering? { DeliverTable(s, x); } else { MainTable(s, x); }
    case TaskStep(k, x) => TaskTable(s, k, x);
    case _ =>
  }

  /* ---- the result of a load ---- */

  /** No other load callback for the resource in slot `i` returns during the run. */
  ghost predicate NoReturn(s: Man, run: seq<Action>, i: nat)
    requires Possible(s, run)
    decreases |run|
  {
    run != [] ==> !LoadReturns(s, run[0], i) && NoReturn(Next(s, run[0]), run[1..], i)
  }

  lemma {:induction false} ResultKept(s: Man, run: seq<Action>, i: nat)
    requires Possible(s, run) && !After(s, run).faulted && i < |s.slots| && NoReturn(s, run, i)
    ensures i < |After(s, run).slots| && After(s, run).slots[i].r.result == s.slots[i].r.result
    decreases |run|
  {
    if run != [] {
      assert !Next(s, run[0]).faulted;
      StepFields(s, run[0], i);
      ResultKept(Next(s, run[0]), run[1..], i);
    }
  }

  /**
   Without a done callback: when the load of job `k` returned `x.ret` and no other load of the resource
   has returned since, the end of the job marks the resource for deletion exactly if it was marked
   before or that callback returned -1; otherwise the resource holds the watch the kernel grants.
   */
  lemma {:induction false} JobMarksIff(s: Man, k: nat, x: Answer, i: nat, run: seq<Action>, y: Answer)
    requires Reachable(s) && !s.hasDone && Enabled(s, TaskStep(k, x)) && s.tasks[k] == Task(i, Loading)
    requires var u := Next(s, TaskStep(k, x));
             && !u.faulted && Possible(u, run) && NoReturn(u, run, i)
             && var v := After(u, run);
                Enabled(v, TaskStep(k, y)) && k < |v.tasks| && v.tasks[k] == Task(i, Loaded) && IsLive(v, i)
    ensures var v := After(Next(s, TaskStep(k, x)), run); var w := Next(v, TaskStep(k, y));
            && !w.faulted && IsLive(w, i) && !w.slots[i].r.pending
            && (w.slots[i].r.deletePending <==> v.slots[i].r.deletePending || x.ret == -1)
            && w.slots[i].r.nfd == if v.watching && x.ret != -1 && v.slots[i].r.nfd <= 0 && y.fd > 0 then y.fd
                                   else v.slots[i].r.nfd
  {
    var a := TaskStep(k, x);
    var u := Next(s, a);
    var v := After(u, run);
    StepFields(s, a, i);
    ResultKept(u, run, i);
    ReachableNext(s, a);
    ReachableExtends(u, run);
    ReachableHolds(v);
    ModeKept(u, run);
    assert v.slots[i].r.result == x.ret;
    assert SlotOk(v.hasDone, v.main, i, v.slots[i]);
    EndOfJob(v, k, y, i);
  }

  lemma {:induction false} EndOfJob(s: Man, k: nat, y: Answer, i: nat)
    requires Enabled(s, TaskStep(k, y)) && s.tasks[k] == Task(i, Loaded) && IsLive(s, i)
    ensures !Next(s, TaskStep(k, y)).faulted && IsLive(Next(s, TaskStep(k, y)), i)
    ensures FieldsOk(s, TaskStep(k, y), i, Next(s, TaskStep(k, y)))
  {
    TaskKeeps(s, k, y, i);
    assert !Next(s, TaskStep(k, y)).faulted;
    StepFields(s, TaskStep(k, y), i);
  }

  /* ---- the clock ---- */

  /** A check of the watches begins with nothing marked, at the reading of the clock. */
  lemma {:induction false} CheckReadsClock(s: Man, a: Action)
    requires Enabled(s, a) && !s.main.Watching? && Next(s, a).main.Watching?
    ensures a.MainStep? && s.watching && Next(s, a).main == Watching(a.answer.now, {})
  {
  }

  /** During a check the time stamp stays the same. */
  lemma {:induction false} CheckKeepsClock(s: Man, a: Action)
    requires Enabled(s, a) && s.main.Watching? && Next(s, a).main.Watching?
    ensures Next(s, a).main.msec == s.main.msec
  {
  }

  /** The start time of the second loop, wherever the owning thread keeps it. */
  predicate Holds(m: Main, start: nat) {
    match m
    case Delivering(_, t) => t == start
    case DoneRemoving(_, t) => t == start
    case Reloading(_, back) => back.ToDelivering? ==> back.start == start
    case Enqueueing(_, back) => back.ToDelivering? ==> back.start == start
    case _ => true
  }

  /** The owning thread is in the second loop of poll. */
  predicate InLoop(m: Main) {
    m.Delivering? || m.DoneRemoving? || ((m.Reloading? || m.Enqueueing?) && m.back.ToDelivering?)
  }

  /** The second loop begins at slot 0, at the reading of the clock, with or without watches. */
  lemma {:induction false} LoopReadsClock(s: Man, a: Action)
    requires Enabled(s, a) && !InLoop(s.main) && InLoop(Next(s, a).main)
    ensures a.MainStep? && s.hasDone && (s.main.Deleting? || s.main.Modified?)
    ensures Next(s, a).main == Delivering(0, a.answer.now)
  {
  }

  lemma {:induction false} LoopKeepsClock(s: Man, a: Action, start: nat)
    requires Enabled(s, a) && InLoop(s.main) && Holds(s.main, start) && InLoop(Next(s, a).main)
    ensures Holds(Next(s, a).main, start)
  {
  }

  /**
   What an observer of the clock notes: its reading at the begin of the last check of the watches and at
   that of the last second loop of a poll, and whether a modify event of one resource was handled,
   with the reading of the check that handled the last one.
   */
  datatype Readings = Readings(check: nat, begun: nat, handled: bool, stamp: nat)

  function Clock(a: Action): nat {
    if a.MainStep? then a.answer.now else 0
  }

  function Observe(s: Man, a: Action, i: nat, c: Readings): Readings
    requires Enabled(s, a)
  {
    var t, edited := Next(s, a), a.ModifyEvent? && About(s, a.wd, i);
    Readings(if !s.main.Watching? && t.main.Watching? then Clock(a) else c.check,
             if !InLoop(s.main) && InLoop(t.main) then Clock(a) else c.begun,
             c.handled || edited, if edited then c.check else c.stamp)
  }

  function ObserveAll(s: Man, run: seq<Action>, i: nat, c: Readings): Readings
    requires Possible(s, run)
    decreases |run|
  {
    if run == [] then c else ObserveAll(Next(s, run[0]), run[1..], i, Observe(s, run[0], i, c))
  }

  /** The model's stamps are the observer's readings, and a running timeout is the last one plus 128. */
  ghost predicate Tracks(s: Man, i: nat, c: Readings) {
    && (s.main.Watching? ==> s.main.msec == c.check)
    && (InLoop(s.main) ==> Holds(s.main, c.begun))
    && (i < |s.slots| && s.slots[i].r.reloadTimeout != 0 ==> c.handled && s.slots[i].r.reloadTimeout == c.stamp + 128)
  }

  lemma {:induction false} TracksStep(s: Man, a: Action, i: nat, c: Readings)
    requires AllOk(s) && Enabled(s, a) && !Next(s, a).faulted && Tracks(s, i, c)
    ensures Tracks(Next(s, a), i, Observe(s, a, i, c))
  {
    var t := Next(s, a);
    if t.main.Watching? {
      if s.main.Watching? { CheckKeepsClock(s, a); } else { CheckReadsClock(s, a); }
    }
    if InLoop(t.main) {
      if InLoop(s.main) { LoopKeepsClock(s, a, c.begun); } else { LoopReadsClock(s, a); }
    }
    if i < |s.slots| {
      StepFields(s, a, i);
    } else if a.Add? {
      AddedBlank(s);
    } else {
      assert |t.slots| == |s.slots| by { OnlyAddGrows(s, a); }
    }
  }

  lemma {:induction false} OnlyAddGrows(s: Man, a: Action)
    requires Enabled(s, a) && !a.Add?
    ensures |Next(s, a).slots| == |s.slots|
  {
    if a.MainStep? {
      ResmanProgress.OwnKeepsTasks(s, a);
    }
  }

  lemma {:induction false} TracksRun(s: Man, run: seq<Action>, i: nat, c: Readings)
    requires AllOk(s) && Possible(s, run) && !After(s, run).faulted && Tracks(s, i, c)
    ensures AllOk(After(s, run)) && Tracks(After(s, run), i, ObserveAll(s, run, i, c))
    decreases |run|
  {
    if run != [] {
      AllOkStep(s, run[0]);
      TracksStep(s, run[0], i, c);
      TracksRun(Next(s, run[0]), run[1..], i, Observe(s, run[0], i, c));
    }
  }

  /**
   The debounce, by the clock itself: over any run, a delayed reload of a resource is issued by a poll
   whose reading of the clock is at least 128 above the reading of the check that handled the last
   modify event of that resource.
   */
  lemma {:induction false} Debounced(hasDone: bool, watching: bool, run: seq<Action>, i: nat, a: Action)
    requires Possible(Initial(hasDone, watching), run)
    requires IssuesDelayedReload(After(Initial(hasDone, watching), run), a, i)
    ensures var c := ObserveAll(Initial(hasDone, watching), run, i, Readings(0, 0, false, 0));
            c.handled && c.begun >= c.stamp + 128
  {
    TracksRun(Initial(hasDone, watching), run, i, Readings(0, 0, false, 0));
    PassedOrReloaded(After(Initial(hasDone, watching), run), a, i);
  }
}
