/** A poll issues every delayed reload that is due, whatever the workers and the file monitor do meanwhile. */
module ResmanReloads {
  import opened ResourceState
  import opened ResmanProtocol
  import opened ResmanInvariants
  import opened ResmanTheorems

  /** The poll under way has not come to slot `i` in its second loop, and did not begin that loop before `due`. */
  ghost predicate Ahead(m: Main, i: nat, due: nat) {
    match m
    case Deleting(_) => true
    case DeleteRemoving(_) => true
    case Watching(_, _) => true
    case Modified(_) => true
    case Delivering(j, start) => j <= i && due <= start
    case DoneRemoving(j, start) => j < i && due <= start
    case Reloading(_, back) => AheadIn(back, i, due)
    case Enqueueing(_, back) => AheadIn(back, i, due)
    case Idle => false
  }

  ghost predicate AheadIn(back: Back, i: nat, due: nat) {
    match back
    case ToIdle => false
    case ToModified(_) => true
    case ToDelivering(j, start) => j <= i && due <= start
  }

  /** The resource has a timeout running, no done call to wait for, and is not about to be deleted. */
  ghost predicate Armed(s: Man, i: nat, due: nat) {
    && IsLive(s, i) && due != 0 && s.main != DeleteRemoving(i)
    && var r := s.slots[i].r; r.reloadTimeout == due && !r.donePending && !DeleteDue(r)
  }

  /**
   The step is no removal request, no modify or close-write event and no finished load of the
   resource in slot `i`; the clock is at `due` or later, and the time slice is not used up.
   */
  ghost predicate Undisturbed(s: Man, a: Action, i: nat, due: nat) {
    match a
    case Remove(j) => j != i
    case ModifyEvent(wd) => !(wd in s.watches && s.watches[wd] == i)
    case CloseWriteEvent(wd) => !(wd in s.watches && s.watches[wd] == i)
    case TaskStep(k, _) => k < |s.tasks| && !(s.tasks[k].res == i && s.tasks[k].phase.Loaded?)
    case MainStep(x) => x.now >= due && !x.late
    case _ => true
  }

  ghost predicate AllUndisturbed(s: Man, run: seq<Action>, i: nat, due: nat)
    requires Possible(s, run)
    decreases |run|
  {
    run != [] ==> Undisturbed(s, run[0], i, due) && AllUndisturbed(Next(s, run[0]), run[1..], i, due)
  }

  ghost predicate SomeReload(s: Man, run: seq<Action>, i: nat)
    requires Possible(s, run)
    decreases |run|
  {
    run != [] && (IssuesDelayedReload(s, run[0], i) || SomeReload(Next(s, run[0]), run[1..], i))
  }

  lemma {:induction false} StaysArmed(s: Man, a: Action, i: nat, due: nat)
    requires SlotsOk(s) && Enabled(s, a) && !Next(s, a).faulted && s.hasDone
    requires Ahead(s.main, i, due) && Armed(s, i, due) && Undisturbed(s, a, i, due)
    ensures Armed(Next(s, a), i, due) || IssuesDelayedReload(s, a, i)
  {
    StepEffect(s, a, Next(s, a), i);
    RemovalStep(s, a, i);
  }

  lemma StaysAhead(s: Man, a: Action, i: nat, due: nat)
    requires SlotsOk(s) && Enabled(s, a) && !Next(s, a).faulted && s.hasDone
    requires Ahead(s.main, i, due) && Armed(s, i, due) && Undisturbed(s, a, i, due)
    ensures Ahead(Next(s, a).main, i, due) || IssuesDelayedReload(s, a, i)
  {
  }

  lemma {:induction false} AheadReloads(s: Man, run: seq<Action>, i: nat, due: nat)
    requires AllOk(s) && s.hasDone && Possible(s, run) && Ahead(s.main, i, due) && Armed(s, i, due)
    requires AllUndisturbed(s, run, i, due) && After(s, run).main.Idle? && !After(s, run).faulted
    ensures SomeReload(s, run, i)
    decreases |run|
  {
    if run != [] && !IssuesDelayedReload(s, run[0], i) {
      AllOkStep(s, run[0]);
      StaysArmed(s, run[0], i, due);
      StaysAhead(s, run[0], i, due);
      AheadReloads(Next(s, run[0]), run[1..], i, due);
    }
  }

  /**
   With a done callback: if a resource has a timeout running when a poll begins, waits for no done
   call and is not due for deletion, and the clock has come to the timeout, then the poll issues
   its delayed reload, unless the time slice is used up before or something happens to just this
   resource. Other resources, jobs, watches and events may do anything meanwhile.
   */
  lemma PollMustReload(s: Man, run: seq<Action>, i: nat)
    requires Reachable(s) && s.hasDone && s.main.Idle? && IsLive(s, i)
    requires var r := s.slots[i].r; r.reloadTimeout != 0 && !r.donePending && !DeleteDue(r)
    requires Possible(s, run) && run != [] && run[0] == BeginPoll
    requires AllUndisturbed(s, run, i, s.slots[i].r.reloadTimeout)
    requires After(s, run).main.Idle? && !After(s, run).faulted
    ensures SomeReload(s, run, i)
  {
    ReachableHolds(s);
    AllOkStep(s, run[0]);
    AheadReloads(Next(s, run[0]), run[1..], i, s.slots[i].r.reloadTimeout);
  }
}
