/** Every poll delivers a waiting done call, whatever the workers and the file monitor do meanwhile. */
module ResmanDelivery {
  import opened ResourceState
  import opened ResmanProtocol
  import opened ResmanInvariants
  import opened ResmanTheorems

  ghost predicate Waits(s: Man, i: nat) {
    IsLive(s, i) && s.slots[i].r.donePending
  }

  ghost function Waiting(s: Man): set<nat> {
    set i: nat | i < |s.slots| && Waits(s, i)
  }

  /** The poll under way has not come to slot `i` in its second loop. */
  ghost predicate Ahead(m: Main, i: nat) {
    match m
    case Deleting(_) => true
    case DeleteRemoving(_) => true
    case Watching(_, _) => true
    case Modified(_) => true
    case Delivering(j, _) => j <= i
    case Reloading(_, back) => AheadIn(back, i)
    case Enqueueing(_, back) => AheadIn(back, i)
    case Idle => false
    case DoneRemoving(_, _) => false
  }

  ghost predicate AheadIn(back: Back, i: nat) {
    match back
    case ToIdle => false
    case ToModified(_) => true
    case ToDelivering(j, _) => j <= i
  }

  /** The step calls the done callback of some resource. */
  ghost predicate Delivers(s: Man, a: Action) {
    s.main.Delivering? && DeliversDone(s, a, s.main.i)
  }

  ghost predicate SomeDelivery(s: Man, run: seq<Action>)
    requires Possible(s, run)
    decreases |run|
  {
    run != [] && (Delivers(s, run[0]) || SomeDelivery(Next(s, run[0]), run[1..]))
  }

  /** A poll that delivers nothing in a step stays before the waiting slot, unless it removes it on request. */
  lemma {:induction false} AheadStep(s: Man, a: Action, i: nat)
    requires SlotsOk(s) && Enabled(s, a) && !Next(s, a).faulted && s.hasDone
    requires Ahead(s.main, i) && Waits(s, i) && !Delivers(s, a)
    ensures var t := Next(s, a);
            if Waits(t, i) then Ahead(t.main, i) else i < |t.slots| && t.slots[i].Gone? && t.slots[i].r.removeAsked
  {
    assert SlotOk(s.hasDone, s.main, i, s.slots[i]);
    StepEffect(s, a, Next(s, a), i);
    RemovalStep(s, a, i);
    StaysAhead(s, a, i);
  }

  lemma StaysAhead(s: Man, a: Action, i: nat)
    requires SlotsOk(s) && Enabled(s, a) && !Next(s, a).faulted && s.hasDone
    requires Ahead(s.main, i) && Waits(s, i) && !Delivers(s, a)
    ensures Ahead(Next(s, a).main, i)
  {
  }

  lemma {:induction false} GoneStays(s: Man, run: seq<Action>, i: nat)
    requires Possible(s, run) && i < |s.slots| && s.slots[i].Gone?
    ensures i < |After(s, run).slots| && After(s, run).slots[i] == s.slots[i]
    decreases |run|
  {
    if run != [] {
      StepEffect(s, run[0], Next(s, run[0]), i);
      GoneStays(Next(s, run[0]), run[1..], i);
    }
  }

  lemma {:induction false} AheadDelivers(s: Man, run: seq<Action>, i: nat)
    requires AllOk(s) && s.hasDone && Possible(s, run) && Ahead(s.main, i) && Waits(s, i)
    requires After(s, run).main.Idle? && !After(s, run).faulted
    ensures SomeDelivery(s, run) ||
            (i < |After(s, run).slots| && After(s, run).slots[i].Gone? && After(s, run).slots[i].r.removeAsked)
    decreases |run|
  {
    if run != [] && !Delivers(s, run[0]) {
      var t := Next(s, run[0]);
      AllOkStep(s, run[0]);
      AheadStep(s, run[0], i);
      if Waits(t, i) {
        AheadDelivers(t, run[1..], i);
      } else {
        GoneStays(t, run[1..], i);
      }
    }
  }

  /**
   A resource that waits for its done call when a poll begins either sees some done call delivered
   before the poll is over or is removed because its removal was asked for. The workers, the
   clock, the file monitor and the callbacks may do anything meanwhile.
   */
  lemma PollMustDeliver(s: Man, run: seq<Action>, i: nat)
    requires Reachable(s) && s.hasDone && s.main.Idle? && Waits(s, i)
    requires Possible(s, run) && run != [] && run[0] == BeginPoll
    requires After(s, run).main.Idle? && !After(s, run).faulted
    ensures SomeDelivery(s, run) ||
            (i < |After(s, run).slots| && After(s, run).slots[i].Gone? && After(s, run).slots[i].r.removeAsked)
  {
    ReachableHolds(s);
    AllOkStep(s, run[0]);
    AheadDelivers(Next(s, run[0]), run[1..], i);
  }

  /* ---- progress, poll by poll ---- */

  /** No job of the run gets to the end of its load. */
  ghost predicate NoFinish(s: Man, run: seq<Action>)
    requires Possible(s, run)
    decreases |run|
  {
    run != [] ==>
      && !(run[0].TaskStep? && s.tasks[run[0].task].phase.Loaded?)
      && NoFinish(Next(s, run[0]), run[1..])
  }

  lemma {:induction false} WaitsBefore(s: Man, a: Action, i: nat)
    requires Enabled(s, a) && !(a.TaskStep? && s.tasks[a.task].phase.Loaded?)
    requires Waits(Next(s, a), i)
    ensures Waits(s, i)
  {
    if i < |s.slots| {
      StepEffect(s, a, Next(s, a), i);
    }
  }

  lemma DeliveredWaitsNot(s: Man, a: Action)
    requires Enabled(s, a) && Delivers(s, a)
    ensures Waits(s, s.main.i) && !Waits(Next(s, a), s.main.i)
  {
  }

  /** Without a finished load nobody starts to wait, and a done call ends a wait. */
  lemma WaitingStep(s: Man, a: Action)
    requires Enabled(s, a) && !(a.TaskStep? && s.tasks[a.task].phase.Loaded?)
    ensures Waiting(Next(s, a)) <= Waiting(s)
    ensures Delivers(s, a) ==> s.main.i in Waiting(s) && s.main.i !in Waiting(Next(s, a))
  {
    forall i | i in Waiting(Next(s, a)) ensures i in Waiting(s) {
      WaitsBefore(s, a, i);
    }
    if Delivers(s, a) {
      DeliveredWaitsNot(s, a);
    }
  }

  lemma {:induction false} WaitingShrinks(s: Man, run: seq<Action>)
    requires AllOk(s) && Possible(s, run) && NoFinish(s, run) && !After(s, run).faulted
    ensures Waiting(After(s, run)) <= Waiting(s)
    ensures SomeDelivery(s, run) ==> Waiting(After(s, run)) < Waiting(s)
    decreases |run|
  {
    if run != [] {
      var t := Next(s, run[0]);
      WaitingStep(s, run[0]);
      AllOkStep(s, run[0]);
      WaitingShrinks(t, run[1..]);
    }
  }

  /** From the beginning of a poll to an idle moment with no load finishing. */
  ghost predicate Round(s: Man, run: seq<Action>) {
    && s.main.Idle? && run != [] && run[0] == BeginPoll
    && Possible(s, run) && After(s, run).main.Idle? && !After(s, run).faulted && NoFinish(s, run)
  }

  /** As long as any resource waits for its done call, every such round leaves fewer that do. */
  lemma RoundProgress(s: Man, run: seq<Action>)
    requires Reachable(s) && s.hasDone && Round(s, run)
    ensures Waiting(After(s, run)) <= Waiting(s)
    ensures Waiting(s) != {} ==> Waiting(After(s, run)) < Waiting(s)
  {
    ReachableHolds(s);
    WaitingShrinks(s, run);
    if Waiting(s) != {} {
      var i: nat :| i in Waiting(s);
      PollMustDeliver(s, run, i);
      assert SomeDelivery(s, run) || i !in Waiting(After(s, run));
    }
  }

  ghost predicate Rounds(s: Man, runs: seq<seq<Action>>)
    decreases |runs|
  {
    runs != [] ==> Round(s, runs[0]) && Rounds(After(s, runs[0]), runs[1..])
  }

  ghost function AfterRounds(s: Man, runs: seq<seq<Action>>): Man
    requires Rounds(s, runs)
    decreases |runs|
  {
    if runs == [] then s else AfterRounds(After(s, runs[0]), runs[1..])
  }

  /** As many polls as there are waiting resources leave none waiting. */
  lemma {:induction false} RoundsDrain(s: Man, runs: seq<seq<Action>>)
    requires Reachable(s) && s.hasDone && Rounds(s, runs) && |runs| >= |Waiting(s)|
    ensures Waiting(AfterRounds(s, runs)) == {}
    decreases |runs|
  {
    if runs != [] {
      var t := After(s, runs[0]);
      RoundProgress(s, runs[0]);
      ReachableExtends(s, runs[0]);
      ModeKept(s, runs[0]);
      if Waiting(s) != {} {
        SmallerSet(Waiting(t), Waiting(s));
      }
      RoundsDrain(t, runs[1..]);
    }
  }

  lemma SmallerSet(a: set<nat>, b: set<nat>)
    requires a < b
    ensures |a| < |b|
  {
    assert b == a + (b - a);
  }

  /* ---- exactly when a poll delivers ---- */

  /** The deletions at the start of a poll spare the resource. */
  ghost predicate Spared(s: Man, i: nat) {
    Waits(s, i) && !DeleteDue(s.slots[i].r) && s.main != DeleteRemoving(i)
  }

  lemma {:induction false} SparedStep(s: Man, a: Action, i: nat)
    requires SlotsOk(s) && Enabled(s, a) && !Next(s, a).faulted && s.hasDone
    requires Ahead(s.main, i) && Spared(s, i) && !Delivers(s, a)
    requires !a.Remove? && !(a.TaskStep? && s.tasks[a.task].phase.Loaded?)
    ensures Ahead(Next(s, a).main, i) && Spared(Next(s, a), i)
  {
    AheadStep(s, a, i);
    StepEffect(s, a, Next(s, a), i);
    RemovalStep(s, a, i);
  }

  lemma {:induction false} SparedDelivers(s: Man, run: seq<Action>, i: nat)
    requires AllOk(s) && s.hasDone && Possible(s, run) && Ahead(s.main, i) && Spared(s, i)
    requires NoFinish(s, run) && forall k :: 0 <= k < |run| ==> !run[k].Remove?
    requires After(s, run).main.Idle? && !After(s, run).faulted
    ensures SomeDelivery(s, run)
    decreases |run|
  {
    if run != [] && !Delivers(s, run[0]) {
      AllOkStep(s, run[0]);
      SparedStep(s, run[0], i);
      SparedDelivers(Next(s, run[0]), run[1..], i);
    }
  }

  /** Every waiting resource is due for deletion and still ahead in the first loop. */
  ghost predicate Doomed(s: Man) {
    forall i: nat :: Waits(s, i) ==>
      DeleteDue(s.slots[i].r) && (s.main.Deleting? || s.main.DeleteRemoving?) && s.main.i <= i
  }

  lemma DoomedStep(s: Man, a: Action)
    requires AllOk(s) && Enabled(s, a) && !Next(s, a).faulted && Doomed(s)
    requires !(a.TaskStep? && s.tasks[a.task].phase.Loaded?)
    ensures Doomed(Next(s, a)) && !Delivers(s, a)
  {
    var t := Next(s, a);
    forall i: nat | Waits(t, i)
      ensures DeleteDue(t.slots[i].r) && (t.main.Deleting? || t.main.DeleteRemoving?) && t.main.i <= i
    {
      WaitsBefore(s, a, i);
      StepEffect(s, a, t, i);
    }
  }

  lemma {:induction false} DoomedDeliversNot(s: Man, run: seq<Action>)
    requires AllOk(s) && Possible(s, run) && NoFinish(s, run) && !After(s, run).faulted && Doomed(s)
    ensures !SomeDelivery(s, run)
    decreases |run|
  {
    if run != [] {
      AllOkStep(s, run[0]);
      DoomedStep(s, run[0]);
      DoomedDeliversNot(Next(s, run[0]), run[1..]);
    }
  }

  /**
   A poll during which no load finishes and no removal is asked for delivers a done call if and only
   if some resource waits for one and is not both marked for deletion and without a pending load.
   */
  lemma {:induction false} PollDeliversIff(s: Man, run: seq<Action>)
    requires Reachable(s) && s.hasDone && Round(s, run) && forall k :: 0 <= k < |run| ==> !run[k].Remove?
    ensures SomeDelivery(s, run) <==> exists i: nat :: Waits(s, i) && !DeleteDue(s.slots[i].r)
  {
    ReachableHolds(s);
    AllOkStep(s, run[0]);
    var t := Next(s, run[0]);
    if i: nat :| Waits(s, i) && !DeleteDue(s.slots[i].r) {
      assert Spared(t, i);
      SparedDelivers(t, run[1..], i);
    } else {
      assert Doomed(t);
      DoomedDeliversNot(t, run[1..]);
    }
  }
}
