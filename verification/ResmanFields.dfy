/**
 Field by field: what changes each field of a resource, and to what value. Every statement names the
 step, the callback's return value and the clock, and holds for all steps of all threads.
 */
module ResmanFields {
  import opened ResourceState
  import opened ResmanProtocol

  /** The step is the return of the load callback for the resource in slot `i`. */
  predicate LoadReturns(s: Man, a: Action, i: nat) {
    a.TaskStep? && a.task < |s.tasks| && s.tasks[a.task] == Task(i, Loading)
  }

  /** The step is the last locked region of a load of the resource in slot `i`. */
  predicate LoadEnds(s: Man, a: Action, i: nat) {
    a.TaskStep? && a.task < |s.tasks| && s.tasks[a.task] == Task(i, Loaded)
  }

  /** The step calls the done callback for slot `i`, which returns `a.answer.ret`. */
  predicate DoneCall(s: Man, a: Action, i: nat) {
    a.MainStep? && s.main.Delivering? && s.main.i == i && IsLive(s, i) && s.slots[i].r.donePending
  }

  /** The done callback returns -1 for a resource that was never delivered before. */
  predicate RefusedCall(s: Man, a: Action, i: nat) {
    DoneCall(s, a, i) && a.answer.ret == -1 && s.slots[i].r.numLoads == 0
  }

  /** The second loop of poll comes to a resource that waits for no done call and whose timeout has passed. */
  predicate TimeoutPassed(s: Man, a: Action, i: nat) {
    && a.MainStep? && s.main.Delivering? && s.main.i == i && IsLive(s, i)
    && var r := s.slots[i].r; !r.donePending && 0 < r.reloadTimeout <= s.main.start
  }

  /** The event is about a descriptor whose entry leads to slot `i`. */
  predicate About(s: Man, wd: int, i: nat) {
    wd in s.watches && s.watches[wd] == i
  }

  /** The descriptor that the kernel grants the resource in slot `i`, or 0. */
  function Granted(s: Man, a: Action, i: nat): nat
    requires i < |s.slots|
  {
    match a
    case IgnoredEvent(wd, fd) => if About(s, wd, i) && fd > 0 then fd else 0
    case MainStep(x) =>
      if s.watching && s.slots[i].r.nfd <= 0 && DoneCall(s, a, i) && !RefusedCall(s, a, i) && x.fd > 0 then x.fd else 0
    case TaskStep(_, x) =>
      if s.watching && s.slots[i].r.nfd <= 0 && LoadEnds(s, a, i) && !s.hasDone && s.slots[i].r.result != -1 && x.fd > 0
      then x.fd else 0
    case _ => 0
  }

  /** The flags, the counter and the result: `r` before the step and `q` after it. */
  ghost predicate FlagsOk(s: Man, a: Action, i: nat, r: Resource, q: Resource) {
    && q.pending == (!LoadEnds(s, a, i) && (r.pending || (a.MainStep? && s.main.Reloading? && s.main.res == i)))
    && q.donePending == ((LoadEnds(s, a, i) && s.hasDone) || (r.donePending && !DoneCall(s, a, i)))
    && q.deletePending == (|| r.deletePending || a == Remove(i)
                           || (LoadEnds(s, a, i) && !s.hasDone && r.result == -1 && r.numLoads == 0))
    && q.numLoads == r.numLoads + (if DoneCall(s, a, i) && !RefusedCall(s, a, i) then 1 else 0)
    && q.result == (if LoadReturns(s, a, i) then a.answer.ret else r.result)
  }

  /** The timeout, and the record of what happened to the resource. */
  ghost predicate TimesOk(s: Man, a: Action, i: nat, r: Resource, q: Resource) {
    var edited := a.ModifyEvent? && s.main.Watching? && About(s, a.wd, i);
    && q.reloadTimeout == (if edited then s.main.msec + 128
                           else if (a.CloseWriteEvent? && About(s, a.wd, i)) || TimeoutPassed(s, a, i) then 0
                           else r.reloadTimeout)
    && q.lastModify == (if edited then s.main.msec else r.lastModify)
    && q.edits == (if edited then r.edits + 1 else if TimeoutPassed(s, a, i) then 0 else r.edits)
    && q.finished == r.finished + (if LoadEnds(s, a, i) then 1 else 0)
    && q.unseen == (if LoadEnds(s, a, i) then r.unseen + 1 else if DoneCall(s, a, i) then 0 else r.unseen)
    && q.doneCalls == r.doneCalls + (if DoneCall(s, a, i) then 1 else 0)
    && q.removeAsked == (r.removeAsked || a == Remove(i))
  }

  ghost predicate FieldsOk(s: Man, a: Action, i: nat, t: Man) {
    && i < |s.slots| && i < |t.slots|
    && FlagsOk(s, a, i, s.slots[i].r, t.slots[i].r) && TimesOk(s, a, i, s.slots[i].r, t.slots[i].r)
    && t.slots[i].r.nfd == (if Granted(s, a, i) > 0 then Granted(s, a, i) else s.slots[i].r.nfd)
  }

  /* ---- the second loop of poll ---- */

  /** Starting a watch changes the descriptor of its resource at most. */
  lemma {:induction false} Started(s: Man, i: nat, fd: int)
    requires IsLive(s, i)
    ensures var t, r := StartWatch(s, i, fd), s.slots[i].r;
            && |t.slots| == |s.slots| && (forall j :: 0 <= j < |s.slots| && j != i ==> t.slots[j] == s.slots[j])
            && t.slots[i] == Live(r.(nfd := if s.watching && r.nfd <= 0 && fd > 0 then fd else r.nfd))
  {
  }

  /** The turn of one slot leaves the others alone. */
  lemma {:induction false} DeliverElsewhere(s: Man, x: Answer, i: nat)
    requires Enabled(s, MainStep(x)) && s.main.Delivering? && i < |s.slots| && i != s.main.i
    ensures FieldsOk(s, MainStep(x), i, DeliverNext(s, s.main.i, s.main.start, x))
  {
    var j := s.main.i;
    if IsLive(s, j) {
      Started(SetRes(s, j, DeliverDone(s.slots[j].r, x.ret)), j, x.fd);
    }
    assert DeliverNext(s, j, s.main.start, x).slots[i] == s.slots[i];
  }

  lemma {:induction false} DeliverFields(s: Man, x: Answer, i: nat)
    requires Enabled(s, MainStep(x)) && s.main.Delivering? && i < |s.slots| && i == s.main.i
    ensures FieldsOk(s, MainStep(x), i, DeliverNext(s, i, s.main.start, x))
  {
    if DoneCall(s, MainStep(x), i) {
      Started(SetRes(s, i, DeliverDone(s.slots[i].r, x.ret)), i, x.fd);
    }
  }

  lemma {:induction false} MainFields(s: Man, x: Answer, i: nat)
    requires Enabled(s, MainStep(x)) && !s.main.Delivering? && !MainNext(s, x).faulted && i < |s.slots|
    ensures FieldsOk(s, MainStep(x), i, MainNext(s, x))
  {
    if s.main.Reloading? && s.main.res == i {
      assert MainNext(s, x).slots[i].r == s.slots[i].r.(pending := true);
    } else {
      MainLeavesFields(s, x, i);
    }
  }

  lemma {:induction false} MainLeavesFields(s: Man, x: Answer, i: nat)
    requires Enabled(s, MainStep(x)) && !s.main.Delivering? && !MainNext(s, x).faulted && i < |s.slots|
    requires !(s.main.Reloading? && s.main.res == i)
    ensures i < |MainNext(s, x).slots| && MainNext(s, x).slots[i].r == s.slots[i].r
  {
  }

  /* ---- a load job ---- */

  lemma {:induction false} TaskElsewhere(s: Man, k: nat, x: Answer, i: nat)
    requires Enabled(s, TaskStep(k, x)) && !TaskNext(s, k, x).faulted && i < |s.slots| && i != s.tasks[k].res
    ensures FieldsOk(s, TaskStep(k, x), i, TaskNext(s, k, x))
  {
    var j := s.tasks[k].res;
    Started(SetRes(s, j, FinishLoad(s.slots[j].r, s.hasDone)).(tasks := s.tasks[k := Task(j, Over)]), j, x.fd);
    assert TaskNext(s, k, x).slots[i] == s.slots[i];
  }

  lemma {:induction false} LoadFields(s: Man, k: nat, x: Answer, i: nat)
    requires Enabled(s, TaskStep(k, x)) && !TaskNext(s, k, x).faulted && i < |s.slots|
    requires s.tasks[k] == Task(i, Queued) || s.tasks[k] == Task(i, Loading)
    ensures FieldsOk(s, TaskStep(k, x), i, TaskNext(s, k, x))
  {
    assert TaskNext(s, k, x).slots[i].r
        == if s.tasks[k].phase.Loading? then s.slots[i].r.(result := x.ret) else s.slots[i].r;
  }

  lemma {:induction false} EndFields(s: Man, k: nat, x: Answer, i: nat)
    requires Enabled(s, TaskStep(k, x)) && !TaskNext(s, k, x).faulted && i < |s.slots|
    requires s.tasks[k] == Task(i, Loaded)
    ensures FieldsOk(s, TaskStep(k, x), i, TaskNext(s, k, x))
  {
    var r := s.slots[i].r;
    var f := FinishLoad(r, s.hasDone);
    var u := SetRes(s, i, f).(tasks := s.tasks[k := Task(i, Over)]);
    Started(u, i, x.fd);
    assert u.slots[i] == Live(f) && |u.slots| == |s.slots|;
    assert LoadEnds(s, TaskStep(k, x), i) && !LoadReturns(s, TaskStep(k, x), i);
  }

  /* ---- the file events and the callers ---- */

  lemma {:induction false} RestartFields(s: Man, wd: int, fd: int, i: nat)
    requires Enabled(s, IgnoredEvent(wd, fd)) && !Next(s, IgnoredEvent(wd, fd)).faulted && i < |s.slots|
    ensures FieldsOk(s, IgnoredEvent(wd, fd), i, Next(s, IgnoredEvent(wd, fd)))
  {
  }

  lemma {:induction false} ModifyFields(s: Man, wd: int, i: nat)
    requires Enabled(s, ModifyEvent(wd)) && !Next(s, ModifyEvent(wd)).faulted && i < |s.slots|
    ensures FieldsOk(s, ModifyEvent(wd), i, Next(s, ModifyEvent(wd)))
  {
  }

  lemma {:induction false} CloseFields(s: Man, wd: int, i: nat)
    requires Enabled(s, CloseWriteEvent(wd)) && !Next(s, CloseWriteEvent(wd)).faulted && i < |s.slots|
    ensures FieldsOk(s, CloseWriteEvent(wd), i, Next(s, CloseWriteEvent(wd)))
  {
  }

  lemma {:induction false} CallFields(s: Man, a: Action, i: nat)
    requires Enabled(s, a) && !Next(s, a).faulted && i < |s.slots|
    requires a.Add? || a.Remove? || a.BeginPoll? || a.ReloadModified?
    ensures FieldsOk(s, a, i, Next(s, a))
  {
  }

  /** What any step does to each field of any resource. */
  lemma {:induction false} StepFields(s: Man, a: Action, i: nat)
    requires Enabled(s, a) && !Next(s, a).faulted && i < |s.slots|
    ensures FieldsOk(s, a, i, Next(s, a))
  {
    match a
    case MainStep(x) =>
      if !s.main.Delivering? {
        MainFields(s, x, i);
      } else if i != s.main.i {
        DeliverElsewhere(s, x, i);
      } else {
        DeliverFields(s, x, i);
      }
    case TaskStep(k, x) =>
      if i != s.tasks[k].res {
        TaskElsewhere(s, k, x, i);
      } else {
        assert s.tasks[k] == Task(i, s.tasks[k].phase);
        if s.tasks[k].phase.Loaded? { EndFields(s, k, x, i); } else { LoadFields(s, k, x, i); }
      }
    case IgnoredEvent(wd, fd) => RestartFields(s, wd, fd, i);
    case ModifyEvent(wd) => ModifyFields(s, wd, i);
    case CloseWriteEvent(wd) => CloseFields(s, wd, i);
    case _ => CallFields(s, a, i);
  }
}
