/**
 `src/resman.c` with `src/filewatch_linux.c` as an interleaved step system: the thread that owns the
 resource manager, and the load jobs that the pool's workers run.

 A region locked by `res->lock` is one step. With `watching` off the file monitor is the one of
 `src/filewatch_dummy.c`. A step that would touch a freed resource, or a null pointer inside the
 watch table, or fail an assertion, sets `faulted`; nothing happens after that.
 */
module ResmanProtocol {
  import opened Options
  import opened ResourceState

  /** A slot of the resource array; `Gone` is the null pointer, with a record of what was there. */
  datatype Slot = Live(r: Resource) | Gone(r: Resource)

  datatype Phase = Queued | Loading | Loaded | Over

  /** A load job from its enqueueing on. */
  datatype Task = Task(res: nat, phase: Phase)

  /** Where `resman_reload` returns to. */
  datatype Back = ToIdle | ToModified(rest: set<int>) | ToDelivering(i: nat, start: nat)

  /** Where the owning thread is. */
  datatype Main =
    | Idle
    | Reloading(res: nat, back: Back)      // in resman_reload, about to set pending
    | Enqueueing(res: nat, back: Back)     // in resman_reload, about to enqueue the job
    | Deleting(i: nat)                     // poll's first loop
    | DeleteRemoving(i: nat)               // about to remove what the first loop chose
    | Watching(msec: nat, modset: set<int>)
    | Modified(rest: set<int>)             // reloading the modified set
    | Delivering(i: nat, start: nat)       // poll's second loop
    | DoneRemoving(i: nat, start: nat)     // about to remove what the done callback refused

  /** `watches` is the table from watch descriptors to resources. */
  datatype Man = Man(hasDone: bool, watching: bool, slots: seq<Slot>, main: Main, tasks: seq<Task>,
                     watches: map<int, nat>, faulted: bool)

  function Initial(hasDone: bool, watching: bool): Man {
    Man(hasDone, watching, [], Idle, [], map[], false)
  }

  /** What the callbacks, the clock and the kernel answer during a step. */
  datatype Answer = Answer(now: nat, ret: int, fd: int, late: bool)

  datatype Action =
    | Add
    | Remove(res: nat)
    | BeginPoll
    | MainStep(answer: Answer)
    | ModifyEvent(wd: int)
    | CloseWriteEvent(wd: int)
    | IgnoredEvent(wd: int, fd: int)   // the kernel dropped a watch; it answers the new one with `fd`
    | ReloadModified(wd: int)
    | TaskStep(task: nat, answer: Answer)

  predicate IsLive(s: Man, i: nat) {
    i < |s.slots| && s.slots[i].Live?
  }

  predicate Enabled(s: Man, a: Action) {
    && !s.faulted
    && match a
       case Add => s.main.Idle? && forall i :: 0 <= i < |s.slots| ==> s.slots[i].Live?
       case Remove(i) => IsLive(s, i)
       case BeginPoll => s.main.Idle?
       case MainStep(_) => !s.main.Idle? && (s.main.Modified? ==> s.main.rest == {})
       case ModifyEvent(_) => s.main.Watching?
       case CloseWriteEvent(_) => s.main.Watching?
       case IgnoredEvent(_, _) => s.main.Watching?
       case ReloadModified(wd) => s.main.Modified? && wd in s.main.rest
       case TaskStep(k, _) => k < |s.tasks| && !s.tasks[k].phase.Over?
  }

  function SetRes(s: Man, i: nat, r: Resource): Man
    requires IsLive(s, i)
  {
    s.(slots := s.slots[i := Live(r)])
  }

  /** `resman_start_watch`, where the kernel answers with descriptor `fd`. */
  function StartWatch(s: Man, i: nat, fd: int): Man
    requires IsLive(s, i)
  {
    var r := s.slots[i].r;
    if !s.watching || r.nfd > 0 || fd <= 0 then s
    else SetRes(s, i, r.(nfd := fd)).(watches := s.watches[fd := i])
  }

  /** `resman_stop_watch`: deleting an absent or the last key of the table is a null dereference. */
  function StopWatch(watches: map<int, nat>, nfd: int): Option<map<int, nat>> {
    if nfd <= 0 then Some(watches)
    else if nfd in watches && |watches| >= 2 then Some(watches - {nfd})
    else None
  }

  /** `remove_resource` */
  function RemoveResource(s: Man, i: nat): Man
    requires IsLive(s, i)
  {
    var w := StopWatch(s.watches, s.slots[i].r.nfd);
    if w.None? then s.(faulted := true)
    else s.(watches := w.value, slots := s.slots[i := Gone(s.slots[i].r)])
  }

  /** The entry of the watch table under `wd` leads to a live resource that holds this descriptor. */
  predicate Belongs(s: Man, wd: int) {
    wd in s.watches && IsLive(s, s.watches[wd]) && s.slots[s.watches[wd]].r.nfd == wd
  }

  /**
   The branch of `resman_check_watch` for a dropped watch. The new descriptor joins the table and
   the modified set and the old one stays; without a new descriptor the watch is stopped.
   */
  function Restart(s: Man, i: nat, fd: int): Man
    requires s.main.Watching?
  {
    if !IsLive(s, i) then s.(faulted := true)
    else
      var r := s.slots[i].r;
      if fd > 0 then
        SetRes(s, i, r.(nfd := fd)).(watches := s.watches[fd := i], main := s.main.(modset := s.main.modset + {fd}))
      else
        var w := StopWatch(s.watches, r.nfd);
        if w.None? then s.(faulted := true) else s.(watches := w.value)
  }

  function Resume(back: Back): Main {
    match back
    case ToIdle => Idle
    case ToModified(rest) => Modified(rest)
    case ToDelivering(i, start) => Delivering(i, start)
  }

  /** A step of the thread that owns the manager. */
  function MainNext(s: Man, x: Answer): Man
    requires Enabled(s, MainStep(x))
  {
    match s.main
    case Idle => s
    case Reloading(i, back) =>
      if !IsLive(s, i) then s.(faulted := true)
      else SetRes(s, i, SetPending(s.slots[i].r)).(main := Enqueueing(i, back))
    case Enqueueing(i, back) => s.(tasks := s.tasks + [Task(i, Queued)], main := Resume(back))
    case Deleting(i) =>
      if i >= |s.slots| then
        s.(main := if s.watching then Watching(x.now, {}) else if s.hasDone then Delivering(0, x.now) else Idle)
      else if s.slots[i].Live? && DeleteDue(s.slots[i].r) then s.(main := DeleteRemoving(i))
      else s.(main := Deleting(i + 1))
    case DeleteRemoving(i) =>
      if !IsLive(s, i) then s.(faulted := true) else RemoveResource(s, i).(main := Deleting(i + 1))
    case Watching(_, modset) => s.(main := Modified(modset))
    case Modified(_) => s.(main := if s.hasDone then Delivering(0, x.now) else Idle)
    case Delivering(i, start) => DeliverNext(s, i, start, x)
    case DoneRemoving(i, start) =>
      if !IsLive(s, i) then s.(faulted := true) else RemoveResource(s, i).(main := Delivering(i + 1, start))
  }

  /** One turn of the second loop of `resman_poll`. */
  function DeliverNext(s: Man, i: nat, start: nat, x: Answer): Man {
    if i >= |s.slots| then s.(main := Idle)
    else if s.slots[i].Gone? then s.(main := Delivering(i + 1, start))
    else
      var r := s.slots[i].r;
      if !r.donePending then
        if ReloadDue(r, start) then
          SetRes(s, i, DelayedReload(r)).(main := Reloading(i, ToDelivering(i + 1, start)))
        else s.(main := Delivering(i + 1, start))
      else
        var t := SetRes(s, i, DeliverDone(r, x.ret));
        if Refused(r, x.ret) then t.(main := DoneRemoving(i, start))
        else StartWatch(t, i, x.fd).(main := if x.late then Idle else Delivering(i + 1, start))
  }

  /** A step of `work_func` for one job. */
  function TaskNext(s: Man, k: nat, x: Answer): Man
    requires Enabled(s, TaskStep(k, x))
  {
    var i := s.tasks[k].res;
    if !IsLive(s, i) then s.(faulted := true)
    else
      var r := s.slots[i].r;
      match s.tasks[k].phase
      case Queued => s.(tasks := s.tasks[k := Task(i, Loading)])
      case Loading => SetRes(s, i, SetResult(r, x.ret)).(tasks := s.tasks[k := Task(i, Loaded)])
      case Loaded =>
        var t := SetRes(s, i, FinishLoad(r, s.hasDone)).(tasks := s.tasks[k := Task(i, Over)]);
        if !s.hasDone && r.result != FAILED then StartWatch(t, i, x.fd) else t
      case Over => s
  }

  function Next(s: Man, a: Action): Man
    requires Enabled(s, a)
  {
    match a
    case Add => s.(slots := s.slots + [Live(NEW)], main := Reloading(|s.slots|, ToIdle))
    case Remove(i) => SetRes(s, i, AskRemove(s.slots[i].r))
    case BeginPoll => s.(main := Deleting(0))
    case MainStep(x) => MainNext(s, x)
    case ModifyEvent(wd) =>
      if wd in s.watches && IsLive(s, s.watches[wd]) then
        SetRes(s, s.watches[wd], Modify(s.slots[s.watches[wd]].r, s.main.msec))
      else s.(faulted := wd in s.watches)
    case CloseWriteEvent(wd) =>
      if wd in s.watches && IsLive(s, s.watches[wd]) then
        SetRes(s, s.watches[wd], CloseWrite(s.slots[s.watches[wd]].r)).(main := s.main.(modset := s.main.modset + {wd}))
      else s.(faulted := wd in s.watches)
    case IgnoredEvent(wd, fd) => if wd in s.watches then Restart(s, s.watches[wd], fd) else s
    case ReloadModified(wd) =>
      var rest := s.main.rest - {wd};
      if wd !in s.watches then s.(main := Modified(rest))
      else if Belongs(s, wd) then s.(main := Reloading(s.watches[wd], ToModified(rest)))
      else s.(faulted := true)
    case TaskStep(k, x) => TaskNext(s, k, x)
  }

  predicate Possible(s: Man, run: seq<Action>)
    decreases |run|
  {
    run == [] || (Enabled(s, run[0]) && Possible(Next(s, run[0]), run[1..]))
  }

  function After(s: Man, run: seq<Action>): Man
    requires Possible(s, run)
    decreases |run|
  {
    if run == [] then s else After(Next(s, run[0]), run[1..])
  }

  ghost predicate Reachable(s: Man) {
    exists hasDone: bool, watching: bool, run: seq<Action> ::
      Possible(Initial(hasDone, watching), run) && After(Initial(hasDone, watching), run) == s
  }
}
