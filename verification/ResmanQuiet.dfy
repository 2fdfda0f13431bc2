/**
 With file watching compiled out (`src/filewatch_dummy.c`) every resource has one load job in its
 life, `pending` says exactly whether that job is outstanding, and nothing is freed under a job.
 */
module ResmanQuiet {
  import opened ResourceState
  import opened ResmanProtocol
  import opened ResmanInvariants

  /** No watch, no timeout, and a loaded resource is no longer pending. */
  ghost predicate Unwatched(r: Resource) {
    r.reloadTimeout == 0 && r.nfd == 0 && (r.donePending ==> !r.pending)
  }

  ghost predicate OneJobEach(tasks: seq<Task>) {
    forall j, k :: 0 <= j < k < |tasks| ==> tasks[j].res != tasks[k].res
  }

  ghost predicate NoJob(tasks: seq<Task>, i: nat) {
    forall k :: 0 <= k < |tasks| ==> tasks[k].res != i
  }

  /** The owning thread is in the reload of a new resource. */
  ghost predicate Adding(m: Main) {
    m.Reloading? || m.Enqueueing?
  }

  /** A live resource is unwatched, and pending only for its own job. */
  ghost predicate QuietSlot(s: Man, i: nat) {
    IsLive(s, i) ==>
      && Unwatched(s.slots[i].r)
      && (s.slots[i].r.pending ==> Outstanding(s, i) || s.main == Enqueueing(i, ToIdle))
  }

  ghost predicate JobsOk(s: Man) {
    && !s.watching && !s.faulted && s.watches == map[]
    && OneJobEach(s.tasks)
    && (forall k :: 0 <= k < |s.tasks| ==> s.tasks[k].res < |s.slots|)
    && (forall k :: 0 <= k < |s.tasks| && !s.tasks[k].phase.Over? ==>
          IsLive(s, s.tasks[k].res) && s.slots[s.tasks[k].res].r.pending)
    && (forall i: nat :: QuietSlot(s, i))
    && (Adding(s.main) ==> s.main.back.ToIdle? && IsLive(s, s.main.res) && NoJob(s.tasks, s.main.res))
    && (s.main.Reloading? ==> !s.slots[s.main.res].r.pending && !s.slots[s.main.res].r.donePending)
    && (s.main.Enqueueing? ==> s.slots[s.main.res].r.pending)
    && (s.main.DeleteRemoving? || s.main.DoneRemoving? ==> IsLive(s, s.main.i) && !s.slots[s.main.i].r.pending)
    && !s.main.Watching? && !s.main.Modified?
  }

  /** A slot stays in order when its resource and its job do. */
  lemma QuietSlotKept(s: Man, t: Man, i: nat)
    requires QuietSlot(s, i) && (IsLive(t, i) ==> IsLive(s, i) && Unwatched(t.slots[i].r))
    requires IsLive(t, i) && t.slots[i].r.pending ==> s.slots[i].r.pending
    requires IsLive(t, i) && t.slots[i].r.pending ==> (s.main == Enqueueing(i, ToIdle) ==> t.main == s.main)
    requires |t.tasks| >= |s.tasks|
    requires IsLive(t, i) && t.slots[i].r.pending ==>
               forall k :: 0 <= k < |s.tasks| && s.tasks[k].res == i && !s.tasks[k].phase.Over? ==>
                 t.tasks[k].res == i && !t.tasks[k].phase.Over?
    ensures QuietSlot(t, i)
  {
  }

  /** Whatever the owning thread does next, apart from reloading and removing, keeps the jobs alone. */
  lemma MoveQuiet(s: Man, m: Main)
    requires JobsOk(s) && !Adding(s.main)
    requires !Adding(m) && !m.Watching? && !m.Modified?
    requires m.DeleteRemoving? || m.DoneRemoving? ==> IsLive(s, m.i) && !s.slots[m.i].r.pending
    ensures JobsOk(s.(main := m))
  {
    forall i: nat ensures QuietSlot(s.(main := m), i) {
      assert QuietSlot(s, i);
      QuietSlotKept(s, s.(main := m), i);
    }
  }

  /** A live resource that keeps its pending mark and its lack of a watch. */
  lemma SetResQuiet(s: Man, i: nat, r: Resource)
    requires JobsOk(s) && IsLive(s, i) && Unwatched(r) && r.pending == s.slots[i].r.pending
    requires s.main.Reloading? ==> r.donePending == s.slots[i].r.donePending
    ensures JobsOk(SetRes(s, i, r))
  {
    var t := SetRes(s, i, r);
    forall j: nat ensures QuietSlot(t, j) {
      assert QuietSlot(s, j);
      QuietSlotKept(s, t, j);
    }
  }

  /** A resource that is not pending can go: no job refers to it. */
  lemma RemoveQuiet(s: Man, i: nat, m: Main)
    requires JobsOk(s) && IsLive(s, i) && !s.slots[i].r.pending
    requires s.main.DeleteRemoving? || s.main.DoneRemoving?
    requires m.Deleting? || m.Delivering?
    ensures !Outstanding(s, i) && !RemoveResource(s, i).faulted
    ensures JobsOk(RemoveResource(s, i).(main := m))
  {
    assert QuietSlot(s, i);
    var t := RemoveResource(s, i).(main := m);
    forall j: nat ensures QuietSlot(t, j) {
      assert QuietSlot(s, j);
      QuietSlotKept(s, t, j);
    }
  }

  /** The two steps of a reload. */
  lemma ReloadQuiet(s: Man, x: Answer)
    requires JobsOk(s) && Adding(s.main)
    ensures JobsOk(MainNext(s, x))
  {
    var i := s.main.res;
    var t := MainNext(s, x);
    if s.main.Enqueueing? {
      assert t.tasks[|s.tasks|] == Task(i, Queued);
    }
    forall j: nat ensures QuietSlot(t, j) {
      assert QuietSlot(s, j);
      if j != i { QuietSlotKept(s, t, j); }
    }
  }

  lemma MainQuiet(s: Man, x: Answer)
    requires JobsOk(s) && Enabled(s, MainStep(x))
    ensures JobsOk(MainNext(s, x))
  {
    match s.main
    case Reloading(_, _) => ReloadQuiet(s, x);
    case Enqueueing(_, _) => ReloadQuiet(s, x);
    case Deleting(i) =>
      assert i < |s.slots| && s.slots[i].Live? ==> IsLive(s, i);
      MoveQuiet(s, MainNext(s, x).main);
    case DeleteRemoving(i) => RemoveQuiet(s, i, Deleting(i + 1));
    case DoneRemoving(i, start) => RemoveQuiet(s, i, Delivering(i + 1, start));
    case Delivering(i, start) => DeliverQuiet(s, i, start, x);
    case _ =>
  }

  lemma DeliverQuiet(s: Man, i: nat, start: nat, x: Answer)
    requires JobsOk(s) && s.main == Delivering(i, start)
    ensures JobsOk(DeliverNext(s, i, start, x))
  {
    var m := DeliverNext(s, i, start, x).main;
    if i < |s.slots| && s.slots[i].Live? {
      assert QuietSlot(s, i);
      var r := s.slots[i].r;
      if r.donePending {
        var d := DeliverDone(r, x.ret);
        SetResQuiet(s, i, d);
        MoveQuiet(SetRes(s, i, d), m);
      } else {
        MoveQuiet(s, m);
      }
    } else {
      MoveQuiet(s, m);
    }
  }

  /** A job that goes on but is not over. */
  lemma PhaseQuiet(s: Man, k: nat, p: Phase)
    requires JobsOk(s) && k < |s.tasks| && !s.tasks[k].phase.Over? && !p.Over?
    ensures JobsOk(s.(tasks := s.tasks[k := Task(s.tasks[k].res, p)]))
  {
    var t := s.(tasks := s.tasks[k := Task(s.tasks[k].res, p)]);
    forall j: nat ensures QuietSlot(t, j) {
      assert QuietSlot(s, j);
      QuietSlotKept(s, t, j);
    }
  }

  /** The job is over and its resource no longer pending. */
  lemma FinishQuiet(s: Man, k: nat, r: Resource)
    requires JobsOk(s) && k < |s.tasks| && !s.tasks[k].phase.Over?
    requires Unwatched(r) && !r.pending
    ensures IsLive(s, s.tasks[k].res)
    ensures JobsOk(SetRes(s, s.tasks[k].res, r).(tasks := s.tasks[k := Task(s.tasks[k].res, Over)]))
  {
    var i := s.tasks[k].res;
    var t := SetRes(s, i, r).(tasks := s.tasks[k := Task(i, Over)]);
    forall l | 0 <= l < |t.tasks| && l != k ensures t.tasks[l] == s.tasks[l] && t.tasks[l].res != i {
      assert l < k || k < l;
    }
    forall j: nat ensures QuietSlot(t, j) {
      assert QuietSlot(s, j);
      QuietSlotKept(s, t, j);
    }
  }

  lemma TaskQuiet(s: Man, k: nat, x: Answer)
    requires JobsOk(s) && Enabled(s, TaskStep(k, x))
    ensures JobsOk(TaskNext(s, k, x))
  {
    var i := s.tasks[k].res;
    assert QuietSlot(s, i);
    match s.tasks[k].phase
    case Queued => PhaseQuiet(s, k, Loading);
    case Loading =>
      var r := SetResult(s.slots[i].r, x.ret);
      SetResQuiet(s, i, r);
      PhaseQuiet(SetRes(s, i, r), k, Loaded);
    case Loaded => FinishQuiet(s, k, FinishLoad(s.slots[i].r, s.hasDone));
    case Over =>
  }

  lemma QuietStep(s: Man, a: Action)
    requires JobsOk(s) && Enabled(s, a)
    ensures JobsOk(Next(s, a))
  {
    match a
    case Add => AddQuiet(s);
    case Remove(i) =>
      assert QuietSlot(s, i);
      SetResQuiet(s, i, AskRemove(s.slots[i].r));
    case BeginPoll => MoveQuiet(s, Deleting(0));
    case MainStep(x) => MainQuiet(s, x);
    case TaskStep(k, x) => TaskQuiet(s, k, x);
    case _ =>
  }

  lemma AddQuiet(s: Man)
    requires JobsOk(s) && Enabled(s, Add)
    ensures JobsOk(Next(s, Add))
  {
    var t := Next(s, Add);
    forall j: nat ensures QuietSlot(t, j) {
      assert QuietSlot(s, j);
      if j < |s.slots| { QuietSlotKept(s, t, j); }
    }
  }
}
