/** When the watch table leads from a descriptor to the resource that holds it, and when it does not. */
module ResmanWatches {
  import opened ResourceState
  import opened ResmanProtocol
  import opened ResmanTheorems

  /** The step starts a watch that the kernel answers with `wd`. */
  ghost predicate Starts(s: Man, a: Action, wd: int) {
    && Enabled(s, a) && s.watching && wd > 0
    && match a
       case MainStep(x) =>
         && x.fd == wd && s.main.Delivering? && IsLive(s, s.main.i)
         && var r := s.slots[s.main.i].r; r.donePending && !Refused(r, x.ret) && r.nfd <= 0
       case TaskStep(k, x) =>
         && x.fd == wd && s.tasks[k].phase.Loaded? && IsLive(s, s.tasks[k].res) && !s.hasDone
         && var r := s.slots[s.tasks[k].res].r; r.result != FAILED && r.nfd <= 0
       case IgnoredEvent(was, fd) => fd == wd && was in s.watches && IsLive(s, s.watches[was])
       case _ => false
  }

  /** The step restarts the watch of the resource that holds `wd` and leaves the entry under `wd` behind. */
  ghost predicate Leaves(s: Man, a: Action, wd: int) {
    && a.IgnoredEvent? && a.fd > 0 && a.wd in s.watches && IsLive(s, s.watches[a.wd])
    && s.slots[s.watches[a.wd]].r.nfd == wd && wd in s.watches && s.watches[wd] == s.watches[a.wd]
  }

  /** Some step of the run left the entry under `wd` behind, and no later one started a watch with it. */
  ghost predicate LeftBehind(s: Man, run: seq<Action>, wd: int, before: bool)
    requires Possible(s, run)
    decreases |run|
  {
    if run == [] then before
    else
      var after := !Starts(s, run[0], wd) && (before || Leaves(s, run[0], wd));
      LeftBehind(Next(s, run[0]), run[1..], wd, after)
  }

  /** `left` says exactly whether the entry under `wd`, if there is one, does not belong to its resource. */
  ghost predicate EntryOk(s: Man, wd: int, left: bool) {
    wd in s.watches ==> (Belongs(s, wd) <==> !left)
  }

  lemma EntryDeliver(s: Man, x: Answer, wd: int, left: bool)
    requires AllOk(s) && Enabled(s, MainStep(x)) && s.main.Delivering? && EntryOk(s, wd, left)
    ensures EntryOk(DeliverNext(s, s.main.i, s.main.start, x), wd, !Starts(s, MainStep(x), wd) && left)
  {
  }

  lemma EntryRemove(s: Man, i: nat, wd: int, left: bool)
    requires AllOk(s) && IsLive(s, i) && !s.faulted && !RemoveResource(s, i).faulted && EntryOk(s, wd, left)
    ensures EntryOk(RemoveResource(s, i), wd, left)
  {
  }

  lemma EntryMain(s: Man, x: Answer, wd: int, left: bool)
    requires AllOk(s) && Enabled(s, MainStep(x)) && !MainNext(s, x).faulted && EntryOk(s, wd, left)
    ensures EntryOk(MainNext(s, x), wd, !Starts(s, MainStep(x), wd) && left)
  {
    if s.main.Delivering? {
      EntryDeliver(s, x, wd, left);
    } else if s.main.DeleteRemoving? || s.main.DoneRemoving? {
      EntryRemove(s, s.main.i, wd, left);
    } else {
      var t := MainNext(s, x);
      assert t.watches == s.watches && |t.slots| == |s.slots|;
      assert s.main.Reloading? || t.slots == s.slots;
    }
  }

  lemma EntryTask(s: Man, k: nat, x: Answer, wd: int, left: bool)
    requires AllOk(s) && Enabled(s, TaskStep(k, x)) && !TaskNext(s, k, x).faulted && EntryOk(s, wd, left)
    ensures EntryOk(TaskNext(s, k, x), wd, !Starts(s, TaskStep(k, x), wd) && left)
  {
  }

  lemma EntryRestart(s: Man, was: int, fd: int, wd: int, left: bool)
    requires AllOk(s) && Enabled(s, IgnoredEvent(was, fd)) && was in s.watches
    requires !Restart(s, s.watches[was], fd).faulted && EntryOk(s, wd, left)
    ensures var a := IgnoredEvent(was, fd);
            EntryOk(Restart(s, s.watches[was], fd), wd, !Starts(s, a, wd) && (left || Leaves(s, a, wd)))
  {
  }

  lemma EntryStep(s: Man, a: Action, wd: int, left: bool)
    requires AllOk(s) && Enabled(s, a) && !Next(s, a).faulted && EntryOk(s, wd, left)
    ensures EntryOk(Next(s, a), wd, !Starts(s, a, wd) && (left || Leaves(s, a, wd)))
  {
    match a
    case MainStep(x) => EntryMain(s, x, wd, left);
    case TaskStep(k, x) => EntryTask(s, k, x, wd, left);
    case IgnoredEvent(was, fd) => if was in s.watches { EntryRestart(s, was, fd, wd, left); }
    case _ =>
  }

  lemma {:induction false} EntryRun(s: Man, run: seq<Action>, wd: int, left: bool)
    requires AllOk(s) && Possible(s, run) && !After(s, run).faulted && EntryOk(s, wd, left)
    ensures EntryOk(After(s, run), wd, LeftBehind(s, run, wd, left))
    decreases |run|
  {
    if run != [] {
      AllOkStep(s, run[0]);
      EntryStep(s, run[0], wd, left);
      EntryRun(Next(s, run[0]), run[1..], wd, !Starts(s, run[0], wd) && (left || Leaves(s, run[0], wd)));
    }
  }

  /**
   After any run an entry of the watch table leads to a live resource that holds its descriptor if
   and only if no restart has left the entry behind since a watch was last started with it.
   */
  lemma WatchTableConsistent(hasDone: bool, watching: bool, run: seq<Action>, wd: int)
    requires Possible(Initial(hasDone, watching), run)
    requires var s := After(Initial(hasDone, watching), run); !s.faulted && wd in s.watches
    ensures Belongs(After(Initial(hasDone, watching), run), wd)
            <==> !LeftBehind(Initial(hasDone, watching), run, wd, false)
  {
    EntryRun(Initial(hasDone, watching), run, wd, false);
  }

  lemma {:induction false} NoneLeft(s: Man, run: seq<Action>, wd: int)
    requires Possible(s, run) && forall k :: 0 <= k < |run| ==> !run[k].IgnoredEvent?
    ensures !LeftBehind(s, run, wd, false)
    decreases |run|
  {
    if run != [] {
      NoneLeft(Next(s, run[0]), run[1..], wd);
    }
  }

  /** As long as the kernel drops no watch, every entry belongs to its resource. */
  lemma ConsistentUntilDropped(hasDone: bool, watching: bool, run: seq<Action>, wd: int)
    requires Possible(Initial(hasDone, watching), run) && forall k :: 0 <= k < |run| ==> !run[k].IgnoredEvent?
    requires var s := After(Initial(hasDone, watching), run); !s.faulted && wd in s.watches
    ensures Belongs(After(Initial(hasDone, watching), run), wd)
  {
    WatchTableConsistent(hasDone, watching, run, wd);
    NoneLeft(Initial(hasDone, watching), run, wd);
  }

  /** The assertion of `reload_modified` fails exactly for a descriptor whose entry was left behind. */
  lemma ReloadAssertFails(hasDone: bool, watching: bool, run: seq<Action>, wd: int)
    requires Possible(Initial(hasDone, watching), run)
    requires Enabled(After(Initial(hasDone, watching), run), ReloadModified(wd))
    ensures var s := After(Initial(hasDone, watching), run);
            Next(s, ReloadModified(wd)).faulted
            <==> wd in s.watches && LeftBehind(Initial(hasDone, watching), run, wd, false)
  {
    if wd in After(Initial(hasDone, watching), run).watches {
      WatchTableConsistent(hasDone, watching, run, wd);
    }
  }
}
