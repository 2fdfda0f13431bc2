/** Concrete runs of the resource manager that show where a plausible claim fails. */
module ResmanExamples {
  import opened Options
  import opened ResourceState
  import opened ResmanProtocol
  import ResmanTheorems
  import ResmanDelivery
  import ResmanOverlap
  import opened ResmanInvariants
  import PollSpec

  const LOADED := NEW.(finished := 1)
  const DELIVERED := LOADED.(numLoads := 1, doneCalls := 1)
  const WATCHED := DELIVERED.(nfd := 1, deletePending := true, removeAsked := true)

  /** One resource, with a done callback and with file watching. */
  function One(r: Resource, main: Main, tasks: seq<Task>, watches: map<int, nat>): Man {
    Man(true, true, [Live(r)], main, tasks, watches, false)
  }

  lemma Go(s: Man, a: Action, t: Man)
    requires Reachable(s) && Enabled(s, a) && Next(s, a) == t
    ensures Reachable(t)
  {
    ResmanTheorems.ReachableNext(s, a);
  }

  lemma Added()
    ensures Reachable(One(NEW.(pending := true), Idle, [Task(0, Queued)], map[]))
  {
    var x := MainStep(Answer(0, 0, 1, false));
    var s := Initial(true, true);
    assert Possible(s, []) && After(s, []) == s;
    Go(s, Add, One(NEW, Reloading(0, ToIdle), [], map[]));
    Go(One(NEW, Reloading(0, ToIdle), [], map[]), x,
       One(NEW.(pending := true), Enqueueing(0, ToIdle), [], map[]));
    Go(One(NEW.(pending := true), Enqueueing(0, ToIdle), [], map[]), x,
       One(NEW.(pending := true), Idle, [Task(0, Queued)], map[]));
  }

  lemma Finished()
    ensures Reachable(One(LOADED.(donePending := true, unseen := 1), Idle, [Task(0, Over)], map[]))
  {
    var y := TaskStep(0, Answer(0, 0, 1, false));
    var r := NEW.(pending := true);
    Added();
    Go(One(r, Idle, [Task(0, Queued)], map[]), y, One(r, Idle, [Task(0, Loading)], map[]));
    Go(One(r, Idle, [Task(0, Loading)], map[]), y, One(r, Idle, [Task(0, Loaded)], map[]));
    Go(One(r, Idle, [Task(0, Loaded)], map[]), y,
       One(LOADED.(donePending := true, unseen := 1), Idle, [Task(0, Over)], map[]));
  }

  lemma FirstLoop()
    ensures Reachable(One(LOADED.(donePending := true, unseen := 1), Watching(0, {}), [Task(0, Over)], map[]))
  {
    var x := MainStep(Answer(0, 0, 1, false));
    var r, ts := LOADED.(donePending := true, unseen := 1), [Task(0, Over)];
    Finished();
    Go(One(r, Idle, ts, map[]), BeginPoll, One(r, Deleting(0), ts, map[]));
    Go(One(r, Deleting(0), ts, map[]), x, One(r, Deleting(1), ts, map[]));
    Go(One(r, Deleting(1), ts, map[]), x, One(r, Watching(0, {}), ts, map[]));
  }

  lemma Polled()
    ensures Reachable(One(DELIVERED.(nfd := 1), Idle, [Task(0, Over)], map[1 := 0]))
  {
    var x := MainStep(Answer(0, 0, 1, false));
    var r, ts := LOADED.(donePending := true, unseen := 1), [Task(0, Over)];
    FirstLoop();
    Go(One(r, Watching(0, {}), ts, map[]), x, One(r, Modified({}), ts, map[]));
    Go(One(r, Modified({}), ts, map[]), x, One(r, Delivering(0, 0), ts, map[]));
    var q := DELIVERED.(nfd := 1);
    Go(One(r, Delivering(0, 0), ts, map[]), x, One(q, Delivering(1, 0), ts, map[1 := 0]));
    Go(One(q, Delivering(1, 0), ts, map[1 := 0]), x, One(q, Idle, ts, map[1 := 0]));
  }

  /** A resource that is loaded, delivered and watched can be removed only with a fault while it is the only one. */
  lemma LastWatchFaults() returns (s: Man)
    ensures Reachable(s) && !s.faulted && s.main == DeleteRemoving(0) && |s.watches| == 1
    ensures forall x {:trigger MainStep(x)} :: Next(s, MainStep(x)).faulted
  {
    var x := MainStep(Answer(0, 0, 1, false));
    var q, w, ts := DELIVERED.(nfd := 1), map[1 := 0], [Task(0, Over)];
    Polled();
    Go(One(q, Idle, ts, w), Remove(0), One(WATCHED, Idle, ts, w));
    Go(One(WATCHED, Idle, ts, w), BeginPoll, One(WATCHED, Deleting(0), ts, w));
    Go(One(WATCHED, Deleting(0), ts, w), x, One(WATCHED, DeleteRemoving(0), ts, w));
    s := One(WATCHED, DeleteRemoving(0), ts, w);
    assert |s.watches| == |s.watches.Keys| == 1;
  }

  /* ---- a waiting done call that a poll does not deliver ---- */

  const MARKED := LOADED.(donePending := true, unseen := 1, deletePending := true, removeAsked := true)

  /** A resource that waits for its done call is removed by the next poll if its removal was asked for. */
  lemma WaitingButDeleted(start: nat, reply: PollSpec.Reply)
    ensures Reachable(One(MARKED, Idle, [Task(0, Over)], map[]))
    ensures PollSpec.WaitingAmong([Some(MARKED)], 1) == 1
    ensures PollSpec.Poll([Some(MARKED)], true, start, [reply], []).calls == []
    ensures var s := One(MARKED, Idle, [Task(0, Over)], map[]);
            forall run: seq<Action> ::
              ResmanDelivery.Round(s, run) && (forall k :: 0 <= k < |run| ==> !run[k].Remove?) ==>
                !ResmanDelivery.SomeDelivery(s, run)
  {
    var ts := [Task(0, Over)];
    Finished();
    Go(One(LOADED.(donePending := true, unseen := 1), Idle, ts, map[]), Remove(0), One(MARKED, Idle, ts, map[]));
    assert PollSpec.WaitingAmong([Some(MARKED)], 0) == 0;
    PollSpec.PollDelivers([Some(MARKED)], start, [reply], []);
    var s := One(MARKED, Idle, ts, map[]);
    forall run: seq<Action> | ResmanDelivery.Round(s, run) && (forall k :: 0 <= k < |run| ==> !run[k].Remove?)
      ensures !ResmanDelivery.SomeDelivery(s, run)
    {
      ResmanDelivery.PollDeliversIff(s, run);
    }
  }

  /* ---- without a done callback ---- */

  /** Resources whose load started a watch, without a done callback. */
  function Undelivered(slots: seq<Slot>, main: Main, tasks: seq<Task>, watches: map<int, nat>): Man {
    Man(false, true, slots, main, tasks, watches, false)
  }

  function Watched(fd: int): Resource {
    LOADED.(unseen := 1, nfd := fd)
  }

  /** Another resource is added and loaded, and the kernel answers its watch with `fd`. */
  lemma AddWatched(slots: seq<Slot>, ts: seq<Task>, ws: map<int, nat>, fd: int)
    requires Reachable(Undelivered(slots, Idle, ts, ws)) && fd > 0
    requires forall i :: 0 <= i < |slots| ==> slots[i].Live?
    ensures Reachable(Undelivered(slots + [Live(Watched(fd))], Idle, ts + [Task(|slots|, Over)], ws[fd := |slots|]))
  {
    var n, k := |slots|, |ts|;
    var x, y := MainStep(Answer(0, 0, fd, false)), TaskStep(k, Answer(0, 0, fd, false));
    var p := slots + [Live(NEW.(pending := true))];
    assert (slots + [Live(NEW)])[n := Live(NEW.(pending := true))] == p;
    assert p[n := Live(NEW.(pending := true))] == p;
    Go(Undelivered(slots, Idle, ts, ws), Add, Undelivered(slots + [Live(NEW)], Reloading(n, ToIdle), ts, ws));
    Go(Undelivered(slots + [Live(NEW)], Reloading(n, ToIdle), ts, ws), x,
       Undelivered(p, Enqueueing(n, ToIdle), ts, ws));
    Go(Undelivered(p, Enqueueing(n, ToIdle), ts, ws), x, Undelivered(p, Idle, ts + [Task(n, Queued)], ws));
    LoadWatched(slots, ts, ws, fd);
  }

  lemma LoadWatched(slots: seq<Slot>, ts: seq<Task>, ws: map<int, nat>, fd: int)
    requires fd > 0
    requires Reachable(Undelivered(slots + [Live(NEW.(pending := true))], Idle, ts + [Task(|slots|, Queued)], ws))
    ensures Reachable(Undelivered(slots + [Live(Watched(fd))], Idle, ts + [Task(|slots|, Over)], ws[fd := |slots|]))
  {
    var n, k := |slots|, |ts|;
    var y := TaskStep(k, Answer(0, 0, fd, false));
    var p, q := slots + [Live(NEW.(pending := true))], slots + [Live(Watched(fd))];
    assert p[n := Live(NEW.(pending := true))] == p;
    assert p[n := Live(Watched(0))][n := Live(Watched(fd))] == q;
    forall ph, qh: Phase ensures (ts + [Task(n, ph)])[k := Task(n, qh)] == ts + [Task(n, qh)] {}
    Go(Undelivered(p, Idle, ts + [Task(n, Queued)], ws), y, Undelivered(p, Idle, ts + [Task(n, Loading)], ws));
    Go(Undelivered(p, Idle, ts + [Task(n, Loading)], ws), y, Undelivered(p, Idle, ts + [Task(n, Loaded)], ws));
    Go(Undelivered(p, Idle, ts + [Task(n, Loaded)], ws), y, Undelivered(q, Idle, ts + [Task(n, Over)], ws[fd := n]));
  }

  lemma Started()
    ensures Reachable(Undelivered([], Idle, [], map[]))
  {
    var s := Initial(false, true);
    assert Possible(s, []) && After(s, []) == s;
  }

  const FAILED_LATER := Watched(2).(result := FAILED, finished := 2, unseen := 2, deletePending := true)

  /** The table after the watch 1 of resource 0 was dropped and restarted as 2: the old entry stays. */
  const RESTARTED: map<int, nat> := map[1 := 0, 2 := 0]

  /**
   Without a done callback: a resource loads, its file is replaced, so that the kernel drops the
   watch, the second load fails, and although it is not the first one the resource is marked for
   deletion.
   */
  lemma SecondFailureDeletes()
    ensures Reachable(Undelivered([Live(FAILED_LATER)], Idle, [Task(0, Over), Task(0, Over)], RESTARTED))
  {
    var r, ws := Watched(2), RESTARTED;
    SecondLoad();
    var y := TaskStep(1, Answer(0, FAILED, 1, false));
    var p := r.(pending := true);
    var f := p.(result := FAILED);
    Go(Undelivered([Live(p)], Idle, [Task(0, Over), Task(0, Queued)], ws), y,
       Undelivered([Live(p)], Idle, [Task(0, Over), Task(0, Loading)], ws));
    Go(Undelivered([Live(p)], Idle, [Task(0, Over), Task(0, Loading)], ws), y,
       Undelivered([Live(f)], Idle, [Task(0, Over), Task(0, Loaded)], ws));
    Go(Undelivered([Live(f)], Idle, [Task(0, Over), Task(0, Loaded)], ws), y,
       Undelivered([Live(FAILED_LATER)], Idle, [Task(0, Over), Task(0, Over)], ws));
  }

  lemma SecondLoad()
    ensures Reachable(Undelivered([Live(Watched(2).(pending := true))], Idle,
                                  [Task(0, Over), Task(0, Queued)], RESTARTED))
  {
    var x, ts, ws := MainStep(Answer(0, 0, 1, false)), [Task(0, Over)], RESTARTED;
    var rs, ps := [Live(Watched(2))], [Live(Watched(2).(pending := true))];
    var none: set<int> := {};
    assert {2} - {2} == none;
    FileReplaced();
    Go(Undelivered(rs, Watching(0, {2}), ts, ws), x, Undelivered(rs, Modified({2}), ts, ws));
    Go(Undelivered(rs, Modified({2}), ts, ws), ReloadModified(2),
       Undelivered(rs, Reloading(0, ToModified({})), ts, ws));
    Go(Undelivered(rs, Reloading(0, ToModified({})), ts, ws), x,
       Undelivered(ps, Enqueueing(0, ToModified({})), ts, ws));
    Go(Undelivered(ps, Enqueueing(0, ToModified({})), ts, ws), x,
       Undelivered(ps, Modified({}), ts + [Task(0, Queued)], ws));
    Go(Undelivered(ps, Modified({}), ts + [Task(0, Queued)], ws), x,
       Undelivered(ps, Idle, ts + [Task(0, Queued)], ws));
  }

  /** The file of a loaded resource is replaced and its watch restarted. */
  lemma FileReplaced()
    ensures Reachable(Undelivered([Live(Watched(2))], Watching(0, {2}), [Task(0, Over)], RESTARTED))
  {
    var x, ts, ws := MainStep(Answer(0, 0, 1, false)), [Task(0, Over)], map[1 := 0];
    var rs := [Live(Watched(1))];
    var none: set<int> := {};
    assert none + {2} == {2} && ws[2 := 0] == RESTARTED;
    OneWatched();
    Go(Undelivered(rs, Idle, ts, ws), BeginPoll, Undelivered(rs, Deleting(0), ts, ws));
    Go(Undelivered(rs, Deleting(0), ts, ws), x, Undelivered(rs, Deleting(1), ts, ws));
    Go(Undelivered(rs, Deleting(1), ts, ws), x, Undelivered(rs, Watching(0, {}), ts, ws));
    Go(Undelivered(rs, Watching(0, {}), ts, ws), IgnoredEvent(1, 2),
       Undelivered([Live(Watched(2))], Watching(0, {2}), ts, RESTARTED));
  }

  /**
   The file is replaced twice during one check of the watches: both new descriptors are in the
   modified set, and the assertion of `reload_modified` fails for the first of them.
   */
  lemma ReplacedTwiceFailsAssertion() returns (s: Man)
    ensures Reachable(s) && Enabled(s, ReloadModified(2)) && !Belongs(s, 2) && Next(s, ReloadModified(2)).faulted
  {
    var x, ts, ws := MainStep(Answer(0, 0, 1, false)), [Task(0, Over)], RESTARTED[3 := 0];
    var rs := [Live(Watched(3))];
    assert {2} + {3} == {2, 3};
    FileReplaced();
    Go(Undelivered([Live(Watched(2))], Watching(0, {2}), ts, RESTARTED), IgnoredEvent(2, 3),
       Undelivered(rs, Watching(0, {2, 3}), ts, ws));
    s := Undelivered(rs, Modified({2, 3}), ts, ws);
    Go(Undelivered(rs, Watching(0, {2, 3}), ts, ws), x, s);
  }

  /** The file is replaced and the resource removed: the old entry leads to freed memory. */
  lemma RemovalLeavesEntry() returns (s: Man)
    ensures Reachable(s) && !s.faulted && s.watches == map[1 := 0] && |s.slots| == 1 && s.slots[0].Gone?
  {
    var x, ts := MainStep(Answer(0, 0, 1, false)), [Task(0, Over), Task(0, Over)];
    var b, v := Live(FAILED_LATER), map[1 := 0];
    assert |RESTARTED| == |RESTARTED.Keys| && RESTARTED.Keys == {1, 2} && RESTARTED - {2} == v;
    SecondFailureDeletes();
    Go(Undelivered([b], Idle, ts, RESTARTED), BeginPoll, Undelivered([b], Deleting(0), ts, RESTARTED));
    Go(Undelivered([b], Deleting(0), ts, RESTARTED), x, Undelivered([b], DeleteRemoving(0), ts, RESTARTED));
    s := Undelivered([Gone(FAILED_LATER)], Deleting(1), ts, v);
    Go(Undelivered([b], DeleteRemoving(0), ts, RESTARTED), x, s);
  }

  const TWICE: map<int, nat> := map[1 := 0, 2 := 0, 3 := 0]

  /** The file is replaced again before the job of the first replacement has run: two jobs overlap. */
  lemma ReplacedAgainOverlaps()
    ensures Reachable(Undelivered([Live(Watched(3).(pending := true))], Reloading(0, ToModified({})),
                                  [Task(0, Over), Task(0, Queued)], TWICE))
    ensures var s := Undelivered([Live(Watched(3).(pending := true))], Reloading(0, ToModified({})),
                                 [Task(0, Over), Task(0, Queued)], TWICE);
            ResmanOverlap.Overlaps(s, MainStep(Answer(0, 0, 1, false)), 0)
  {
    var x, ts := MainStep(Answer(0, 0, 1, false)), [Task(0, Over), Task(0, Queued)];
    var p, q := [Live(Watched(2).(pending := true))], [Live(Watched(3).(pending := true))];
    var none: set<int> := {};
    assert none + {3} == {3} && {3} - {3} == none && RESTARTED[3 := 0] == TWICE;
    assert ts[1] == Task(0, Queued);
    SecondLoad();
    Go(Undelivered(p, Idle, ts, RESTARTED), BeginPoll, Undelivered(p, Deleting(0), ts, RESTARTED));
    Go(Undelivered(p, Deleting(0), ts, RESTARTED), x, Undelivered(p, Deleting(1), ts, RESTARTED));
    Go(Undelivered(p, Deleting(1), ts, RESTARTED), x, Undelivered(p, Watching(0, {}), ts, RESTARTED));
    Go(Undelivered(p, Watching(0, {}), ts, RESTARTED), IgnoredEvent(2, 3), Undelivered(q, Watching(0, {3}), ts, TWICE));
    Go(Undelivered(q, Watching(0, {3}), ts, TWICE), x, Undelivered(q, Modified({3}), ts, TWICE));
    Go(Undelivered(q, Modified({3}), ts, TWICE), ReloadModified(3),
       Undelivered(q, Reloading(0, ToModified({})), ts, TWICE));
  }

  /** Both jobs are queued and the owning thread is idle again; the first of them ends. */
  lemma FirstOfTwoEnds()
    ensures Reachable(Undelivered([Live(Watched(3).(finished := 2, unseen := 2))], Idle,
                                  [Task(0, Over), Task(0, Over), Task(0, Queued)], TWICE))
  {
    var x, y := MainStep(Answer(0, 0, 1, false)), TaskStep(1, Answer(0, 0, 1, false));
    var o, u := Task(0, Over), Task(0, Queued);
    var q, r := [Live(Watched(3).(pending := true))], [Live(Watched(3).(finished := 2, unseen := 2))];
    ReplacedAgainOverlaps();
    Go(Undelivered(q, Reloading(0, ToModified({})), [o, u], TWICE), x,
       Undelivered(q, Enqueueing(0, ToModified({})), [o, u], TWICE));
    Go(Undelivered(q, Enqueueing(0, ToModified({})), [o, u], TWICE), x, Undelivered(q, Modified({}), [o, u, u], TWICE));
    Go(Undelivered(q, Modified({}), [o, u, u], TWICE), x, Undelivered(q, Idle, [o, u, u], TWICE));
    Go(Undelivered(q, Idle, [o, u, u], TWICE), y, Undelivered(q, Idle, [o, Task(0, Loading), u], TWICE));
    Go(Undelivered(q, Idle, [o, Task(0, Loading), u], TWICE), y, Undelivered(q, Idle, [o, Task(0, Loaded), u], TWICE));
    Go(Undelivered(q, Idle, [o, Task(0, Loaded), u], TWICE), y, Undelivered(r, Idle, [o, o, u], TWICE));
  }

  /** With file watching a poll can free a resource under a queued job, which then faults. */
  lemma FreedUnderJob() returns (s: Man)
    ensures Reachable(s) && !s.faulted && |s.slots| == 1 && s.slots[0].Gone? && Outstanding(s, 0)
    ensures forall x {:trigger TaskStep(2, x)} :: Enabled(s, TaskStep(2, x)) && Next(s, TaskStep(2, x)).faulted
  {
    var x, ts := MainStep(Answer(0, 0, 1, false)), [Task(0, Over), Task(0, Over), Task(0, Queued)];
    var q := Removed(3).(finished := 2, unseen := 2);
    RemovedUnderJob();
    StopThird();
    s := Undelivered([Gone(q)], Deleting(1), ts, map[1 := 0, 2 := 0]);
    Go(Undelivered([Live(q)], DeleteRemoving(0), ts, TWICE), x, s);
    assert s.tasks[2] == Task(0, Queued);
  }

  lemma StopThird()
    ensures StopWatch(TWICE, 3) == Some(map[1 := 0, 2 := 0])
  {
    assert |TWICE| == |TWICE.Keys| && TWICE.Keys == {1, 2, 3};
    assert TWICE - {3} == map[1 := 0, 2 := 0];
  }

  lemma RemovedUnderJob()
    ensures Reachable(Undelivered([Live(Removed(3).(finished := 2, unseen := 2))], DeleteRemoving(0),
                                  [Task(0, Over), Task(0, Over), Task(0, Queued)], TWICE))
  {
    var x, ts := MainStep(Answer(0, 0, 1, false)), [Task(0, Over), Task(0, Over), Task(0, Queued)];
    var r, q := [Live(Watched(3).(finished := 2, unseen := 2))], [Live(Removed(3).(finished := 2, unseen := 2))];
    FirstOfTwoEnds();
    Go(Undelivered(r, Idle, ts, TWICE), Remove(0), Undelivered(q, Idle, ts, TWICE));
    Go(Undelivered(q, Idle, ts, TWICE), BeginPoll, Undelivered(q, Deleting(0), ts, TWICE));
    Go(Undelivered(q, Deleting(0), ts, TWICE), x, Undelivered(q, DeleteRemoving(0), ts, TWICE));
  }

  lemma OneWatched()
    ensures Reachable(Undelivered([Live(Watched(1))], Idle, [Task(0, Over)], map[1 := 0]))
  {
    Started();
    AddWatched([], [], map[], 1);
    assert [] + [Live(Watched(1))] == [Live(Watched(1))] && [] + [Task(0, Over)] == [Task(0, Over)];
    assert map[][1 := 0] == map[1 := 0];
  }

  lemma TwoWatched()
    ensures Reachable(Undelivered([Live(Watched(1)), Live(Watched(1))], Idle,
                                  [Task(0, Over), Task(1, Over)], map[1 := 1]))
  {
    var a := Live(Watched(1));
    OneWatched();
    AddWatched([a], [Task(0, Over)], map[1 := 0], 1);
    assert [a] + [a] == [a, a] && [Task(0, Over)] + [Task(1, Over)] == [Task(0, Over), Task(1, Over)];
    assert map[1 := 0][1 := 1] == map[1 := 1];
  }

  /* ---- a descriptor that another resource got as well ---- */

  function Removed(fd: int): Resource {
    Watched(fd).(deletePending := true, removeAsked := true)
  }

  /**
   The kernel gives two names of one file the same descriptor. After one of the two resources is
   removed, the removal of the other faults although a third one is still watched.
   */
  lemma SharedDescriptorFaults() returns (s: Man)
    ensures Reachable(s) && !s.faulted && s.main == DeleteRemoving(1) && s.watches == map[2 := 2]
    ensures forall x {:trigger MainStep(x)} :: Next(s, MainStep(x)).faulted
  {
    var x := MainStep(Answer(0, 0, 1, false));
    var ts, ws := [Task(0, Over), Task(1, Over), Task(2, Over)], map[1 := 1, 2 := 2];
    var b, w := Live(Removed(1)), Live(Watched(2));
    TwoRemoved();
    var g, v := Gone(Removed(1)), map[2 := 2];
    assert |ws| == |ws.Keys| && ws.Keys == {1, 2} && ws - {1} == v;
    Go(Undelivered([b, b, w], DeleteRemoving(0), ts, ws), x, Undelivered([g, b, w], Deleting(1), ts, v));
    Go(Undelivered([g, b, w], Deleting(1), ts, v), x, Undelivered([g, b, w], DeleteRemoving(1), ts, v));
    s := Undelivered([g, b, w], DeleteRemoving(1), ts, v);
  }

  lemma TwoRemoved()
    ensures Reachable(Undelivered([Live(Removed(1)), Live(Removed(1)), Live(Watched(2))], DeleteRemoving(0),
                                  [Task(0, Over), Task(1, Over), Task(2, Over)], map[1 := 1, 2 := 2]))
  {
    var x := MainStep(Answer(0, 0, 1, false));
    var ts, ws := [Task(0, Over), Task(1, Over), Task(2, Over)], map[1 := 1, 2 := 2];
    var a, b, w := Live(Watched(1)), Live(Removed(1)), Live(Watched(2));
    ThreeWatched();
    Go(Undelivered([a, a, w], Idle, ts, ws), Remove(0), Undelivered([b, a, w], Idle, ts, ws));
    Go(Undelivered([b, a, w], Idle, ts, ws), Remove(1), Undelivered([b, b, w], Idle, ts, ws));
    Go(Undelivered([b, b, w], Idle, ts, ws), BeginPoll, Undelivered([b, b, w], Deleting(0), ts, ws));
    Go(Undelivered([b, b, w], Deleting(0), ts, ws), x, Undelivered([b, b, w], DeleteRemoving(0), ts, ws));
  }

  lemma ThreeWatched()
    ensures Reachable(Undelivered([Live(Watched(1)), Live(Watched(1)), Live(Watched(2))], Idle,
                                  [Task(0, Over), Task(1, Over), Task(2, Over)], map[1 := 1, 2 := 2]))
  {
    var a, w := Live(Watched(1)), Live(Watched(2));
    TwoWatched();
    AddWatched([a, a], [Task(0, Over), Task(1, Over)], map[1 := 1], 2);
    assert [a, a] + [w] == [a, a, w];
    assert [Task(0, Over), Task(1, Over)] + [Task(2, Over)] == [Task(0, Over), Task(1, Over), Task(2, Over)];
    assert map[1 := 1][2 := 2] == map[1 := 1, 2 := 2];
  }
}
