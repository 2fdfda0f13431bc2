/**
 A whole check of the watches is one of the runs of the step system: the events of the batch one by
 one, then the reloads of the modified set in ascending order, as `FileWatch` computes them.
 */
module WatchRefinement {
  import opened Sequences
  import opened ResourceState
  import opened ResmanProtocol
  import opened FileEvents
  import opened ResmanHazard
  import PollRefinement

  /** The owning thread handles events, and resources, table and modified set are those of the batch. */
  ghost predicate Shows(s: Man, b: Batch) {
    && s.main.Watching? && !s.faulted && b.ok && s.main.modset == b.marked && Same(s, b.rs)
    && b.table == Addresses(s.watches)
  }

  /** The slots hold these resources, and the watch table leads to live ones. */
  ghost predicate Same(s: Man, rs: seq<Resource>) {
    && |s.slots| == |rs| && (forall i :: 0 <= i < |rs| ==> s.slots[i].r == rs[i])
    && (forall wd :: wd in s.watches ==> IsLive(s, s.watches[wd]))
  }

  /** The three bits of an event, one after the other. */
  function Actions(e: Event): seq<Action> {
    (if e.edit then [ModifyEvent(e.wd)] else [])
    + (if e.closeWrite then [CloseWriteEvent(e.wd)] else [])
    + (if e.ignored then [IgnoredEvent(e.wd, e.fd)] else [])
  }

  /** The event with only some of its bits. */
  function Only(e: Event, edit: bool, closeWrite: bool, ignored: bool): Event {
    Event(e.wd, e.edit && edit, e.closeWrite && closeWrite, e.ignored && ignored, e.fd)
  }

  lemma HandleBits(b: Batch, e: Event, msec: nat)
    requires TableOk(b.table, |b.rs|) && b.ok
    ensures var c := HandleOne(b, Only(e, true, false, false), msec);
            && c.ok && c.table == b.table
            && HandleOne(b, Only(e, true, true, false), msec) == HandleOne(c, Only(e, false, true, false), msec)
  {
    if e.wd in b.table {
      var i := b.table[e.wd] - 1;
      var r := if e.edit then Modify(b.rs[i], msec) else b.rs[i];
      assert b.rs[i := r][i] == r && b.rs[i := r][i := Handle(b.rs[i], Only(e, true, true, false), msec)]
          == b.rs[i := Handle(b.rs[i], Only(e, true, true, false), msec)];
      assert b.marked + {} == b.marked;
    }
  }

  lemma HandleDrop(b: Batch, e: Event, msec: nat)
    requires TableOk(b.table, |b.rs|) && b.ok
    ensures var d := HandleOne(b, Only(e, true, true, false), msec);
            && d.ok && d.table == b.table
            && HandleOne(b, e, msec) == HandleOne(d, Only(e, false, false, true), msec)
  {
    var d := HandleOne(b, Only(e, true, true, false), msec);
    if e.wd in b.table {
      var i := b.table[e.wd] - 1;
      assert d.rs[i := d.rs[i]] == d.rs && d.marked + {} == d.marked;
    }
  }

  /** The steps leave everything else alone. */
  ghost predicate Beside(s: Man, t: Man) {
    t.tasks == s.tasks && t.hasDone == s.hasDone && t.watching == s.watching
  }

  lemma EditIsAStep(s: Man, b: Batch, e: Event)
    requires Shows(s, b) && e.edit && !e.closeWrite && !e.ignored
    ensures TableOk(b.table, |b.rs|)
    ensures var t := Next(s, ModifyEvent(e.wd));
            Shows(t, HandleOne(b, e, s.main.msec)) && Beside(s, t) && t.main == s.main
  {
  }

  lemma CloseIsAStep(s: Man, b: Batch, e: Event)
    requires Shows(s, b) && e.closeWrite && !e.edit && !e.ignored
    ensures TableOk(b.table, |b.rs|)
    ensures var t := Next(s, CloseWriteEvent(e.wd));
            Shows(t, HandleOne(b, e, s.main.msec)) && Beside(s, t) && t.main.Watching? && t.main.msec == s.main.msec
  {
  }

  lemma AddressesSize(watches: map<int, nat>)
    ensures |Addresses(watches)| == |watches|
  {
    assert Addresses(watches).Keys == watches.Keys;
    assert |Addresses(watches)| == |Addresses(watches).Keys| && |watches| == |watches.Keys|;
  }

  lemma AddressesChange(watches: map<int, nat>, wd: int, i: nat)
    ensures Addresses(watches[wd := i]) == Addresses(watches)[wd := i + 1]
    ensures Addresses(watches - {wd}) == Addresses(watches) - {wd}
  {
  }

  lemma OnlyDropped(b: Batch, e: Event, msec: nat)
    requires TableOk(b.table, |b.rs|) && b.ok && e.ignored && !e.edit && !e.closeWrite
    ensures HandleOne(b, e, msec) == if e.wd in b.table then Restarted(b, b.table[e.wd] - 1, e.fd) else b
  {
    if e.wd in b.table {
      var i := b.table[e.wd] - 1;
      assert b.rs[i := Handle(b.rs[i], e, msec)] == b.rs && b.marked + {} == b.marked;
    }
  }

  lemma RestartIsAStep(s: Man, b: Batch, i: nat, fd: int)
    requires Shows(s, b) && IsLive(s, i)
    ensures TableOk(b.table, |b.rs|) && i < |b.rs|
    ensures var t, c := Restart(s, i, fd), Restarted(b, i, fd);
            if c.ok then Shows(t, c) && Beside(s, t) && t.main.msec == s.main.msec else t.faulted
  {
    var nfd := s.slots[i].r.nfd;
    AddressesSize(s.watches);
    AddressesChange(s.watches, if fd > 0 then fd else nfd, i);
    if fd > 0 {
      var t, c := Restart(s, i, fd), Restarted(b, i, fd);
      assert WithWatch(b.rs, i, fd)[i].nfd == fd;
      assert c.rs == WithWatch(b.rs, i, fd) && c.table == b.table[fd := i + 1] && c.marked == b.marked + {fd};
    }
  }

  lemma DropIsAStep(s: Man, b: Batch, e: Event)
    requires Shows(s, b) && e.ignored && !e.edit && !e.closeWrite
    ensures TableOk(b.table, |b.rs|)
    ensures var t, c := Next(s, IgnoredEvent(e.wd, e.fd)), HandleOne(b, e, s.main.msec);
            if c.ok then Shows(t, c) && Beside(s, t) && t.main.msec == s.main.msec else t.faulted
  {
    assert TableOk(b.table, |b.rs|);
    OnlyDropped(b, e, s.main.msec);
    if e.wd in s.watches {
      RestartIsAStep(s, b, s.watches[e.wd], e.fd);
    }
  }

  /** What a run of the step system does to the batch: the same, or it faults where the batch loses `ok`. */
  ghost predicate Follows(s: Man, run: seq<Action>, t: Man, c: Batch) {
    && Reaches(s, run, t)
    && if c.ok then Shows(t, c) && Beside(s, t) && s.main.Watching? && t.main.msec == s.main.msec else t.faulted
  }

  lemma BitIsARun(s: Man, b: Batch, e: Event) returns (t: Man)
    requires Shows(s, b) && |Actions(e)| <= 1
    ensures TableOk(b.table, |b.rs|) && Follows(s, Actions(e), t, HandleOne(b, e, s.main.msec))
  {
    if e.edit {
      EditIsAStep(s, b, e);
      OneStep(s, ModifyEvent(e.wd));
    } else if e.closeWrite {
      CloseIsAStep(s, b, e);
      OneStep(s, CloseWriteEvent(e.wd));
    } else if e.ignored {
      DropIsAStep(s, b, e);
      OneStep(s, IgnoredEvent(e.wd, e.fd));
    } else if e.wd in b.table {
      assert b.rs[b.table[e.wd] - 1 := Handle(b.rs[b.table[e.wd] - 1], e, s.main.msec)] == b.rs;
    }
    t := After(s, Actions(e));
  }

  /** One event is a run of at most three steps. */
  lemma EventIsARun(s: Man, b: Batch, e: Event) returns (t: Man)
    requires Shows(s, b)
    ensures TableOk(b.table, |b.rs|) && Follows(s, Actions(e), t, HandleOne(b, e, s.main.msec))
  {
    var e1, e2, e3 := Only(e, true, false, false), Only(e, false, true, false), Only(e, false, false, true);
    HandleBits(b, e, s.main.msec);
    HandleDrop(b, e, s.main.msec);
    var c, d := HandleOne(b, e1, s.main.msec), HandleOne(b, Only(e, true, true, false), s.main.msec);
    var u := BitIsARun(s, b, e1);
    var v := BitIsARun(u, c, e2);
    Chain(s, Actions(e1), u, Actions(e2), v);
    t := BitIsARun(v, d, e3);
    Chain(s, Actions(e1) + Actions(e2), v, Actions(e3), t);
    assert Actions(e1) + Actions(e2) + Actions(e3) == Actions(e);
  }

  /** The first `n` events of a batch. */
  lemma {:induction false} BatchIsARun(s: Man, b: Batch, events: seq<Event>, n: nat) returns (run: seq<Action>, t: Man)
    requires Shows(s, b) && n <= |events|
    ensures TableOk(b.table, |b.rs|) && Follows(s, run, t, HandleUpTo(b, events, n, s.main.msec))
  {
    run, t := [], s;
    if n > 0 {
      run, t := BatchIsARun(s, b, events, n - 1);
      var c := HandleUpTo(b, events, n - 1, s.main.msec);
      if c.ok {
        var u := EventIsARun(t, c, events[n - 1]);
        Chain(s, run, t, Actions(events[n - 1]), u);
        run, t := run + Actions(events[n - 1]), u;
      }
    }
  }

  /* ---- the reloads of the modified set ---- */

  /** The resources with the reloaded ones marked pending. */
  function Reloaded(rs: seq<Resource>, targets: seq<nat>): (r: seq<Resource>)
    ensures |r| == |rs|
  {
    seq(|rs|, i requires 0 <= i < |rs| => if i in targets then SetPending(rs[i]) else rs[i])
  }

  lemma {:induction false} TargetsFirst(table: map<int, int>, wds: seq<int>)
    requires wds != []
    ensures Targets(table, wds) == Targets(table, wds[..1]) + Targets(table, wds[1..])
  {
    if |wds| == 1 {
      assert wds[..1] == wds && wds[1..] == [];
    } else {
      var n := |wds| - 1;
      TargetsFirst(table, wds[..n]);
      assert wds[..n][..1] == wds[..1] && wds[..n][1..] == wds[1..][..n - 1] && wds[1..][n - 1] == wds[n];
    }
  }

  lemma TargetsOfOne(watches: map<int, nat>, wd: int)
    ensures Targets(Addresses(watches), [wd]) == if wd in watches then [watches[wd]] else []
  {
    assert [wd][..0] == [];
  }

  lemma ReloadedTwice(rs: seq<Resource>, a: seq<nat>, b: seq<nat>)
    ensures Reloaded(Reloaded(rs, a), b) == Reloaded(rs, a + b)
  {
  }

  /** The owning thread reloads the descriptors `wds` of the modified set. */
  ghost predicate Reloading(s: Man, wds: seq<int>, rs: seq<Resource>) {
    !s.faulted && s.main == Modified(set wd | wd in wds) && Same(s, rs)
  }

  /** Nothing but tasks and pending marks has changed. */
  ghost predicate ReloadedBy(s: Man, targets: seq<nat>, t: Man) {
    && t.tasks == s.tasks + PollRefinement.NewTasks(targets) && t.watches == s.watches
    && t.hasDone == s.hasDone && t.watching == s.watching
  }

  lemma WithoutFirst(wds: seq<int>)
    requires wds != [] && Ascending(wds)
    ensures (set x | x in wds) - {wds[0]} == (set x | x in wds[1..]) && Ascending(wds[1..])
  {
    assert wds == [wds[0]] + wds[1..];
  }

  lemma NoReload(s: Man, rs: seq<Resource>)
    ensures Reloaded(rs, []) == rs && ReloadedBy(s, [], s)
  {
    assert PollRefinement.NewTasks([]) == [] && s.tasks + [] == s.tasks;
  }

  /** `resman_reload` for a resource of the modified set: two steps. */
  lemma LoadIsARun(s: Man, i: nat, rest: set<int>, rs: seq<Resource>) returns (run: seq<Action>, t: Man)
    requires !s.faulted && s.main == ResmanProtocol.Reloading(i, ToModified(rest)) && Same(s, rs) && IsLive(s, i)
    ensures Reaches(s, run, t) && !t.faulted && t.main == Modified(rest)
    ensures Same(t, Reloaded(rs, [i])) && ReloadedBy(s, [i], t)
  {
    var x := MainStep(ANSWER);
    OneStep(s, x);
    var u := Next(s, x);
    OneStep(u, x);
    t := Next(u, x);
    Chain(s, [x], u, [x], t);
    run := [x] + [x];
    assert PollRefinement.NewTasks([i]) == [Task(i, Queued)];
  }

  /** One call of `reload_modified`: it skips the descriptor, reloads its resource, or fails its assertion. */
  lemma ReloadIsARun(s: Man, wds: seq<int>, rs: seq<Resource>) returns (run: seq<Action>, t: Man)
    requires Reloading(s, wds, rs) && wds != [] && Ascending(wds)
    ensures TableOk(Addresses(s.watches), |rs|) && Reaches(s, run, t)
    ensures var targets := Targets(Addresses(s.watches), [wds[0]]);
            if Matches(Addresses(s.watches), rs, wds[0])
            then Reloading(t, wds[1..], Reloaded(rs, targets)) && ReloadedBy(s, targets, t)
            else t.faulted
  {
    var wd := wds[0];
    var a := ReloadModified(wd);
    var rest: set<int> := set x | x in wds[1..];
    WithoutFirst(wds);
    TargetsOfOne(s.watches, wd);
    MatchesBelongs(s, rs, wd);
    assert s.main.rest - {wd} == rest;
    OneStep(s, a);
    run, t := [a], Next(s, a);
    if wd !in s.watches {
      assert t == s.(main := Modified(rest));
      NoReload(s, rs);
    } else if Belongs(s, wd) {
      var more, u := LoadIsARun(t, s.watches[wd], rest, rs);
      Chain(s, [a], t, more, u);
      run, t := [a] + more, u;
    }
  }

  lemma MatchesBelongs(s: Man, rs: seq<Resource>, wd: int)
    requires Same(s, rs)
    ensures TableOk(Addresses(s.watches), |rs|)
    ensures Matches(Addresses(s.watches), rs, wd) <==> wd !in s.watches || Belongs(s, wd)
  {
  }

  lemma ReloadedOn(s: Man, a: seq<nat>, t: Man, b: seq<nat>, u: Man)
    requires ReloadedBy(s, a, t) && ReloadedBy(t, b, u)
    ensures ReloadedBy(s, a + b, u)
  {
    assert PollRefinement.NewTasks(a + b) == PollRefinement.NewTasks(a) + PollRefinement.NewTasks(b);
  }

  /** All descriptors of the modified set still lead to resources that hold them, where there are any. */
  ghost predicate AllMatch(table: map<int, int>, rs: seq<Resource>, wds: seq<int>)
    requires TableOk(table, |rs|)
  {
    forall wd :: wd in wds ==> Matches(table, rs, wd)
  }

  lemma MatchFirst(table: map<int, int>, rs: seq<Resource>, wds: seq<int>, targets: seq<nat>)
    requires TableOk(table, |rs|) && wds != []
    ensures AllMatch(table, rs, wds) <==>
            Matches(table, rs, wds[0]) && AllMatch(table, Reloaded(rs, targets), wds[1..])
  {
    assert wds == [wds[0]] + wds[1..];
    assert forall wd :: Matches(table, Reloaded(rs, targets), wd) == Matches(table, rs, wd);
  }

  /** All calls of `reload_modified`, up to the first at which the assertion fails. */
  lemma {:induction false} ReloadsAreARun(s: Man, wds: seq<int>, rs: seq<Resource>) returns (run: seq<Action>, t: Man)
    requires Reloading(s, wds, rs) && Ascending(wds)
    ensures TableOk(Addresses(s.watches), |rs|) && Reaches(s, run, t)
    ensures var table := Addresses(s.watches);
            if AllMatch(table, rs, wds)
            then Reloading(t, [], Reloaded(rs, Targets(table, wds))) && ReloadedBy(s, Targets(table, wds), t)
            else t.faulted
    decreases |wds|
  {
    var table := Addresses(s.watches);
    assert TableOk(table, |rs|);
    run, t := [], s;
    if wds == [] {
      NoReload(s, rs);
    } else {
      var a, b := Targets(table, [wds[0]]), Targets(table, wds[1..]);
      MatchFirst(table, rs, wds, a);
      run, t := ReloadIsARun(s, wds, rs);
      if Matches(table, rs, wds[0]) {
        WithoutFirst(wds);
        var rest, u := ReloadsAreARun(t, wds[1..], Reloaded(rs, a));
        Chain(s, run, t, rest, u);
        if AllMatch(table, rs, wds) {
          TargetsFirst(table, wds);
          assert wds[..1] == [wds[0]];
          ReloadedTwice(rs, a, b);
          ReloadedOn(s, a, t, b, u);
        }
        run, t := run + rest, u;
      }
    }
  }

  /**
   The whole check: the resources, the table, the modified set and the reloads that
   `FileWatch.FileMonitor.CheckWatch` computes are those of a run of the step system, and the run
   faults where the batch meets a null pointer or the assertion fails.
   */
  lemma CheckIsARun(s: Man, b: Batch, events: seq<Event>, wds: seq<int>) returns (run: seq<Action>, t: Man)
    requires Shows(s, b)
    requires TableOk(b.table, |b.rs|) && Ascending(wds)
    requires (set wd | wd in wds) == HandleUpTo(b, events, |events|, s.main.msec).marked
    ensures Reaches(s, run, t)
    ensures var c := HandleUpTo(b, events, |events|, s.main.msec);
            if c.ok && AllMatch(c.table, c.rs, wds)
            then && t.main == Modified({}) && Same(t, Reloaded(c.rs, Targets(c.table, wds)))
                 && Addresses(t.watches) == c.table
                 && t.tasks == s.tasks + PollRefinement.NewTasks(Targets(c.table, wds))
            else t.faulted
  {
    var c := HandleUpTo(b, events, |events|, s.main.msec);
    run, t := BatchIsARun(s, b, events, |events|);
    if c.ok {
      var x := MainStep(ANSWER);
      OneStep(t, x);
      var u := Next(t, x);
      Chain(s, run, t, [x], u);
      var rest, v := ReloadsAreARun(u, wds, c.rs);
      Chain(s, run + [x], u, rest, v);
      run, t := run + [x] + rest, v;
      assert (set wd: int | wd in []) == {};
    }
  }
}
