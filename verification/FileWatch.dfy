/**
 `resman_check_watch` of `src/filewatch_linux.c`: one batch of kernel events, with the watch table
 and the modified set kept in red-black trees.
 */
module FileWatch {
  import opened Options
  import opened Sequences
  import opened SortedEntries
  import opened LlrbTree
  import opened LlrbOrder
  import opened RbNodes
  import opened RbTree
  import opened ResourceState
  import opened ResourceManager
  import opened FileEvents
  import ResmanProtocol

  ghost predicate Separated(res: seq<ResourceObject>) {
    forall i, j :: 0 <= i < j < |res| ==> res[i] != res[j]
  }

  ghost function KeysOf(s: seq<Entry>): (r: seq<int>)
    ensures |r| == |s|
  {
    seq(|s|, i requires 0 <= i < |s| => s[i].0)
  }

  /** The keys of a tree in order are ascending and complete. */
  lemma AllKeys<N>(t: Tree<N>)
    requires Ordered(t)
    ensures Ascending(KeysOf(Entries(t))) && (set k | k in KeysOf(Entries(t))) == Map(t).Keys
  {
    MapOfEntries(Entries(t));
    var keys := KeysOf(Entries(t));
    forall k | k in Map(t) ensures k in keys {
      var i :| 0 <= i < |Entries(t)| && Entries(t)[i] == (k, Map(t)[k]);
      assert keys[i] == k;
    }
    forall k | k in keys ensures k in Map(t) {
      var i :| 0 <= i < |keys| && keys[i] == k;
      assert Entries(t)[i] in Entries(t);
    }
  }

  ghost function Views(res: seq<ResourceObject>): (r: seq<Resource>)
    reads set r | r in res
    ensures |r| == |res|
  {
    seq(|res|, i requires 0 <= i < |res| reads set r | r in res => res[i].View())
  }

  /** Stopping a watch succeeds exactly when deleting its descriptor from the tree does. */
  lemma StopWatchIsDelete<N>(root: Tree<N>, watches: map<int, nat>, nfd: int)
    requires RbValid(root) && Map(root) == Addresses(watches) && nfd > 0
    ensures ResmanProtocol.StopWatch(watches, nfd).Some? <==> RbDelete(root, nfd).Some?
    ensures RbDelete(root, nfd).Some? ==>
              Map(RbDelete(root, nfd).value) == Addresses(ResmanProtocol.StopWatch(watches, nfd).value)
  {
    assert Addresses(watches).Keys == watches.Keys;
    assert |Addresses(watches)| == |Addresses(watches).Keys| == |watches.Keys| == |watches|;
    RbDeleteWorksIff(root, nfd);
    if RbDelete(root, nfd).Some? {
      SizeIsMapSize(root);
      RbDeleteCorrect(root, nfd);
      assert Addresses(watches) - {nfd} == Addresses(watches - {nfd});
    }
  }

  /**
   `reload_modified` for one node after the other, up to the first at which its assertion fails.
   */
  method ReloadEach(nresmap: RbTree, res: seq<ResourceObject>, nodes: seq<RbNode>, ghost wds: seq<int>)
    returns (reloads: seq<nat>, ok: bool)
    requires nresmap.Valid() && TableOk(nresmap.Contents(), |res|)
    requires |nodes| == |wds| && forall i :: 0 <= i < |wds| ==> nodes[i].key == wds[i]
    ensures ok <==> forall wd :: wd in wds ==> Matches(nresmap.Contents(), Views(res), wd)
    ensures ok ==> reloads == Targets(nresmap.Contents(), wds)
  {
    reloads, ok := [], true;
    var i := 0;
    while i < |nodes|
      invariant i <= |nodes| && reloads == Targets(nresmap.Contents(), wds[..i])
      invariant forall k :: 0 <= k < i ==> Matches(nresmap.Contents(), Views(res), wds[k])
    {
      TargetsAppend(nresmap.Contents(), wds, i);
      ghost var steps;
      var addr;
      addr, steps := nresmap.Find(nodes[i].key);
      if addr != 0 {
        if nodes[i].key != res[addr - 1].nfd {
          assert wds[i] in wds && Views(res)[addr - 1] == res[addr - 1].View();
          return reloads, false;
        }
        reloads := reloads + [addr - 1];
      }
      i := i + 1;
    }
    assert wds[..i] == wds;
  }

  class FileMonitor {
    const nresmap: RbTree
    const modset: RbTree

    ghost predicate Valid()
      reads this, nresmap, nresmap.nodes, modset, modset.nodes
    {
      && nresmap != modset && nresmap.nodes !! modset.nodes
      && nresmap.Valid() && modset.Valid()
    }

    /** The resources, the watch table and the modified set as they are. */
    ghost function Shot(res: seq<ResourceObject>): Batch
      reads this, nresmap, modset, set r | r in res
    {
      Batch(Views(res), nresmap.Contents(), modset.Contents().Keys, true)
    }

    /** The node objects of the trees are old ones or new. */
    twostate predicate Grown()
      reads this, nresmap, modset
    {
      fresh(nresmap.nodes - old(nresmap.nodes)) && fresh(modset.nodes - old(modset.nodes))
    }

    constructor ()
      ensures Valid() && fresh(nresmap) && fresh(modset) && fresh(nresmap.nodes) && fresh(modset.nodes)
      ensures nresmap.Contents() == map[] && modset.Contents() == map[]
    {
      nresmap := new RbTree();
      modset := new RbTree();
    }

    /** One event of the batch. */
    method HandleEvent(res: seq<ResourceObject>, e: Event, msec: nat)
      requires Valid() && TableOk(nresmap.Contents(), |res|) && Separated(res)
      requires HandleOne(Shot(res), e, msec).ok
      modifies nresmap, nresmap.nodes, modset, modset.nodes, set r | r in res
      ensures Valid() && Grown() && Shot(res) == HandleOne(old(Shot(res)), e, msec)
    {
      var addr := AddressOf(e.wd);
      if addr != 0 {
        HandleKnown(res, addr - 1, e, msec);
      }
    }

    /** The event's descriptor leads to resource `i`. */
    method HandleKnown(res: seq<ResourceObject>, i: nat, e: Event, msec: nat)
      requires Valid() && TableOk(nresmap.Contents(), |res|) && Separated(res)
      requires e.wd in nresmap.Contents() && nresmap.Contents()[e.wd] == i + 1 && HandleOne(Shot(res), e, msec).ok
      modifies nresmap, nresmap.nodes, modset, modset.nodes, set r | r in res
      ensures Valid() && Grown() && Shot(res) == HandleOne(old(Shot(res)), e, msec)
    {
      ghost var b := HandleOne(Shot(res), e.(ignored := false), msec);
      HandleFor(res, i, e, msec);
      assert Shot(res) == b;
      if e.ignored {
        Restart(res, i, e.fd);
      }
    }

    /** `rb_findi` on the watch table. */
    method AddressOf(wd: int) returns (addr: int)
      requires Valid()
      ensures addr == if wd in nresmap.Contents() then nresmap.Contents()[wd] else 0
    {
      ghost var steps;
      addr, steps := nresmap.Find(wd);
    }

    /** The modify and close-write bits of an event about resource `i`. */
    method HandleFor(res: seq<ResourceObject>, i: nat, e: Event, msec: nat)
      requires Valid() && i < |res| && Separated(res)
      modifies modset, modset.nodes, res[i]
      ensures Valid() && fresh(modset.nodes - old(modset.nodes))
      ensures Views(res) == old(Views(res))[i := Handle(old(Views(res))[i], e, msec)]
      ensures modset.Contents().Keys == old(modset.Contents().Keys) + if e.closeWrite then {e.wd} else {}
    {
      Touch(res, i, e, msec);
      if e.closeWrite {
        MarkModified(e.wd);
      }
    }

    /** The branch for a dropped watch of resource `i`, where the kernel answers the new one with `fd`. */
    method Restart(res: seq<ResourceObject>, i: nat, fd: int)
      requires Valid() && TableOk(nresmap.Contents(), |res|) && Separated(res)
      requires i < |res| && Restarted(Shot(res), i, fd).ok
      modifies nresmap, nresmap.nodes, modset, modset.nodes, res[i]
      ensures Valid() && Grown() && Shot(res) == Restarted(old(Shot(res)), i, fd)
    {
      var ok := NewWatch(res, i, fd);
      KeepOrStop(res, i, ok);
    }

    /** A new watch puts its descriptor into the modified set; without one the watch is stopped. */
    method KeepOrStop(res: seq<ResourceObject>, i: nat, ok: bool)
      requires Valid() && TableOk(nresmap.Contents(), |res|) && i < |res| && Settled(Shot(res), i, ok).ok
      modifies nresmap, nresmap.nodes, modset, modset.nodes
      ensures Valid() && nresmap.nodes <= old(nresmap.nodes) && fresh(modset.nodes - old(modset.nodes))
      ensures Shot(res) == Settled(old(Shot(res)), i, ok)
    {
      if !ok {
        StopFor(res, i);
      } else {
        MarkFor(res, i);
      }
    }

    method StopFor(res: seq<ResourceObject>, i: nat)
      requires Valid() && TableOk(nresmap.Contents(), |res|) && i < |res| && Settled(Shot(res), i, false).ok
      modifies nresmap, nresmap.nodes
      ensures Valid() && nresmap.nodes <= old(nresmap.nodes) && Shot(res) == Settled(old(Shot(res)), i, false)
    {
      ghost var b := Settled(Shot(res), i, false);
      assert Shot(res).rs[i] == res[i].View();
      StopWatch(res[i]);
      assert Views(res) == b.rs && nresmap.Contents() == b.table;
    }

    method MarkFor(res: seq<ResourceObject>, i: nat)
      requires Valid() && TableOk(nresmap.Contents(), |res|) && i < |res|
      modifies modset, modset.nodes
      ensures Valid() && fresh(modset.nodes - old(modset.nodes)) && Shot(res) == Settled(old(Shot(res)), i, true)
    {
      ghost var b := Settled(Shot(res), i, true);
      assert Shot(res).rs[i] == res[i].View();
      MarkModified(res[i].nfd);
      assert Views(res) == b.rs && modset.Contents().Keys == b.marked;
    }

    /** Starts another watch for resource `i`; if the kernel refuses, the old descriptor comes back. */
    method NewWatch(res: seq<ResourceObject>, i: nat, fd: int) returns (ok: bool)
      requires Valid() && TableOk(nresmap.Contents(), |res|) && Separated(res) && i < |res|
      modifies nresmap, nresmap.nodes, res[i]
      ensures Valid() && Grown() && ok == (fd > 0)
      ensures Shot(res) == Moved(old(Shot(res)), i, fd)
    {
      ok := WatchAnew(res[i], i, fd);
      assert forall j :: 0 <= j < |res| && j != i ==> res[j].View() == old(res[j].View());
      assert Views(res) == if fd > 0 then WithWatch(old(Views(res)), i, fd) else old(Views(res));
    }

    method WatchAnew(r: ResourceObject, i: nat, fd: int) returns (ok: bool)
      requires Valid()
      modifies nresmap, nresmap.nodes, r`nfd
      ensures Valid() && Grown() && ok == (fd > 0)
      ensures r.nfd == if fd > 0 then fd else old(r.nfd)
      ensures nresmap.Contents() == if fd > 0 then old(nresmap.Contents())[fd := i + 1] else old(nresmap.Contents())
    {
      var prev := r.nfd;
      r.nfd := 0;
      ok := StartWatch(r, i, fd);
      if !ok {
        r.nfd := prev;
      }
    }

    /**
     The whole batch and the pass over the modified set. `ok` says whether the assertion of
     `reload_modified` holds throughout; then `reloads` are the resources to load again.
     */
    method CheckWatch(res: seq<ResourceObject>, events: seq<Event>, msec: nat)
      returns (reloads: seq<nat>, ok: bool, ghost wds: seq<int>)
      requires Valid() && TableOk(nresmap.Contents(), |res|) && Separated(res)
      requires modset.Contents() == map[] && HandleUpTo(Shot(res), events, |events|, msec).ok
      modifies nresmap, nresmap.nodes, modset, modset.nodes, set r | r in res
      ensures Valid() && modset.Contents() == map[]
      ensures var b := HandleUpTo(old(Shot(res)), events, |events|, msec);
              && Views(res) == b.rs && nresmap.Contents() == b.table
              && Ascending(wds) && (set wd | wd in wds) == b.marked
              && (ok <==> forall wd :: wd in b.marked ==> Matches(b.table, b.rs, wd))
              && (ok ==> reloads == Targets(b.table, wds))
    {
      HandleEvents(res, events, msec);
      reloads, ok, wds := ReloadModified(res);
      modset.Clear();
    }

    method HandleEvents(res: seq<ResourceObject>, events: seq<Event>, msec: nat)
      requires Valid() && TableOk(nresmap.Contents(), |res|) && Separated(res)
      requires HandleUpTo(Shot(res), events, |events|, msec).ok
      modifies nresmap, nresmap.nodes, modset, modset.nodes, set r | r in res
      ensures Valid() && Grown() && Shot(res) == HandleUpTo(old(Shot(res)), events, |events|, msec)
    {
      ghost var was, b := Shot(res), Shot(res);
      var i := 0;
      while i < |events|
        invariant i <= |events| && Valid() && Grown()
        invariant Shot(res) == b && b == HandleUpTo(was, events, i, msec)
      {
        OkBefore(was, events, i + 1, |events|, msec);
        HandleEvent(res, events[i], msec);
        b := HandleOne(b, events[i], msec);
        i := i + 1;
      }
    }

    /** `rb_foreach` over the modified set with `reload_modified`. */
    method ReloadModified(res: seq<ResourceObject>) returns (reloads: seq<nat>, ok: bool, ghost wds: seq<int>)
      requires Valid() && TableOk(nresmap.Contents(), |res|)
      ensures Ascending(wds) && (set wd | wd in wds) == modset.Contents().Keys
      ensures ok <==> forall wd :: wd in modset.Contents() ==> Matches(nresmap.Contents(), Views(res), wd)
      ensures ok ==> reloads == Targets(nresmap.Contents(), wds)
    {
      var seen := modset.Foreach();
      wds := KeysOf(Entries(modset.tree));
      AllKeys(modset.tree);
      EntriesInOrder(modset.root, modset.tree);
      reloads, ok := ReloadEach(nresmap, res, seen, wds);
      assert forall wd :: wd in modset.Contents().Keys <==> wd in wds;
    }

    /** `resman_start_watch` for resource `i`, where the kernel answers with `fd`. */
    method StartWatch(r: ResourceObject, i: nat, fd: int) returns (ok: bool)
      requires Valid()
      modifies r`nfd, nresmap, nresmap.nodes
      ensures Valid() && Grown() && ok == (old(r.nfd) > 0 || fd > 0)
      ensures if old(r.nfd) > 0 || fd <= 0 then r.nfd == old(r.nfd) && nresmap.Contents() == old(nresmap.Contents())
              else r.nfd == fd && nresmap.Contents() == old(nresmap.Contents())[fd := i + 1]
    {
      if r.nfd > 0 {
        return true;
      }
      if fd <= 0 {
        return false;
      }
      nresmap.Insert(fd, i + 1);
      r.nfd := fd;
      return true;
    }

    /** The last locked region of `work_func`, with the watch it starts after a successful load. */
    method FinishWatched(r: ResourceObject, i: nat, hasDone: bool, fd: int)
      requires Valid()
      modifies r, nresmap, nresmap.nodes
      ensures Valid()
      ensures var starts := !hasDone && old(r.result) != FAILED && old(r.nfd) <= 0 && fd > 0;
              var f := FinishLoad(old(r.View()), hasDone);
              && r.View() == (if starts then f.(nfd := fd) else f)
              && nresmap.Contents() == if starts then old(nresmap.Contents())[fd := i + 1] else old(nresmap.Contents())
    {
      r.Finish(hasDone);
      if !hasDone && r.result != FAILED {
        var ok := StartWatch(r, i, fd);
      }
    }

    /** The done call in `resman_poll`, with the watch it starts unless it refuses a first load. */
    method DeliverWatched(r: ResourceObject, i: nat, ret: int, fd: int) returns (refused: bool)
      requires Valid()
      modifies r, nresmap, nresmap.nodes
      ensures Valid() && refused == Refused(old(r.View()), ret)
      ensures var starts := !refused && old(r.nfd) <= 0 && fd > 0;
              var d := DeliverDone(old(r.View()), ret);
              && r.View() == (if starts then d.(nfd := fd) else d)
              && nresmap.Contents() == if starts then old(nresmap.Contents())[fd := i + 1] else old(nresmap.Contents())
    {
      refused := r.Deliver(ret);
      if !refused {
        var ok := StartWatch(r, i, fd);
      }
    }

    /** `remove_resource`, with the watch it stops when the table can lose the descriptor. */
    method RemoveWatched(m: Manager, i: nat)
      requires Valid() && m.Valid() && i < |m.res| && m.res[i] != null
      requires m.res[i].nfd > 0 ==> m.res[i].nfd in nresmap.Contents() && |nresmap.Contents()| >= 2
      modifies nresmap, nresmap.nodes, m`res
      ensures Valid() && m.Valid() && m.View() == old(m.View())[i := None]
      ensures var nfd := old(m.res[i].nfd);
              nresmap.Contents() == if nfd > 0 then old(nresmap.Contents()) - {nfd} else old(nresmap.Contents())
    {
      StopWatch(m.res[i]);
      m.RemoveResource(i);
    }

    /** `resman_stop_watch`, when the table can lose the descriptor. */
    method StopWatch(r: ResourceObject)
      requires Valid() && (r.nfd > 0 ==> r.nfd in nresmap.Contents() && |nresmap.Contents()| >= 2)
      modifies nresmap, nresmap.nodes
      ensures Valid() && nresmap.nodes <= old(nresmap.nodes)
      ensures nresmap.Contents() == if r.nfd > 0 then old(nresmap.Contents()) - {r.nfd} else old(nresmap.Contents())
    {
      if r.nfd > 0 {
        nresmap.Delete(r.nfd);
      }
    }

    method MarkModified(wd: int)
      requires Valid()
      modifies modset, modset.nodes
      ensures Valid() && fresh(modset.nodes - old(modset.nodes))
      ensures modset.Contents().Keys == old(modset.Contents().Keys) + {wd}
    {
      modset.Insert(wd, 0);
    }
  }

  /** The event's effect on the fields of one resource. */
  method Touch(res: seq<ResourceObject>, i: nat, e: Event, msec: nat)
    requires i < |res| && Separated(res)
    modifies res[i]
    ensures Views(res) == old(Views(res))[i := Handle(old(Views(res))[i], e, msec)]
  {
    var r := res[i];
    if e.edit {
      r.reloadTimeout := msec + RELOAD_DELAY;
      r.lastModify := msec;
      r.edits := r.edits + 1;
    }
    if e.closeWrite {
      r.reloadTimeout := 0;
    }
    assert forall j :: 0 <= j < |res| && j != i ==> res[j].View() == old(res[j].View());
  }
}
