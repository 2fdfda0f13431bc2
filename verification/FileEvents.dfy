/** What a batch of kernel events does to the resources, the watch table and the modified set, as values. */
module FileEvents {
  import opened ResourceState

  /**
   The parts of `struct inotify_event` that matter: the descriptor and three bits of the mask. If the
   watch was dropped, `fd` is what the kernel answers to the new one.
   */
  datatype Event = Event(wd: int, edit: bool, closeWrite: bool, ignored: bool, fd: int)

  /**
   A watch table leads from descriptors to resources; resource `i` has the address `i + 1`. `ok` is
   lost when an event makes the C code dereference a null pointer.
   */
  datatype Batch = Batch(rs: seq<Resource>, table: map<int, int>, marked: set<int>, ok: bool)

  predicate TableOk(table: map<int, int>, n: nat) {
    forall wd :: wd in table ==> 1 <= table[wd] <= n
  }

  /** A watch table as the tree holds it: resource `i` has the address `i + 1`. */
  function Addresses(watches: map<int, nat>): map<int, int> {
    map wd | wd in watches :: watches[wd] + 1
  }

  /** What the modify and close-write bits do to the resource behind the descriptor. */
  function Handle(r: Resource, e: Event, msec: nat): Resource {
    var m := if e.edit then Modify(r, msec) else r;
    if e.closeWrite then CloseWrite(m) else m
  }

  /** Resource `i` holds the descriptor `fd`. */
  function WithWatch(rs: seq<Resource>, i: nat, fd: int): (r: seq<Resource>)
    requires i < |rs|
    ensures |r| == |rs|
  {
    rs[i := rs[i].(nfd := fd)]
  }

  /** A new watch for resource `i`, unless the kernel refuses one. */
  function Moved(b: Batch, i: nat, fd: int): (c: Batch)
    requires TableOk(b.table, |b.rs|) && i < |b.rs|
    ensures TableOk(c.table, |c.rs|) && |c.rs| == |b.rs|
  {
    if fd > 0 then b.(rs := WithWatch(b.rs, i, fd), table := b.table[fd := i + 1]) else b
  }

  /** A new descriptor joins the modified set; without one the watch is stopped. */
  function Settled(b: Batch, i: nat, watched: bool): (c: Batch)
    requires TableOk(b.table, |b.rs|) && i < |b.rs|
    ensures TableOk(c.table, |c.rs|) && |c.rs| == |b.rs|
  {
    var nfd := b.rs[i].nfd;
    if watched then b.(marked := b.marked + {nfd})
    else if nfd <= 0 then b
    else if nfd in b.table && |b.table| >= 2 then b.(table := b.table - {nfd})
    else b.(ok := false)
  }

  /** The watch of resource `i` was dropped: it is started again, or stopped if the kernel refuses. */
  function Restarted(b: Batch, i: nat, fd: int): (c: Batch)
    requires TableOk(b.table, |b.rs|) && i < |b.rs|
    ensures TableOk(c.table, |c.rs|) && |c.rs| == |b.rs|
  {
    Settled(Moved(b, i, fd), i, fd > 0)
  }

  /** A granted descriptor is with the resource, in the table and marked; without one the old one leaves the table. */
  lemma RestartOutcome(b: Batch, i: nat, fd: int)
    requires TableOk(b.table, |b.rs|) && i < |b.rs| && b.ok
    ensures var c, nfd := Restarted(b, i, fd), b.rs[i].nfd;
            && (fd > 0 ==> c.ok && c.rs[i].nfd == fd && c.table == b.table[fd := i + 1] && c.marked == b.marked + {fd})
            && (fd <= 0 ==> c.rs == b.rs && c.marked == b.marked)
            && (fd <= 0 && nfd <= 0 ==> c.ok && c.table == b.table)
            && (fd <= 0 && nfd > 0 ==> (c.ok <==> nfd in b.table && |b.table| > 1))
            && (fd <= 0 && nfd > 0 && c.ok ==> c.table == b.table - {nfd})
  {
  }

  function HandleOne(b: Batch, e: Event, msec: nat): (c: Batch)
    requires TableOk(b.table, |b.rs|)
    ensures TableOk(c.table, |c.rs|) && |c.rs| == |b.rs| && (c.ok ==> b.ok)
  {
    if !b.ok || e.wd !in b.table then b
    else
      var i := b.table[e.wd] - 1;
      var c := b.(rs := b.rs[i := Handle(b.rs[i], e, msec)],
                  marked := b.marked + if e.closeWrite then {e.wd} else {});
      if e.ignored then Restarted(c, i, e.fd) else c
  }

  /** The first `n` events, one after the other. */
  function HandleUpTo(b: Batch, events: seq<Event>, n: nat, msec: nat): (c: Batch)
    requires TableOk(b.table, |b.rs|) && n <= |events|
    ensures TableOk(c.table, |c.rs|) && |c.rs| == |b.rs|
  {
    if n == 0 then b else HandleOne(HandleUpTo(b, events, n - 1, msec), events[n - 1], msec)
  }

  lemma {:induction false} OkBefore(b: Batch, events: seq<Event>, k: nat, n: nat, msec: nat)
    requires TableOk(b.table, |b.rs|) && k <= n <= |events| && HandleUpTo(b, events, n, msec).ok
    ensures HandleUpTo(b, events, k, msec).ok
  {
    if k < n {
      OkBefore(b, events, k, n - 1, msec);
    }
  }

  /** When event `k` comes, its descriptor leads to resource `i`, and it sets or clears the timeout. */
  predicate Concerns(b: Batch, events: seq<Event>, k: nat, msec: nat, i: nat)
    requires TableOk(b.table, |b.rs|) && k < |events|
  {
    var table, e := HandleUpTo(b, events, k, msec).table, events[k];
    e.wd in table && table[e.wd] == i + 1 && (e.edit || e.closeWrite)
  }

  /** One event sets, clears or keeps the timeout of a resource. */
  lemma TimeoutStep(b: Batch, e: Event, msec: nat, i: nat)
    requires TableOk(b.table, |b.rs|) && i < |b.rs| && HandleOne(b, e, msec).ok
    ensures HandleOne(b, e, msec).rs[i].reloadTimeout ==
            if !(e.wd in b.table && b.table[e.wd] == i + 1) then b.rs[i].reloadTimeout
            else if e.closeWrite then 0
            else if e.edit then msec + RELOAD_DELAY
            else b.rs[i].reloadTimeout
  {
  }

  /** The last event `k` about a resource decides: a close-write disarms its timeout, a modify arms it. */
  lemma {:induction false} LastEventDecides(b: Batch, events: seq<Event>, n: nat, msec: nat, i: nat) returns (k: int)
    requires TableOk(b.table, |b.rs|) && n <= |events| && i < |b.rs| && HandleUpTo(b, events, n, msec).ok
    ensures -1 <= k < n && (k >= 0 ==> Concerns(b, events, k, msec, i))
    ensures forall l :: k < l < n ==> !Concerns(b, events, l, msec, i)
    ensures HandleUpTo(b, events, n, msec).rs[i].reloadTimeout ==
            if k < 0 then b.rs[i].reloadTimeout else if events[k].closeWrite then 0 else msec + RELOAD_DELAY
  {
    k := -1;
    if n > 0 {
      TimeoutStep(HandleUpTo(b, events, n - 1, msec), events[n - 1], msec, i);
      if Concerns(b, events, n - 1, msec, i) {
        k := n - 1;
      } else {
        k := LastEventDecides(b, events, n - 1, msec, i);
      }
    }
  }

  /** Event `k` puts `wd` into the modified set: its file was closed, or its watch is a new one. */
  predicate MarksAt(b: Batch, events: seq<Event>, k: nat, msec: nat, wd: int)
    requires TableOk(b.table, |b.rs|) && k < |events|
  {
    var e := events[k];
    && e.wd in HandleUpTo(b, events, k, msec).table
    && ((e.closeWrite && e.wd == wd) || (e.ignored && e.fd == wd && wd > 0))
  }

  lemma MarkStep(b: Batch, e: Event, msec: nat, wd: int)
    requires TableOk(b.table, |b.rs|) && HandleOne(b, e, msec).ok
    ensures wd in HandleOne(b, e, msec).marked <==>
            wd in b.marked
            || (e.wd in b.table && ((e.closeWrite && e.wd == wd) || (e.ignored && e.fd == wd && wd > 0)))
  {
  }

  lemma {:induction false} MarkedExactly(b: Batch, events: seq<Event>, n: nat, msec: nat, wd: int)
    requires TableOk(b.table, |b.rs|) && n <= |events| && HandleUpTo(b, events, n, msec).ok
    ensures wd in HandleUpTo(b, events, n, msec).marked
            <==> wd in b.marked || exists k :: 0 <= k < n && MarksAt(b, events, k, msec, wd)
  {
    if n > 0 {
      MarkedExactly(b, events, n - 1, msec, wd);
      MarkStep(HandleUpTo(b, events, n - 1, msec), events[n - 1], msec, wd);
      assert MarksAt(b, events, n - 1, msec, wd) || !MarksAt(b, events, n - 1, msec, wd);
    }
  }

  /** The resources behind some descriptors; one that is not in the table has none. */
  ghost function Targets(table: map<int, int>, wds: seq<int>): seq<nat> {
    if wds == [] then []
    else
      var rest, wd := Targets(table, wds[..|wds| - 1]), wds[|wds| - 1];
      if wd in table && table[wd] >= 1 then rest + [table[wd] - 1] else rest
  }

  lemma TargetsAppend(table: map<int, int>, wds: seq<int>, n: nat)
    requires n < |wds|
    ensures Targets(table, wds[..n + 1]) == Targets(table, wds[..n])
            + if wds[n] in table && table[wds[n]] >= 1 then [table[wds[n]] - 1] else []
  {
    assert wds[..n + 1][..n] == wds[..n];
  }

  /** The assertion of `reload_modified`: the resource found under a descriptor holds it. */
  predicate Matches(table: map<int, int>, rs: seq<Resource>, wd: int)
    requires TableOk(table, |rs|)
  {
    wd in table ==> rs[table[wd] - 1].nfd == wd
  }
}
