/**
 One whole call of `resman_poll` between two changes by the workers, and what a run of such calls
 achieves. `None` is an emptied slot of the resource array.
 */
module PollSpec {
  import opened Options
  import opened Sequences
  import opened ResourceState

  type Slots = seq<Option<Resource>>

  /** The first loop: resources marked for deletion go, unless a load is pending. */
  function DeletePass(slots: Slots): (r: Slots)
    ensures |r| == |slots|
  {
    seq(|slots|, i requires 0 <= i < |slots| =>
      if slots[i].Some? && DeleteDue(slots[i].value) then None else slots[i])
  }

  /** The slots with the first `n` passed by the first loop. */
  function Deleted(slots: Slots, n: nat): (r: Slots)
    requires n <= |slots|
    ensures |r| == |slots|
  {
    DeletePass(slots)[..n] + slots[n..]
  }

  /** The first loop's next turn. */
  lemma DeletedNext(slots: Slots, n: nat)
    requires n < |slots|
    ensures Deleted(slots, n)[n] == slots[n]
    ensures Deleted(slots, n)[n := DeletePass(Deleted(slots, n))[n]] == Deleted(slots, n + 1)
  {
  }

  lemma DeletedEnds(slots: Slots)
    ensures Deleted(slots, 0) == slots && Deleted(slots, |slots|) == DeletePass(slots)
  {
  }

  /** The array, the resources whose done callback was called, and the load jobs enqueued. */
  datatype Outcome = Outcome(slots: Slots, calls: seq<nat>, jobs: seq<nat>)

  /** What the callback of slot `i` returns, and whether the time slice is used up after it. */
  datatype Reply = Reply(ret: int, late: bool)

  /** One turn of the second loop. */
  function DeliverOne(o: Outcome, i: nat, start: nat, ret: int): (p: Outcome)
    requires i < |o.slots|
    ensures |p.slots| == |o.slots|
  {
    if o.slots[i].None? then o
    else
      var r := o.slots[i].value;
      if r.donePending then
        Outcome(o.slots[i := if Refused(r, ret) then None else Some(DeliverDone(r, ret))], o.calls + [i], o.jobs)
      else if ReloadDue(r, start) then
        Outcome(o.slots[i := Some(SetPending(DelayedReload(r)))], o.calls, o.jobs + [i])
      else o
  }

  /** The loop ends early after a delivered callback that was not refused, once the slice is used up. */
  predicate Stops(slot: Option<Resource>, reply: Reply) {
    slot.Some? && slot.value.donePending && !Refused(slot.value, reply.ret) && reply.late
  }

  function DeliverFrom(o: Outcome, i: nat, start: nat, replies: seq<Reply>): Outcome
    requires i <= |o.slots| == |replies|
    decreases |o.slots| - i
  {
    if i == |o.slots| then o
    else
      var p := DeliverOne(o, i, start, replies[i].ret);
      if Stops(o.slots[i], replies[i]) then p else DeliverFrom(p, i + 1, start, replies)
  }

  function Poll(slots: Slots, hasDone: bool, start: nat, replies: seq<Reply>, jobs: seq<nat>): Outcome
    requires |slots| == |replies|
  {
    var o := Outcome(DeletePass(slots), [], jobs);
    if hasDone then DeliverFrom(o, 0, start, replies) else o
  }

  /* ---- which slots the loop comes to, and what happens there ---- */

  /** The loop comes to the slots before this one: the first at which it stops is the last. */
  function CutAt(slots: Slots, i: nat, replies: seq<Reply>): (k: nat)
    requires i <= |slots| == |replies|
    ensures i <= k <= |slots|
    decreases |slots| - i
  {
    if i == |slots| then i else if Stops(slots[i], replies[i]) then i + 1 else CutAt(slots, i + 1, replies)
  }

  predicate Waits(slot: Option<Resource>) {
    slot.Some? && slot.value.donePending
  }

  predicate Due(slot: Option<Resource>, start: nat) {
    slot.Some? && ReloadDue(slot.value, start)
  }

  /** The slots from `i` to `k` whose resources wait for a done call, in order. */
  function WaitingFrom(slots: Slots, i: nat, k: nat): seq<nat>
    requires i <= k <= |slots|
    decreases k - i
  {
    if i == k then [] else (if Waits(slots[i]) then [i] else []) + WaitingFrom(slots, i + 1, k)
  }

  /** The slots from `i` to `k` whose resources are due for a delayed reload, in order. */
  function DueFrom(slots: Slots, i: nat, k: nat, start: nat): seq<nat>
    requires i <= k <= |slots|
    decreases k - i
  {
    if i == k then [] else (if Due(slots[i], start) then [i] else []) + DueFrom(slots, i + 1, k, start)
  }

  /** What one resource looks like after its turn. */
  function Turned(slot: Option<Resource>, start: nat, ret: int): Option<Resource> {
    if Waits(slot) then if Refused(slot.value, ret) then None else Some(DeliverDone(slot.value, ret))
    else if Due(slot, start) then Some(SetPending(DelayedReload(slot.value)))
    else slot
  }

  lemma {:induction false} FromSame(a: Slots, b: Slots, i: nat, k: nat, start: nat)
    requires i <= k <= |a| == |b| && forall j :: i <= j < |a| ==> a[j] == b[j]
    ensures WaitingFrom(a, i, k) == WaitingFrom(b, i, k) && DueFrom(a, i, k, start) == DueFrom(b, i, k, start)
    decreases k - i
  {
    if i < k {
      FromSame(a, b, i + 1, k, start);
    }
  }

  lemma {:induction false} CutSame(a: Slots, b: Slots, i: nat, replies: seq<Reply>)
    requires i <= |a| == |b| == |replies| && forall j :: i <= j < |a| ==> a[j] == b[j]
    ensures CutAt(a, i, replies) == CutAt(b, i, replies)
    decreases |a| - i
  {
    if i < |a| {
      CutSame(a, b, i + 1, replies);
    }
  }

  /** The loop turns the slots up to the cut, each once, and leaves the others alone. */
  lemma {:induction false} DeliverExact(o: Outcome, i: nat, start: nat, replies: seq<Reply>)
    requires i <= |o.slots| == |replies|
    ensures var p, k := DeliverFrom(o, i, start, replies), CutAt(o.slots, i, replies);
            && p.calls == o.calls + WaitingFrom(o.slots, i, k)
            && p.jobs == o.jobs + DueFrom(o.slots, i, k, start)
            && |p.slots| == |o.slots|
            && forall j :: 0 <= j < |o.slots| ==>
                 p.slots[j] == if i <= j < k then Turned(o.slots[j], start, replies[j].ret) else o.slots[j]
    decreases |o.slots| - i
  {
    if i < |o.slots| {
      var p := DeliverOne(o, i, start, replies[i].ret);
      if !Stops(o.slots[i], replies[i]) {
        DeliverExact(p, i + 1, start, replies);
        CutSame(p.slots, o.slots, i + 1, replies);
        FromSame(p.slots, o.slots, i + 1, CutAt(o.slots, i + 1, replies), start);
      }
    }
  }

  lemma {:induction false} DueMembers(slots: Slots, i: nat, k: nat, start: nat)
    requires i <= k <= |slots|
    ensures forall j :: j in DueFrom(slots, i, k, start) <==> i <= j < k && Due(slots[j], start)
    ensures Ascending(DueFrom(slots, i, k, start))
    decreases k - i
  {
    if i < k {
      DueMembers(slots, i + 1, k, start);
      AscendingCons(i, DueFrom(slots, i + 1, k, start));
    }
  }

  /**
   A poll enqueues exactly one job for each resource it comes to that is due for a delayed reload.
   Unless the time slice cuts it off, no resource is due any more that was not waiting for its done call.
   */
  lemma PollReloads(slots: Slots, start: nat, replies: seq<Reply>, jobs: seq<nat>)
    requires |slots| == |replies|
    ensures var p, d := Poll(slots, true, start, replies, jobs), DeletePass(slots);
            var k := CutAt(d, 0, replies);
            && |p.slots| == |slots| && |jobs| <= |p.jobs| && p.jobs[..|jobs|] == jobs
            && (forall j :: j in p.jobs[|jobs|..] <==> 0 <= j < k && Due(d[j], start))
            && Ascending(p.jobs[|jobs|..])
            && (forall j :: 0 <= j < k && Due(p.slots[j], start) ==> Waits(d[j]))
  {
    var d := DeletePass(slots);
    var k := CutAt(d, 0, replies);
    DeliverExact(Outcome(d, [], jobs), 0, start, replies);
    DueMembers(d, 0, k, start);
    var p := Poll(slots, true, start, replies, jobs);
    assert p.jobs[|jobs|..] == DueFrom(d, 0, k, start);
  }

  /* ---- a poll in terms of the fields ---- */

  /** The done callback is called for the resource, which was never delivered before, and returns -1. */
  predicate Refuses(r: Resource, ret: int) {
    r.donePending && ret == -1 && r.numLoads == 0
  }

  /** The done callback of slot `j` is called and not refused, and the time slice is used up after it. */
  predicate EndsAt(slots: Slots, replies: seq<Reply>, j: nat)
    requires j < |slots| == |replies|
  {
    slots[j].Some? && slots[j].value.donePending && replies[j].late && !Refuses(slots[j].value, replies[j].ret)
  }

  /** The loop goes on up to the first such slot, and to the end if there is none. */
  lemma {:induction false} CutExactly(slots: Slots, i: nat, replies: seq<Reply>)
    requires i <= |slots| == |replies|
    ensures var k := CutAt(slots, i, replies);
            && (forall j :: i <= j < k - 1 ==> !EndsAt(slots, replies, j))
            && (k < |slots| ==> i < k && EndsAt(slots, replies, k - 1))
    decreases |slots| - i
  {
    if i < |slots| && !Stops(slots[i], replies[i]) {
      CutExactly(slots, i + 1, replies);
    }
  }

  /** While the time slice lasts the loop turns every slot. */
  lemma {:induction false} NoneLate(slots: Slots, replies: seq<Reply>)
    requires |slots| == |replies| && forall j :: 0 <= j < |replies| ==> !replies[j].late
    ensures CutAt(slots, 0, replies) == |slots|
  {
    CutExactly(slots, 0, replies);
  }

  lemma {:induction false} WaitingMembers(slots: Slots, i: nat, k: nat)
    requires i <= k <= |slots|
    ensures forall j :: j in WaitingFrom(slots, i, k) <==> i <= j < k && Waits(slots[j])
    ensures Ascending(WaitingFrom(slots, i, k))
    decreases k - i
  {
    if i < k {
      WaitingMembers(slots, i + 1, k);
      AscendingCons(i, WaitingFrom(slots, i + 1, k));
    }
  }

  /** The resource is marked for deletion and no load of it is pending. */
  predicate Marked(slot: Option<Resource>) {
    slot.Some? && slot.value.deletePending && !slot.value.pending
  }

  /**
   Which resources a poll removes, which it calls back for, which it reloads, and what it leaves of the
   others, where the second loop comes to the slots before `k`.
   */
  lemma PollFields(slots: Slots, start: nat, replies: seq<Reply>, jobs: seq<nat>, j: nat)
    requires |slots| == |replies| && j < |slots|
    ensures var p, k := Poll(slots, true, start, replies, jobs), CutAt(DeletePass(slots), 0, replies);
            && |p.slots| == |slots| && |jobs| <= |p.jobs| && p.jobs[..|jobs|] == jobs
            && Ascending(p.calls) && Ascending(p.jobs[|jobs|..])
            && (p.slots[j].None? <==>
                  slots[j].None? || Marked(slots[j]) || (j < k && Refuses(slots[j].value, replies[j].ret)))
            && (j in p.calls <==> j < k && slots[j].Some? && !Marked(slots[j]) && slots[j].value.donePending)
            && (j in p.jobs[|jobs|..] <==>
                  && j < k && slots[j].Some? && !Marked(slots[j]) && !slots[j].value.donePending
                  && 0 < slots[j].value.reloadTimeout <= start)
    ensures var p, k := Poll(slots, true, start, replies, jobs), CutAt(DeletePass(slots), 0, replies);
            p.slots[j].Some? ==>
              var r, q := slots[j].value, p.slots[j].value;
              && q.donePending == (r.donePending && k <= j)
              && q.numLoads == r.numLoads + (if r.donePending && j < k then 1 else 0)
              && q.pending == (r.pending || j in p.jobs[|jobs|..])
              && q.reloadTimeout == (if j in p.jobs[|jobs|..] then 0 else r.reloadTimeout)
              && q.deletePending == r.deletePending && q.result == r.result && q.nfd == r.nfd
  {
    var d := DeletePass(slots);
    var k := CutAt(d, 0, replies);
    DeliverExact(Outcome(d, [], jobs), 0, start, replies);
    DueMembers(d, 0, k, start);
    WaitingMembers(d, 0, k);
    var p := Poll(slots, true, start, replies, jobs);
    assert p.jobs[|jobs|..] == DueFrom(d, 0, k, start);
    assert p.calls == WaitingFrom(d, 0, k);
  }

  /** Without a done callback a poll only removes. */
  lemma PollWithoutDone(slots: Slots, start: nat, replies: seq<Reply>, jobs: seq<nat>, j: nat)
    requires |slots| == |replies| && j < |slots|
    ensures var p := Poll(slots, false, start, replies, jobs);
            && |p.slots| == |slots| && p.calls == [] && p.jobs == jobs
            && p.slots[j] == if Marked(slots[j]) then None else slots[j]
  {
  }

  /* ---- progress ---- */

  /** How many of the first `n` slots wait for their done call. */
  function WaitingAmong(slots: Slots, n: nat): nat
    requires n <= |slots|
  {
    if n == 0 then 0 else WaitingAmong(slots, n - 1) + if Waits(slots[n - 1]) then 1 else 0
  }

  lemma {:induction false} WaitingUpdate(slots: Slots, n: nat, i: nat, slot: Option<Resource>)
    requires i < |slots| && n <= |slots|
    ensures WaitingAmong(slots[i := slot], n) == WaitingAmong(slots, n)
            + if i < n then (if Waits(slot) then 1 else 0) - (if Waits(slots[i]) then 1 else 0) else 0
  {
    if n > 0 {
      WaitingUpdate(slots, n - 1, i, slot);
    }
  }

  lemma {:induction false} WaitingFewer(a: Slots, b: Slots, n: nat)
    requires n <= |a| == |b| && forall i :: 0 <= i < n && Waits(a[i]) ==> Waits(b[i])
    ensures WaitingAmong(a, n) <= WaitingAmong(b, n)
    ensures (exists i :: 0 <= i < n && Waits(b[i]) && !Waits(a[i])) ==> WaitingAmong(a, n) < WaitingAmong(b, n)
  {
    if n > 0 {
      WaitingFewer(a, b, n - 1);
    }
  }

  /** Each turn of the loop makes a call exactly for a waiting resource, which then no longer waits. */
  lemma DeliverOneCounts(o: Outcome, i: nat, start: nat, ret: int)
    requires i < |o.slots|
    ensures var p := DeliverOne(o, i, start, ret);
            && WaitingAmong(p.slots, |p.slots|) + |p.calls| == WaitingAmong(o.slots, |o.slots|) + |o.calls|
            && |p.calls| == |o.calls| + if Waits(o.slots[i]) then 1 else 0
  {
    var p := DeliverOne(o, i, start, ret);
    if p.slots != o.slots {
      WaitingUpdate(o.slots, |o.slots|, i, p.slots[i]);
    }
  }

  /** The loop calls back for as many resources as stop waiting, and for at least one if any is left. */
  lemma {:induction false} DeliverCounts(o: Outcome, i: nat, start: nat, replies: seq<Reply>)
    requires i <= |o.slots| == |replies|
    ensures var p := DeliverFrom(o, i, start, replies);
            && |p.slots| == |o.slots| && |p.calls| >= |o.calls|
            && WaitingAmong(p.slots, |p.slots|) + |p.calls| == WaitingAmong(o.slots, |o.slots|) + |o.calls|
            && ((exists j :: i <= j < |o.slots| && Waits(o.slots[j])) ==> |p.calls| > |o.calls|)
    decreases |o.slots| - i
  {
    if i < |o.slots| {
      DeliverOneCounts(o, i, start, replies[i].ret);
      var p := DeliverOne(o, i, start, replies[i].ret);
      if !Stops(o.slots[i], replies[i]) {
        DeliverCounts(p, i + 1, start, replies);
        assert forall j :: i < j < |o.slots| ==> p.slots[j] == o.slots[j];
      }
    }
  }

  /**
   With a done callback, a poll calls back for every resource that stops waiting without being
   deleted, and for at least one if any waits after the deletions, however short the time slice.
   */
  lemma PollDelivers(slots: Slots, start: nat, replies: seq<Reply>, jobs: seq<nat>)
    requires |slots| == |replies|
    ensures var p := Poll(slots, true, start, replies, jobs);
            && |p.slots| == |slots|
            && WaitingAmong(p.slots, |slots|) + |p.calls| == WaitingAmong(DeletePass(slots), |slots|)
            && (|p.calls| >= 1 <==> exists i :: 0 <= i < |slots| && Waits(DeletePass(slots)[i]))
  {
    var d := DeletePass(slots);
    DeliverCounts(Outcome(d, [], jobs), 0, start, replies);
    if !(exists i :: 0 <= i < |slots| && Waits(d[i])) {
      NoneWaiting(d, |d|);
    }
  }

  lemma {:induction false} NoneWaiting(slots: Slots, n: nat)
    requires n <= |slots| && forall i :: 0 <= i < n ==> !Waits(slots[i])
    ensures WaitingAmong(slots, n) == 0
  {
    if n > 0 {
      NoneWaiting(slots, n - 1);
    }
  }

  lemma {:induction false} SomeWaiting(slots: Slots, n: nat) returns (i: nat)
    requires n <= |slots| && WaitingAmong(slots, n) > 0
    ensures i < n && Waits(slots[i])
  {
    if Waits(slots[n - 1]) {
      i := n - 1;
    } else {
      i := SomeWaiting(slots, n - 1);
    }
  }

  /** As long as any resource waits for its done call, a poll leaves fewer that do. */
  lemma PollProgress(slots: Slots, start: nat, replies: seq<Reply>, jobs: seq<nat>)
    requires |slots| == |replies| && WaitingAmong(slots, |slots|) > 0
    ensures |Poll(slots, true, start, replies, jobs).slots| == |slots|
    ensures WaitingAmong(Poll(slots, true, start, replies, jobs).slots, |slots|) < WaitingAmong(slots, |slots|)
  {
    var d := DeletePass(slots);
    PollDelivers(slots, start, replies, jobs);
    WaitingFewer(d, slots, |slots|);
    var i := SomeWaiting(slots, |slots|);
    assert Waits(slots[i]) && (Waits(d[i]) || !Waits(d[i]));
  }

  datatype Round = Round(start: nat, replies: seq<Reply>)

  /** Poll after poll, with no load finishing in between. */
  function Polls(slots: Slots, rounds: seq<Round>): Slots
    requires forall k :: 0 <= k < |rounds| ==> |rounds[k].replies| == |slots|
    decreases |rounds|
  {
    if rounds == [] then slots
    else
      var p := Poll(slots, true, rounds[0].start, rounds[0].replies, []);
      PollDelivers(slots, rounds[0].start, rounds[0].replies, []);
      Polls(p.slots, rounds[1..])
  }

  /** So many polls as there are waiting resources deliver them all. */
  lemma {:induction false} PollsDrain(slots: Slots, rounds: seq<Round>)
    requires forall k :: 0 <= k < |rounds| ==> |rounds[k].replies| == |slots|
    requires |rounds| >= WaitingAmong(slots, |slots|)
    ensures |Polls(slots, rounds)| == |slots|
    ensures forall i :: 0 <= i < |slots| ==> !Waits(Polls(slots, rounds)[i])
    decreases |rounds|
  {
    if rounds == [] {
      forall i | 0 <= i < |slots| ensures !Waits(slots[i]) {
        if Waits(slots[i]) { WaitingPositive(slots, |slots|, i); }
      }
    } else {
      var p := Poll(slots, true, rounds[0].start, rounds[0].replies, []);
      PollDelivers(slots, rounds[0].start, rounds[0].replies, []);
      WaitingFewer(DeletePass(slots), slots, |slots|);
      if WaitingAmong(slots, |slots|) > 0 {
        PollProgress(slots, rounds[0].start, rounds[0].replies, []);
      }
      PollsDrain(p.slots, rounds[1..]);
    }
  }

  lemma {:induction false} WaitingPositive(slots: Slots, n: nat, i: nat)
    requires i < n <= |slots| && Waits(slots[i])
    ensures WaitingAmong(slots, n) > 0
  {
    if i < n - 1 {
      WaitingPositive(slots, n - 1, i);
    }
  }
}
