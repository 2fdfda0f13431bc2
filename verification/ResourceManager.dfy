/** `struct resource` and `struct resman` as objects, with the calls of the owning thread. */
module ResourceManager {
  import opened Options
  import opened ResourceState
  import opened PollSpec

  class ResourceObject {
    var pending: bool
    var donePending: bool
    var deletePending: bool
    var numLoads: nat
    var result: int
    var reloadTimeout: nat
    var nfd: int
    ghost var finished: nat
    ghost var unseen: nat
    ghost var doneCalls: nat
    ghost var removeAsked: bool
    ghost var lastModify: nat
    ghost var edits: nat

    ghost function View(): Resource
      reads this
    {
      Resource(pending, donePending, deletePending, numLoads, result, reloadTimeout, nfd,
               finished, unseen, doneCalls, removeAsked, lastModify, edits)
    }

    constructor ()
      ensures View() == NEW
    {
      pending, donePending, deletePending := false, false, false;
      numLoads, result, reloadTimeout, nfd := 0, 0, 0, 0;
      finished, unseen, doneCalls, removeAsked, lastModify, edits := 0, 0, 0, false, 0, 0;
    }

    /** The end of `work_func`, with the lock held. */
    method Finish(hasDone: bool)
      modifies this
      ensures View() == FinishLoad(old(View()), hasDone)
      ensures !pending && donePending == (old(donePending) || hasDone) && finished == old(finished) + 1
      ensures deletePending == (old(deletePending) || (!hasDone && result == -1 && numLoads == 0))
    {
      pending := false;
      finished, unseen := finished + 1, unseen + 1;
      if !hasDone {
        if result == FAILED {
          if numLoads == 0 {
            deletePending := true;
          }
        }
      } else {
        donePending := true;
      }
    }

    /** The done callback has returned `ret`; says whether the resource must go. */
    method Deliver(ret: int) returns (refused: bool)
      modifies this
      ensures View() == DeliverDone(old(View()), ret) && refused == Refused(old(View()), ret)
      ensures !donePending && doneCalls == old(doneCalls) + 1 && (refused <==> ret == -1 && old(numLoads) == 0)
      ensures numLoads == old(numLoads) + if refused then 0 else 1
    {
      donePending := false;
      doneCalls, unseen := doneCalls + 1, 0;
      if ret == FAILED {
        if numLoads == 0 {
          return true;
        }
      }
      numLoads := numLoads + 1;
      refused := false;
    }
  }

  class Manager {
    var res: seq<ResourceObject?>
    var jobs: seq<nat>          // the resources whose load jobs were enqueued, in order
    const hasDone: bool

    /** No two slots hold the same object. */
    ghost predicate Valid()
      reads this
    {
      forall i, j :: 0 <= i < j < |res| && res[i] != null ==> res[i] != res[j]
    }

    ghost function Objects(): set<ResourceObject>
      reads this
    {
      set r: ResourceObject | r in res
    }

    ghost function ViewAt(i: nat): Option<Resource>
      requires i < |res|
      reads this, if res[i] == null then {} else {res[i]}
    {
      if res[i] == null then None else Some(res[i].View())
    }

    ghost function View(): Slots
      reads this, Objects()
    {
      seq(|res|, i requires 0 <= i < |res| reads this, Objects() => ViewAt(i))
    }

    constructor (hasDone: bool)
      ensures Valid() && View() == [] && jobs == [] && this.hasDone == hasDone
    {
      res, jobs := [], [];
      this.hasDone := hasDone;
    }

    /** `resman_reload` */
    method Reload(i: nat)
      requires Valid() && i < |res| && res[i] != null
      modifies this`jobs, res[i]
      ensures Valid() && jobs == old(jobs) + [i]
      ensures View() == old(View())[i := Some(SetPending(old(res[i].View())))]
    {
      res[i].pending := true;
      jobs := jobs + [i];
    }

    /** The append path of `add_resource`. */
    method Add() returns (idx: nat)
      requires Valid()
      modifies this
      ensures Valid() && idx == |old(res)| && jobs == old(jobs) + [idx] && old(res) <= res
      ensures View() == old(View()) + [Some(SetPending(NEW))]
    {
      var r := new ResourceObject();
      idx := |res|;
      res := res + [r];
      assert res[idx] == r;
      label added:
      assert forall i :: 0 <= i < idx ==> ViewAt(i) == old(ViewAt(i));
      Reload(idx);
    }

    /** `resman_remove` */
    method Remove(i: nat)
      requires Valid() && i < |res| && res[i] != null
      modifies res[i]
      ensures Valid() && View() == old(View())[i := Some(AskRemove(old(res[i].View())))]
    {
      res[i].deletePending := true;
      res[i].removeAsked := true;
    }

    /** `remove_resource` */
    method RemoveResource(i: nat)
      requires Valid() && i < |res|
      modifies this`res
      ensures Valid() && res == old(res)[i := null] && Objects() <= old(Objects())
      ensures View() == old(View())[i := None]
    {
      res := res[i := null];
    }

    /** One turn of the first loop of `resman_poll`. */
    method DeleteIfDue(i: nat)
      requires Valid() && i < |res|
      modifies this`res
      ensures Valid() && |res| == |old(res)| && Objects() <= old(Objects())
      ensures View() == old(View())[i := DeletePass(old(View()))[i]]
    {
      assert View()[i] == ViewAt(i);
      var r := res[i];
      if r != null {
        if r.deletePending && !r.pending {
          RemoveResource(i);
        }
      }
    }

    /** The first loop of `resman_poll`. */
    method DeleteMarked()
      requires Valid()
      modifies this`res
      ensures Valid() && Objects() <= old(Objects()) && View() == DeletePass(old(View()))
    {
      ghost var was, now := View(), View();
      DeletedEnds(was);
      var numRes := |res|;
      for i := 0 to numRes
        invariant |res| == numRes && Valid() && Objects() <= old(Objects())
        invariant View() == now && now == Deleted(was, i)
      {
        DeletedNext(was, i);
        DeleteIfDue(i);
        now := now[i := DeletePass(now)[i]];
      }
    }

    /** One turn of the second loop of `resman_poll`; says whether the loop ends. */
    method DeliverOne(i: nat, start: nat, reply: Reply, calls: seq<nat>) returns (calls': seq<nat>, stop: bool)
      requires Valid() && i < |res|
      modifies this, Objects()
      ensures Valid() && Objects() <= old(Objects()) && |res| == |old(res)|
      ensures Outcome(View(), calls', jobs) ==
              PollSpec.DeliverOne(Outcome(old(View()), calls, old(jobs)), i, start, reply.ret)
      ensures stop == Stops(old(View())[i], reply)
    {
      calls', stop := calls, false;
      var r := res[i];
      if r == null {
        return;
      }
      if !r.donePending {
        var reload := r.reloadTimeout != 0 && r.reloadTimeout <= start;
        if reload {
          r.reloadTimeout := 0;
          r.edits := 0;
          Reload(i);
        }
        return;
      }
      calls' := calls + [i];
      var refused := r.Deliver(reply.ret);
      if refused {
        RemoveResource(i);
        return;
      }
      stop := reply.late;
    }

    /** `resman_poll` with the file monitor of `src/filewatch_dummy.c`. */
    method Poll(start: nat, replies: seq<Reply>) returns (calls: seq<nat>)
      requires Valid() && |replies| == |res|
      modifies this, Objects()
      ensures Valid() && |res| == |old(res)|
      ensures Outcome(View(), calls, jobs) == PollSpec.Poll(old(View()), hasDone, start, replies, old(jobs))
    {
      calls := [];
      DeleteMarked();
      if !hasDone {
        return;
      }
      var i := 0;
      ghost var o := Outcome(View(), [], jobs);
      while i < |res|
        invariant Valid() && Objects() <= old(Objects()) && i <= |res| == |replies|
        invariant DeliverFrom(Outcome(View(), calls, jobs), i, start, replies) == DeliverFrom(o, 0, start, replies)
        decreases |res| - i
      {
        var stop;
        calls, stop := DeliverOne(i, start, replies[i], calls);
        if stop {
          return;
        }
        i := i + 1;
      }
    }
  }
}
