/** One resource of `src/resman.c` and what each locked region does to it. */
module ResourceState {
  /**
   The fields of `struct resource` that decide its life, and a record of its past: `finished` loads,
   `unseen` of them since the last done call, `doneCalls`, whether removal was asked for, the time
   stamp of the last handled modify event and the number of those since the last delayed reload.
   */
  datatype Resource = Resource(
    pending: bool, donePending: bool, deletePending: bool, numLoads: nat, result: int,
    reloadTimeout: nat, nfd: int,
    finished: nat, unseen: nat, doneCalls: nat, removeAsked: bool, lastModify: nat, edits: nat)

  const NEW := Resource(false, false, false, 0, 0, 0, 0, 0, 0, 0, false, 0, 0)

  const FAILED := -1
  const RELOAD_DELAY := 128

  /** `resman_remove` */
  function AskRemove(r: Resource): Resource {
    r.(deletePending := true, removeAsked := true)
  }

  /** `resman_reload`, before the job is enqueued. */
  function SetPending(r: Resource): Resource {
    r.(pending := true)
  }

  /** The load callback returns in `work_func`. */
  function SetResult(r: Resource, result: int): Resource {
    r.(result := result)
  }

  /** The last locked region of `work_func`, except for starting a watch. */
  function FinishLoad(r: Resource, hasDone: bool): Resource {
    var f := r.(pending := false, finished := r.finished + 1, unseen := r.unseen + 1);
    if hasDone then f.(donePending := true)
    else if r.result == FAILED && r.numLoads == 0 then f.(deletePending := true)
    else f
  }

  /** `resman_poll` removes the resource in its first loop. */
  predicate DeleteDue(r: Resource) {
    r.deletePending && !r.pending
  }

  /** A modify event that arrives in a check of the watches at `msec`. */
  function Modify(r: Resource, msec: nat): Resource {
    r.(reloadTimeout := msec + RELOAD_DELAY, lastModify := msec, edits := r.edits + 1)
  }

  /** A close-write event: the resource moves to the modified set. */
  function CloseWrite(r: Resource): Resource {
    r.(reloadTimeout := 0)
  }

  /** A poll that started at `start` issues a delayed reload. */
  predicate ReloadDue(r: Resource, start: nat) {
    !r.donePending && r.reloadTimeout != 0 && r.reloadTimeout <= start
  }

  function DelayedReload(r: Resource): Resource {
    r.(reloadTimeout := 0, edits := 0)
  }

  /** The done callback is called for a first load and refuses it. */
  predicate Refused(r: Resource, ret: int) {
    ret == FAILED && r.numLoads == 0
  }

  /** The done callback is called; a refused first load is not counted. */
  function DeliverDone(r: Resource, ret: int): Resource {
    var d := r.(donePending := false, doneCalls := r.doneCalls + 1, unseen := 0);
    if Refused(r, ret) then d else d.(numLoads := r.numLoads + 1)
  }

  /** What every step keeps in a resource with a done callback installed. */
  ghost predicate DoneOk(r: Resource) {
    && (r.donePending <==> r.unseen > 0)
    && r.doneCalls + r.unseen <= r.finished
    && (r.deletePending ==> r.removeAsked)
  }

  /** What every step keeps in a resource without one. */
  ghost predicate UncountedOk(r: Resource) {
    !r.donePending && r.numLoads == 0 && r.doneCalls == 0
  }

  /** A running timeout belongs to the last handled modify event. */
  ghost predicate TimeoutOk(r: Resource) {
    r.reloadTimeout != 0 ==> r.reloadTimeout == r.lastModify + RELOAD_DELAY && r.edits >= 1
  }
}
