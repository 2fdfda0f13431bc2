# Proofs about a resource manager library

The library loads resources in the background and reloads them when their files change. This project
models its five hardest parts and proves what they promise.

- **The left-leaning red-black tree** (`Llrb*.dfy`, `Rb*.dfy`, `SortedEntries.dfy`). Node objects with the
  fields of `struct rbnode` are changed in place; every method is proved to turn the tree value it holds
  into the one a function of the same name computes (`LlrbTree`), and shape, order and height are proved
  about those functions. A null dereference in C is the outcome `None`. The iterator's stack is threaded
  through the nodes' `next` fields, as in the source.
- **The thread pool** (`JobQueue`, `WorkLists`, `Pool*.dfy`). `PoolProtocol` is a step system over any number
  of workers and callers, one step per region locked by the queue's mutex and per unlocked access, with
  spurious wakeups. A worker's broadcast and its decrement of `nactive` are separate steps, and so are
  unlocking, reading `in_batch` and broadcasting in the enqueuer. `PoolSteps` says what it takes to wake, to start a
  job and to return, `PoolWaiters` whom a clear leaves asleep, `PoolProgress` that the pool comes to rest. `WorkLists` holds the two linked lists as objects,
  `PoolItems` runs the work items beside the threads, and `PoolLists` carries out the calls on the lists.
- **The resource life cycle** (`Resource*.dfy`, `Resman*.dfy`, `PollSpec`, `PollRefinement`,
  `WatchRefinement`). `ResmanProtocol` is a step system of the owning thread and all load jobs, with the
  regions locked by `res->lock` as steps; `ResourceManager` is the class with the loops of the source;
  `PollSpec` says what one undisturbed poll computes; `PollRefinement` connects it to the steps, and
  `WatchRefinement` does so for a check of the watches. `ResmanDelivery` and `ResmanReloads` prove what every
  poll delivers and reloads, with workers, file events and callbacks in between, `ResmanProgress` that every
  poll ends, `ResmanFields` and `ResmanCauses` what changes each field and what it takes, `ResmanWatches` when
  the watch table is right, `ResmanOverlap` and `ResmanHazard` when a removal is safe; `ResmanExamples` holds
  concrete runs. `ManagerPool` runs the manager's jobs on the pool's threads.
- **The growable array** (`DynArr`) and **the file monitor** (`FileEvents`, `FileWatch`), on top of the tree class.

Keys, data and clock readings are mathematical integers; an address is an integer and null is 0. What the
load and done callbacks return, the clock, the kernel's watch descriptors and events, and whether `realloc`
succeeds are parameters or arbitrary choices of a step. No proof depends on Dafny's automatic induction
on lemmas (`--manual-lemma-induction`).

## What the code turned out to do

- Deleting from the tree fails (it dereferences null) exactly when the key is absent or the last one in the
  tree. A tree with at least two keys, one of them the given one, is always handled, although the descent to the
  right uses `move_red_left` and the root is never painted red: below the root every recursive call gets
  a red root or a red left child, and that also answers the question in the comment at src/rbtree.c:351.
- `resman_stop_watch` deletes from such a tree. Removing a watched resource reaches that null pointer exactly when
  its descriptor is the only one in the table (`ResmanExamples.LastWatchFaults`) or no longer in it, which happens
  when two resources name one file and so got one descriptor (`ResmanExamples.SharedDescriptorFaults`) or a dropped
  watch could not be restarted (`ResmanTheorems.RemovalFaultsIff`).
- When the kernel drops a watch (IN_IGNORED, because the file was replaced), the restart at
  src/filewatch_linux.c:133-143 adds the new descriptor and leaves the old entry in the table. An entry belongs to
  the live resource that holds its descriptor if and only if no restart has left it behind
  (`ResmanWatches.WatchTableConsistent`). If a file is replaced twice during one check, both new descriptors are in the
  modified set and the assertion at src/filewatch_linux.c:172 fails (`ResmanExamples.ReplacedTwiceFailsAssertion`,
  `ResmanWatches.ReloadAssertFails`); once the resource is removed the old entry leads to freed memory
  (`ResmanExamples.RemovalLeavesEntry`).
- With file watching a poll can free a resource under a queued job: a file replaced in two successive polls starts
  two loads, the first of which clears `pending` (`ResmanExamples.FreedUnderJob`). What breaks the guard at
  src/resman.c:274 is a load that begins while another one of the same resource is queued or running. A run that ends
  with the guard holding under a job has such an overlap, watched or not (`ResmanHazard.BrokenHasOverlap`; without one
  no step frees a resource under its job, `ResmanOverlap.SafeWithoutOverlap`). From every overlap at most five plain
  steps lead to the guard holding under a job (`ResmanHazard.OverlapBreaksGuard`), and a poll that begins then frees
  the resource under the job unless a removal meets a null pointer (`ResmanHazard.PollFreesUnderJob`).
- The comment at src/resman.c:568-571 limits the deletion after a failed load to the first load. Without a
  done callback nothing counts loads, so any failed load marks the resource
  (`ResmanTheorems.FailureDeletesWithoutDone`; in `ResmanExamples.SecondFailureDeletes` the file of a loaded resource
  is replaced, the dropped watch leads to a second load, and that one fails).
- Without a done callback `resman_poll` returns at src/resman.c:291-293, before the delayed reloads, so a timeout that
  a modify event has armed is never acted on (`ResmanTheorems.NoDelayedReloadWithoutDone`).
- A poll that starts with a waiting done call need not deliver one: the resource may be removed first. That is the
  only exception, in every interleaving (`ResmanDelivery.PollMustDeliver`), and `ResmanDelivery.PollDeliversIff` gives
  the exact condition: some waiting resource is not both marked for deletion and without a pending load.
  `ResmanExamples.WaitingButDeleted` reaches a state in which the next poll delivers none.
- `resman_tpool_clear` signals nobody. It leaves asleep, with their condition met, exactly those waiters whose
  goal the jobs already running meet by themselves once the queue is empty: no running job, or at most the target
  number (`PoolWaiters.StrandsExactly`). Nothing else ever does (`PoolWaiters.OnlyClearStrands`), and
  `PoolTheorems.ClearStrandsWaiter` is a run in which it happens.

## Model

| member | source | states |
|---|---|---|
| LlrbShape.FixUpShape | src/rbtree.c:498-513 | one fix-up repairs a red right child, or two reds in a row on the left, and leaves a node without red children alone; the black height is kept where the caller relies on it |
| LlrbShape.RotationsCancel | src/rbtree.c:313-325 | with two red children the unguarded left rotation is undone by the right rotation, so only the colours flip |
| LlrbShape.InsertShape | src/rbtree.c:290-328 | inserting into a subtree in shape breaks at most the red-red rule at its root and keeps the black height |
| LlrbShape.RbInsertShape | src/rbtree.c:139-144 | the whole tree is in shape with a black root again |
| LlrbShape.LeftDescent | src/rbtree.c:340-344 | the child given to the recursive call is not null and it or its left child is red |
| LlrbShape.LeftReturn | src/rbtree.c:343-374 | after the recursive call fix-up yields a subtree that fits in the old one's place |
| LlrbShape.RightDescent | src/rbtree.c:346-370 | the same for the descent to the right, which pushes reds with `move_red_left` |
| LlrbShape.RightReturn | src/rbtree.c:360-374 | fix-up repairs even the red-red pair that the plain colour flip leaves on the untouched left side |
| LlrbShape.MinHasNoRight | src/rbtree.c:447-455 | the node that `del_min` cuts has no right child, so nothing else is lost |
| LlrbShape.BottomHasNoLeft | src/rbtree.c:351-358 | the node removed at the bottom has no left child: what the comment asks |
| LlrbShape.DelMinShape | src/rbtree.c:447-465 | `del_min` meets no null pointer and its result fits in the old subtree's place |
| LlrbTree.PrepareSize | src/rbtree.c:340-371 | the rotations before a recursive call keep the number of nodes and never empty a side, so the recursion ends |
| LlrbOrder.InsertEntries | src/rbtree.c:290-328 | the sorted entries are the old ones with the key set |
| LlrbOrder.RbInsertCorrect | src/rbtree.c:139-144 | insertion keeps a valid tree valid, its map is updated at the key, and only a new key adds a node |
| LlrbOrder.SizeIsMapSize | src/rbtree.c:134-137 | the node count is the number of keys |
| LlrbOrder.DelMinEntries | src/rbtree.c:447-465 | `del_min` drops exactly the first entry |
| LlrbOrder.DeleteReadyCorrect | src/rbtree.c:330-375 | below the root, deleting a present key succeeds, loses exactly that entry and yields a subtree that fits |
| LlrbOrder.DeleteNodeCorrect | src/rbtree.c:330-375 | the same at a black root with black children, except for a possible red-red pair at the top |
| LlrbOrder.ReplaceByMin | src/rbtree.c:364-368 | overwriting the node by the right side's minimum and cutting that one removes exactly the node's entry |
| LlrbOrder.RbDeleteCorrect | src/rbtree.c:154-159 | with at least two keys and a present key the result is valid again and its map is the old one without the key |
| LlrbOrder.DeleteAbsent | src/rbtree.c:330-375 | deleting an absent key always reaches a null pointer |
| LlrbOrder.RbDeleteWorksIff | src/rbtree.c:154-159 | deletion succeeds if and only if the key is present and is not the last one |
| LlrbOrder.DeletesThatFail | src/rbtree.c:154-159 | a one-node tree shows both failures |
| LlrbHeight.HeightBlackHeight | src/rbtree.c:290-328 | a subtree is at most twice as high as its black height, plus one under a red root |
| LlrbHeight.SizeBlackHeight | src/rbtree.c:290-328 | black height h needs at least 2^h - 1 nodes |
| LlrbHeight.HeightBound | src/rbtree.c:169-181 | a tree of n keys is at most 2 log2(n + 1) high |
| LlrbNodes.InOrderDistinct | src/rbtree.c:390-398 | a traversal meets no node twice |
| LlrbNodes.PathSeparate | src/rbtree.c:206-227 | the stacked ancestors are distinct and lie outside the current subtree, so linking them by `next` makes no cycle |
| LlrbNodes.PathPush | src/rbtree.c:214-217 | pushing keeps the stack the ancestors not yet visited |
| LlrbNodes.PathPop | src/rbtree.c:218-224 | popping keeps it so |
| LlrbNodes.PendingPush | src/rbtree.c:214-217 | pushing leaves the nodes still to come as they are |
| LlrbNodes.PendingPop | src/rbtree.c:218-224 | popping takes the first of the nodes still to come |
| RbNodes.NodeColorFlip | src/rbtree.c:407-412 | in place, on the same nodes, the tree becomes the flipped one |
| RbNodes.NodeRotLeft | src/rbtree.c:414-422 | in place, on the same nodes, the tree becomes the one rotated left |
| RbNodes.NodeRotRight | src/rbtree.c:424-432 | in place, on the same nodes, the tree becomes the one rotated right |
| RbNodes.NodeMoveRedLeft | src/rbtree.c:484-496 | in place, on the same nodes, reds move left as in the tree function |
| RbNodes.NodeFixUp | src/rbtree.c:498-513 | in place, on the same nodes, fix-up as in the tree function |
| RbNodes.NodeCount | src/rbtree.c:268-274 | counts the nodes |
| RbNodes.NodeFindMin | src/rbtree.c:434-445 | finds the leftmost node |
| RbNodes.NodeTraverse | src/rbtree.c:390-398 | the callback gets all nodes in order |
| RbNodes.NodeInsert | src/rbtree.c:290-328 | the node objects hold the inserted tree, at most one of them new |
| RbNodes.NodeDelMin | src/rbtree.c:447-465 | the node objects hold the tree without its minimum, none of them new |
| RbNodes.NodeDelete | src/rbtree.c:330-375 | the node objects hold the tree after deletion, none of them new |
| RbNodes.NodeReplaceByMin | src/rbtree.c:364-368 | the same for the branch that overwrites the found node |
| RbTree.LookupStep | src/rbtree.c:173-179 | stopping at the key or going to its side keeps the answer |
| RbTree.FindFrom | src/rbtree.c:169-181 | the loop returns what the map holds, or null, after at most as many turns as the tree is high |
| RbTree.EntriesInOrder | src/rbtree.c:390-398 | the nodes in order hold the sorted entries |
| RbTree.InOrderAscending | src/rbtree.c:189-192 | traversal is strictly ascending in the keys |
| RbTree.IterNext | src/rbtree.c:210-227 | the loop delivers exactly the first node still to come and keeps the linked stack right |
| RbTree.RbTree.Insert | src/rbtree.c:139-144 | the map is updated at the key, the tree stays valid, the size grows only for a new key |
| RbTree.RbTree.Delete | src/rbtree.c:154-159 | the map loses exactly the key, the tree stays valid |
| RbTree.RbTree.Find | src/rbtree.c:169-181 | returns the key's data or null within 2 log2(n + 1) turns |
| RbTree.RbTree.Count | src/rbtree.c:134-137 | the number of keys |
| RbTree.RbTree.Clear | src/rbtree.c:114-118 | the map is empty |
| RbTree.RbTree.Foreach | src/rbtree.c:189-192 | every node once, in order |
| RbTree.RbTree.Begin | src/rbtree.c:200-204 | all nodes in order are still to come |
| RbTree.RbTree.Next | src/rbtree.c:210-227 | returns the first node still to come and leaves the rest, or null when none is left |
| RbTree.RbTree.CopyFrom | src/rbtree.c:120-132 | the map of a distinct destination becomes the source's, on new nodes; the source's map stays |
| DynArr.StepCost | src/dynarr.c:87-141 | every operation keeps size <= capacity <= 3 size + 2 and is paid for by three credits |
| DynArr.RunCost | src/dynarr.c:87-141 | the same over any run from any such array |
| DynArr.AmortisedCost | src/dynarr.c:87-141 | n operations from an empty array carry over at most 3 n elements in all resizes |
| DynArr.StepCapacity | src/dynarr.c:94-134 | a full array doubles, from nothing to one; one at most a third full is halved; only then are elements carried over |
| DynArr.DynArray.constructor | src/dynarr.c:34-45 | size and capacity are the number asked for |
| DynArr.DynArray.Resize | src/dynarr.c:54-73 | keeps the elements that fit; on failure changes nothing |
| DynArr.DynArray.Push | src/dynarr.c:87-113 | appends the item, or keeps the contents if it is null or the array is full and cannot grow; a full array's capacity doubles, from nothing to one |
| DynArr.DynArray.Pop | src/dynarr.c:115-141 | drops the last element, or keeps the contents if there is none or shrinking fails; the capacity is halved when at most a third is in use |
| WorkLists.ItemLists.Alloc | src/tpool.c:444-459 | hands out an item that is in no list and in nobody's hands |
| WorkLists.ItemLists.Enqueue | src/tpool.c:194-210 | the list from head to tail is the old queue with the job appended; the free pool is untouched |
| WorkLists.ItemLists.Take | src/tpool.c:376-384 | takes the head of the queue; the tail pointer is null when none is left |
| WorkLists.ItemLists.Free | src/tpool.c:461-472 | with fewer than 64 pooled items the freed one becomes the first of the free pool and the size grows by one, with 64 it is let go; no item is in two places |
| WorkLists.ItemLists.Retire | src/tpool.c:393-397 | one active job fewer, the lists untouched |
| WorkLists.ItemLists.Clear | src/tpool.c:218-229 | the queue is empty, the free pool and the items in use untouched |
| PoolInvariants.MutexStep | src/tpool.c:365-403 | only the holder of the mutex is in a locked region |
| PoolInvariants.CountsStep | src/tpool.c:194-210 | `qsize` is the queue's length and `nactive` the number of workers between taking and retiring a job |
| PoolInvariants.WorkWakeStep | src/tpool.c:178-216 | every step keeps: queued jobs with any worker asleep mean an open batch or a broadcast still to come |
| PoolInvariants.DoneWakeStep | src/tpool.c:258-274 | every step keeps: a sleeping waiter's condition is false unless a worker has broadcast and is about to decrement |
| PoolHistory.QueueStep | src/tpool.c:194-229 | queued, started and dropped jobs partition the jobs, in the order of enqueueing |
| PoolHistory.RunStep | src/tpool.c:376-398 | a started job is held by exactly one worker until it is retired |
| PoolHistory.WorkStep | src/tpool.c:386-391 | work comes before done, each once per job |
| PoolTheorems.ReachableHolds | src/tpool.c:365-403 | all of these hold in every reachable state |
| PoolTheorems.NoLostWorkWakeup | src/tpool.c:178-216 | in every reachable state, if jobs are queued while any worker sleeps unsignalled, a batch is open or a broadcast is due |
| PoolSteps.WokenBy | src/tpool.c:212-214 | a worker is woken only spuriously or by a broadcast |
| PoolSteps.AnnouncedBy | src/tpool.c:178-216 | a thread comes to a broadcast exactly at the end of a batch or after enqueueing outside one |
| PoolSteps.BroadcastWakesAll | src/tpool.c:183-187 | a broadcast wakes every sleeping worker and disturbs no other |
| PoolSteps.BatchOpenIff | src/tpool.c:178-187 | a batch is open exactly from its begin to its end |
| PoolSteps.BatchHoldsBack | src/tpool.c:178-216 | over any run: while all workers sleep, an open batch with no broadcast on its way holds every job back until it ends or a worker wakes spuriously |
| PoolSteps.SleepsOnEmpty | src/tpool.c:370-376 | a worker falls asleep exactly when it finds the queue empty, and looks at the queue with the mutex when it wakes |
| PoolSteps.TakenBy | src/tpool.c:376-384 | only a worker at the inner loop with a job queued starts a job: the first, and it gives the mutex back |
| PoolSteps.CallsInOrder | src/tpool.c:386-391 | the job's worker calls the work function and then the done function, and nobody else does |
| PoolSteps.CallsAllowed | src/tpool.c:178-274 | an idle thread may call every operation at any time, a clear when the mutex is free |
| PoolTheorems.QueuedJobsMove | src/tpool.c:365-376 | no deadlock: with jobs queued outside a batch a worker or a caller already in the pool can step |
| PoolTheorems.SleepingWaiterNotForgotten | src/tpool.c:258-274 | no deadlock: while a waiter sleeps, nothing was dropped and no batch is open, a thread already in the pool can step |
| PoolProgress.WorkerProgress | src/tpool.c:365-403 | every step of a worker, spurious wakeups apart, lowers the bound on the steps that are left |
| PoolProgress.ClientProgress | src/tpool.c:189-274 | so does every step of a caller on its way through enqueue, end_batch or wait |
| PoolProgress.ProgressEnds | src/tpool.c:365-403 | no run of such steps is longer than the bound: the pool comes to rest in any order of steps |
| PoolProgress.ComesToRest | src/tpool.c:365-403 | from every state the pool can come to rest |
| PoolProgress.RestMeansDone | src/tpool.c:365-403 | at rest the mutex is free, all workers sleep, no job is active, and jobs are queued only while a batch is open |
| PoolProgress.RestMeansReturned | src/tpool.c:258-274 | at rest with no batch open, whoever still sleeps in a wait has a negative target or has its goal met |
| PoolProgress.RestMeansWorked | src/tpool.c:365-403 | at rest every job is done with its work and done callbacks, was cleared, or waits in an open batch |
| PoolProgress.WaitersReturn | src/tpool.c:258-274 | unless some clear strands a waiter, every wait with an attainable goal has returned when the pool is at rest |
| PoolTheorems.NoLostDoneWakeup | src/tpool.c:376-397 | whenever the mutex is free and nothing was dropped, no waiter sleeps unsignalled with its condition met |
| PoolTheorems.ClearStrandsWaiter | src/tpool.c:218-229 | a run with a clear that leaves a waiter asleep with its condition met |
| PoolWaiters.StrandsExactly | src/tpool.c:218-229 | a step meets the goal of a waiter that sleeps on if and only if it is a clear and the running jobs alone meet the goal |
| PoolWaiters.AsleepUnmet | src/tpool.c:258-274 | nobody falls asleep with his goal met |
| PoolWaiters.StepStrands | src/tpool.c:218-229 | a step leaves a first waiter stranded if and only if it is such a clear |
| PoolWaiters.OnlyClearStrands | src/tpool.c:218-229 | a run ever has a stranded waiter if and only if it has such a clear |
| PoolTheorems.Conservation | src/tpool.c:202-229 | enqueued = queued + active + finished + dropped; work runs at most once per job; jobs start in order |
| PoolTheorems.OnePlace | src/tpool.c:376-398 | no job is in two of queue, worker, finished, dropped, nor with two workers |
| PoolItems.AllocOnce | src/tpool.c:444-459 | the item an enqueuer gets is in no list and in nobody else's hands |
| PoolItems.PushOnce | src/tpool.c:194-210 | the item goes from the enqueuer's hands into the queue and is in use once |
| PoolItems.TakeOnce | src/tpool.c:376-384 | the item goes from the queue into the worker's hands and is in use once |
| PoolItems.FreeOnce | src/tpool.c:461-472 | the item goes from the worker's hands into the free pool or away and is in use at most once |
| PoolItems.FreedIsPooled | src/tpool.c:461-472 | a free pool of fewer than 64 items takes the freed one as its first and keeps the others behind it; a full one stays as it is |
| PoolItems.FreedIsReused | src/tpool.c:444-472 | the next item handed out is the one that was freed last |
| PoolItems.ItemsInOnePlace | src/tpool.c:376-391 | in every reachable state no item is in two of queue, free pool, enqueuers' and workers' hands, nor with two threads; the pool holds at most 64 |
| PoolItems.EveryRunCarries | src/tpool.c:444-459 | every run of the pool's threads is a run with its items |
| PoolLists.AllocFor | src/tpool.c:444-459 | on the linked lists: the client's item comes from the free pool or is new, as `PoolItems.Alloc` says |
| PoolLists.PushFrom | src/tpool.c:194-210 | on the linked lists: the client's item goes into the queue, as `PoolItems.Push` says |
| PoolLists.TakeFor | src/tpool.c:376-384 | on the linked lists: the worker gets the queue's head, as `PoolItems.TakeFirst` says |
| PoolLists.FreeFrom | src/tpool.c:461-472 | on the linked lists: the worker's item is freed, as `PoolItems.Free` says |
| PoolLists.FreeThenAlloc | src/tpool.c:444-472 | on the linked lists: an item freed into a pool with room is the next one handed out, and the pool is as before |
| PoolLists.ClearAll | src/tpool.c:218-229 | on the linked lists: the queue is emptied and nothing else changes |
| PoolTheorems.WaitMeansDone | src/tpool.c:258-265 | wait returns only when every job enqueued so far has finished its work and done callbacks or was dropped |
| PoolTheorems.WaitPendingMeansAtMost | src/tpool.c:267-274 | wait_pending returns only when at most the target number of jobs is pending |
| PoolSteps.WaitEndsIff | src/tpool.c:258-274 | a wait keeps its goal and ends exactly by a test, with the mutex, at which the counters attain it |
| PoolSteps.ReturnMeansDone | src/tpool.c:258-265 | whichever step a waiter for all jobs returns by, every job enqueued so far is done with or was cleared |
| PoolSteps.ReturnMeansAtMost | src/tpool.c:267-274 | whichever step a waiter for a target returns by, at most that many jobs are pending |
| ManagerPool.CoupledStep | src/resman.c:516-528 | manager and pool together: every step keeps the pool's jobs and the manager's tasks the same, and done work a task that is over |
| ManagerPool.WaitAllMeansLoaded | src/resman.c:255-258 | when `resman_wait_all` returns, nothing was dropped and no reload is being enqueued, every load job is over and no live resource is pending |
| ManagerPool.RestMeansLoaded | src/resman.c:551-584 | once the pool is at rest with no batch open, nothing was dropped and no reload is being enqueued, every load job is over and no live resource is pending |
| ManagerPool.WorkersMove | src/resman.c:551-584 | what a worker can do in the pool it can do beside the manager, or it can run the next step of its load job |
| ManagerPool.OwnerMoves | src/resman.c:516-528 | the owning thread can always go on, and enqueues when a client has the mutex to itself |
| ResmanInvariants.SlotsStep | src/resman.c:260-342 | every step keeps flags, counters and the owning thread's place in agreement |
| ResmanInvariants.WatchesStep | src/filewatch_linux.c:66-146 | every step keeps the watch table leading to resources that were added, restarts of dropped watches included, and empty without watching |
| ResmanInvariants.PendingStep | src/resman.c:516-528 | every step keeps a job behind each pending resource |
| ResmanQuiet.QuietStep | src/filewatch_dummy.c:30-41 | without watching, every step keeps pending exact and at most one job per resource |
| ResmanQuiet.RemoveQuiet | src/resman.c:531-546 | without watching, a resource that is not pending has no outstanding job when it is removed |
| ResmanTheorems.PendingHasJob | src/resman.c:516-528 | in every reachable state a pending resource has a job queued, running or about to be enqueued |
| ResmanWatches.WatchTableConsistent | src/filewatch_linux.c:66-146 | after any run an entry of the table leads to a live resource that holds its descriptor if and only if no restart has left the entry behind since a watch was last started with it |
| ResmanWatches.EntryStep | src/filewatch_linux.c:66-146 | every step keeps this equivalence for every descriptor |
| ResmanWatches.ConsistentUntilDropped | src/filewatch_linux.c:160-177 | as long as the kernel drops no watch every entry belongs to its resource, as `reload_modified` asserts |
| ResmanWatches.ReloadAssertFails | src/filewatch_linux.c:160-177 | the assertion of `reload_modified` fails exactly for a descriptor whose entry was left behind |
| ResmanTheorems.UnwatchedPendingExact | src/resman.c:551-584 | without watching, pending is set exactly while the resource's single job is outstanding |
| ResmanTheorems.UnwatchedRemovalSafe | src/resman.c:273-279 | without watching, no step of any run frees a resource that a job still refers to |
| ResmanOverlap.GuardedStep | src/resman.c:260-342 | every step that begins no overlapping load keeps: one job at most, its resource live and pending, never chosen for removal |
| ResmanOverlap.SafeWithoutOverlap | src/resman.c:273-279 | watched or not, over any run without an overlapping load of a resource: while its job is outstanding it is live and pending, no step frees it and the job does not fault |
| ResmanHazard.OverlapBreaksGuard | src/resman.c:516-528 | from every overlapping load at most five steps of jobs, the owning thread and `resman_remove` lead, without a fault, to a live resource that is due for deletion while a job of it is outstanding |
| ResmanHazard.BrokenHasOverlap | src/resman.c:273-279 | every run that ends with a resource due for deletion under an outstanding job has an overlapping load of it |
| ResmanHazard.BreaksExactly | src/resman.c:273-279 | for each build and resource, some run breaks the guard if and only if some run has an overlap |
| ResmanHazard.PollFreesUnderJob | src/resman.c:264-280 | a poll that begins with the guard holding under a job frees the resource while the job is outstanding, unless a removal meets a null pointer |
| ResmanTheorems.DoneCallsExact | src/resman.c:303-331 | done_pending is set exactly when a load finished after the last done call; done calls never exceed finished loads; num_loads is the number of done calls |
| ResmanTheorems.DoneCallNeedsLoad | src/resman.c:311-315 | no done call without a load that finished since the last one |
| ResmanTheorems.RemovalHasReason | src/resman.c:317-328 | a removed resource was asked to go or refused at its first done call |
| ResmanTheorems.SurvivorsStay | src/resman.c:317-331 | over any run, a resource that survived its first done call goes only if its removal was asked for |
| ResmanDelivery.AheadStep | src/resman.c:260-342 | until a poll delivers, every step of any thread leaves it before a waiting slot, or the slot was removed on request |
| ResmanDelivery.PollMustDeliver | src/resman.c:260-342 | over any interleaving, watched or not: if a resource waits when a poll begins, some done call is delivered before the poll is over or that resource is removed because its removal was asked for |
| ResmanDelivery.WaitingStep | src/resman.c:311-331 | without a finished load no step adds a waiting resource, and a done call takes one away |
| ResmanDelivery.RoundProgress | src/resman.c:295-340 | over any interleaving in which no load finishes, every poll leaves strictly fewer waiting resources while there are any |
| ResmanDelivery.RoundsDrain | src/resman.c:295-340 | over any such interleavings, as many polls as there are waiting resources leave none waiting |
| ResmanDelivery.PollDeliversIff | src/resman.c:260-342 | a poll in which no load finishes and no removal is asked for delivers if and only if some waiting resource is not both marked for deletion and without a pending load |
| ResmanProgress.OwnProgress | src/resman.c:260-342 | every step of the owning thread inside a call lowers the bound on its remaining steps |
| ResmanProgress.CallEnds | src/resman.c:260-342 | over any run the owning thread makes no more steps in a call than the bound says, and three for each file event |
| ResmanProgress.ComesToEnd | src/resman.c:260-342 | from every state the owning thread can come to the end of its call by its own steps, unless it faults |
| ResmanTheorems.FailureDeletesWithoutDone | src/resman.c:566-574 | without a done callback any failed load, and only a failed one, marks the resource for deletion |
| ResmanTheorems.RemovalFaultsIff | src/filewatch_linux.c:84-90 | a removal reaches a null pointer exactly when the resource's descriptor is the only one in the table or missing from it |
| ResmanTheorems.StepEffect | src/resman.c:260-342 | everything a step of any thread can do to one resource |
| ResmanFields.StepFields | src/resman.c:223-584 | for every field of every resource: exactly which steps change it and to which value, by the return values of the callbacks, the kernel's descriptor and the time stamp plus 128 |
| ResmanCauses.ChosenIff | src/resman.c:264-280 | the first loop chooses a resource exactly if it is marked for deletion and no load is pending |
| ResmanCauses.GoesIff | src/resman.c:531-546 | a slot is emptied exactly by the removal of a chosen or refused resource |
| ResmanCauses.RefusedIff | src/resman.c:315-328 | a done call leads to removal exactly if the callback returned -1 and the resource was never delivered before; otherwise the resource stays and counts one more load |
| ResmanCauses.RefusedIsRemoved | src/resman.c:317-326 | over any run a refused resource is gone when the poll is over |
| ResmanCauses.SliceEndsIff | src/resman.c:330-339 | after an accepted done call the poll ends exactly if the time slice is used up |
| ResmanCauses.PassedOrReloaded | src/resman.c:303-311 | a resource that waits for no done call is reloaded exactly if its timeout has passed, and then the loop goes on |
| ResmanCauses.AddedBlank | src/resman.c:470-513 | a new resource has nothing set, counted, timed or watched, and its load comes next |
| ResmanCauses.TableStep | src/filewatch_linux.c:66-146 | a granted descriptor leads to its resource, a stopped one leaves the table, and nothing else changes the table |
| ResmanCauses.JobMarksIff | src/resman.c:561-577 | without a done callback, over any run between the return of a load and its end: the resource ends marked exactly if it was marked before or the callback returned -1, and otherwise holds the watch the kernel grants |
| ResmanTheorems.DelayedReloadWaits | src/resman.c:303-311 | a delayed reload comes at least 128 ms after the last handled modify event, and only after one |
| ResmanCauses.CheckReadsClock | src/filewatch_linux.c:100-102 | a check of the watches takes its time stamp from the clock as it begins, with nothing marked |
| ResmanCauses.LoopReadsClock | src/resman.c:291-297 | the second loop of a poll begins at slot 0 with a fresh reading of the clock, with or without watches |
| ResmanCauses.Debounced | src/filewatch_linux.c:100-113 | over any run, by the readings of the clock alone: a delayed reload is issued by a poll whose reading is at least 128 above that of the check that handled the resource's last modify event |
| ResmanTheorems.NoDelayedReloadWithoutDone | src/resman.c:291-293 | without a done callback no step of any run issues a delayed reload |
| ResmanReloads.StaysArmed | src/resman.c:295-311 | until the poll reloads the resource every undisturbed step keeps it armed and not due for deletion |
| ResmanReloads.PollMustReload | src/resman.c:295-311 | over any interleaving, watched or not: a poll that begins after a running timeout has passed issues the delayed reload of the resource, unless it waits for a done call, is due for deletion, something happens to just this resource or the time slice is used up |
| ResmanTheorems.ModifyBetweenReloads | src/resman.c:303-311 | over any run, two delayed reloads of a resource have a handled modify event between them |
| ResmanTheorems.TimeoutStaysArmed | src/filewatch_linux.c:106-121 | a step leaves an armed timeout armed unless it reloads the resource or moves it to the modified set |
| ResmanTheorems.TimeoutArmedOverRun | src/filewatch_linux.c:106-121 | the same over any run, up to removal |
| ResmanTheorems.ModifyArms | src/filewatch_linux.c:106-113 | a handled modify event arms the timeout 128 ms after the check began, and faults exactly if the entry leads to a removed resource |
| ResmanExamples.LastWatchFaults | src/filewatch_linux.c:84-90 | a reachable state in which removing the only watched resource faults |
| ResmanExamples.SharedDescriptorFaults | src/filewatch_linux.c:66-90 | a reachable state in which removing a resource faults because its descriptor left the table with another resource |
| ResmanExamples.SecondFailureDeletes | src/resman.c:566-574 | a reachable state without a done callback in which a failed second load, started by a dropped watch, has marked the resource for deletion |
| ResmanExamples.ReplacedTwiceFailsAssertion | src/filewatch_linux.c:123-177 | a reachable state in which the assertion of `reload_modified` fails |
| ResmanExamples.RemovalLeavesEntry | src/filewatch_linux.c:123-146 | a reachable state in which the watch table leads to a removed resource |
| ResmanExamples.ReplacedAgainOverlaps | src/resman.c:516-528 | a reachable state in which a second load begins while the first is queued |
| ResmanExamples.FreedUnderJob | src/resman.c:273-279 | a reachable state in which a poll has freed a resource under a queued job, which faults |
| ResmanExamples.WaitingButDeleted | src/resman.c:264-280 | a reachable state with a waiting done call whose next poll delivers none |
| PollSpec.DeliverCounts | src/resman.c:297-340 | undisturbed, the loop calls back once for every resource that stops waiting, and at least once if any waits |
| PollSpec.DeliverExact | src/resman.c:297-340 | undisturbed, the loop turns exactly the slots up to the first at which the time slice ends it: the calls, the jobs and every resource afterwards |
| PollSpec.PollReloads | src/resman.c:303-311 | undisturbed, a poll enqueues one job for each resource it comes to that is due for a delayed reload, in ascending order, and leaves none due among them that was not waiting; `ResmanReloads.PollMustReload` speaks of all polls |
| PollSpec.PollFields | src/resman.c:264-340 | undisturbed, in terms of the fields: which resources a poll removes, calls back for and reloads, in which order, and every field of those that stay |
| PollSpec.PollWithoutDone | src/resman.c:264-293 | without a done callback a poll only removes what is marked and not pending |
| PollSpec.CutExactly | src/resman.c:317-339 | the second loop goes on up to the first done call that is accepted and uses the time slice up |
| PollSpec.NoneLate | src/resman.c:335-339 | while the time slice lasts the loop turns every slot |
| PollSpec.PollDelivers | src/resman.c:260-342 | undisturbed, a poll delivers a callback if and only if one waits after the deletions, whatever the time slice |
| PollSpec.PollProgress | src/resman.c:295-340 | undisturbed, every poll leaves fewer waiting resources while there are any |
| PollSpec.PollsDrain | src/resman.c:295-340 | undisturbed, as many polls as there are waiting resources leave none waiting |
| PollRefinement.Turn | src/resman.c:297-340 | one turn of the second loop is a run of the step system with the result `PollSpec` computes |
| PollRefinement.Turns | src/resman.c:297-340 | the same for the rest of the loop |
| PollRefinement.Deletions | src/resman.c:265-280 | the first loop is a run of the step system that ends with exactly the due resources removed |
| PollRefinement.PollIsARun | src/resman.c:260-342 | an undisturbed poll without watches is a run of the step system, with the same resources and jobs |
| WatchRefinement.EventIsARun | src/filewatch_linux.c:106-146 | an event with its three bits is a run of the step system that ends with the same resources, table and modified set, or faults where the event meets a null pointer |
| WatchRefinement.BatchIsARun | src/filewatch_linux.c:100-151 | the same for the events of a whole batch |
| WatchRefinement.ReloadsAreARun | src/filewatch_linux.c:154-177 | the reloads of the modified set in ascending order are a run with the same resources and jobs, or one that faults where the assertion fails |
| WatchRefinement.CheckIsARun | src/filewatch_linux.c:92-177 | the whole check as `FileWatch.FileMonitor.CheckWatch` computes it is a run of the step system |
| ResourceManager.ResourceObject.Finish | src/resman.c:561-574 | the flags after the last locked region of a load, without the watch |
| ResourceManager.ResourceObject.Deliver | src/resman.c:315-328 | the done call on the resource object: refused exactly if the callback returned -1 and no load was counted, else one more is counted |
| ResourceManager.Manager.Reload | src/resman.c:516-528 | sets pending and enqueues one job, nothing else changes |
| ResourceManager.Manager.Add | src/resman.c:470-514 | appends a pending new resource and enqueues its job, while no slot is empty |
| ResourceManager.Manager.Remove | src/resman.c:223-227 | marks one resource, nothing else changes |
| ResourceManager.Manager.RemoveResource | src/resman.c:531-546 | empties one slot, without the watch |
| ResourceManager.Manager.DeleteMarked | src/resman.c:265-280 | the first loop empties exactly the slots marked and not pending |
| ResourceManager.Manager.DeliverOne | src/resman.c:297-340 | one turn of the second loop, without the watch, and whether the time slice ends it |
| ResourceManager.Manager.Poll | src/resman.c:260-342 | undisturbed and without watches the two loops compute what `PollSpec.Poll` says: resources, callbacks in order, jobs |
| FileEvents.LastEventDecides | src/filewatch_linux.c:106-150 | over a batch of events, restarts of dropped watches included, the last one about a resource decides its timeout, and without one it stays |
| FileEvents.MarkedExactly | src/filewatch_linux.c:115-146 | the modified set holds exactly the descriptors of close-write events and of restarted watches, by the table as it was at each event |
| FileEvents.RestartOutcome | src/filewatch_linux.c:123-146 | a granted descriptor is with the resource, in the table and marked; without one the old descriptor leaves the table, which fails exactly if it is absent or the only one |
| FileWatch.StopWatchIsDelete | src/filewatch_linux.c:84-90 | stopping a watch works exactly when the tree deletion does, with the same table |
| FileWatch.FileMonitor.HandleEvent | src/filewatch_linux.c:102-146 | one event with its three bits turns resources, table and modified set into what `FileEvents.HandleOne` says, on every input that meets no null pointer |
| FileWatch.FileMonitor.Restart | src/filewatch_linux.c:123-146 | a dropped watch: the new descriptor is with the resource, in the table and in the modified set, or the old one has left the table |
| FileWatch.FileMonitor.CheckWatch | src/filewatch_linux.c:92-157 | resources and table are as after all events; the modified set's resources are reloaded once each, in ascending order of descriptors, if and only if the assertion holds for all of them; the modified set is empty |
| FileWatch.FileMonitor.ReloadModified | src/filewatch_linux.c:154-177 | whether the assertion holds for every element of the modified set that is in the table, and then one reload for each, in ascending order |
| FileWatch.FileMonitor.StartWatch | src/filewatch_linux.c:66-82 | a new descriptor leads to the resource; an already watched one or a refusal changes nothing |
| FileWatch.FileMonitor.StopWatch | src/filewatch_linux.c:84-90 | the descriptor leaves the table |
| FileWatch.FileMonitor.FinishWatched | src/resman.c:561-583 | the last locked region of a load with its watch: flags, descriptor and table |
| FileWatch.FileMonitor.DeliverWatched | src/resman.c:315-331 | the done call with its watch: flags, descriptor and table |
| FileWatch.FileMonitor.RemoveWatched | src/resman.c:531-546 | a removal with its watch: the slot is empty and the descriptor has left the table |

## Left out

- Comparators for strings and addresses, integer keys whose difference overflows, and comparators for which 0 does not mean the same key, since deletion compares key identity.
- Freeing of nodes, delete callbacks and custom allocators: the tree's map and shape are proved, not memory reclamation.
- Allocation failure in the tree and in the pool, and copying a tree onto itself.
- RbTree.RbTree.Delete: takes a present key and at least two keys, the exact case in which the source does not dereference null (`LlrbOrder.RbDeleteWorksIff`).
- FileWatch.FileMonitor.StopWatch: takes a descriptor that is in the table with at least one more, for the same reason.
- Pool shutdown, reference counts, timed waits, the wait pipe and processor counting. Callbacks that use the pool from a worker count as separate callers.
- PoolTheorems.NoLostDoneWakeup: for runs in which nothing was dropped from the queue; `PoolWaiters.OnlyClearStrands` is the exact statement for all runs.
- PoolTheorems.QueuedJobsMove: says that some thread can step, not which; `PoolProgress.ProgressEnds` and `PoolProgress.RestMeansDone` say where the steps lead.
- PoolTheorems.SleepingWaiterNotForgotten: likewise; `PoolProgress.WaitersReturn` says where the steps lead.
- Liveness of `resman_wait_job` and `resman_wait_any`: their target is -1 when nothing is pending.
- ResourceManager.Manager.Add: models the append only. Adding or finding a resource after a slot was emptied dereferences empty slots and does not store the new resource.
- A done callback that adds a resource while `resman_poll` is under way: in `ResmanProtocol` resources are added between polls only.
- Races on the watch table: without a done callback `work_func` starts a watch under `res->lock` only (src/resman.c:575-578), so two threads can change the table at once. Every such insertion is one step here, and what is said about the table assumes that.
- How often the destroy callback runs, resource names, and the free list of tasks.
- ResmanTheorems.UnwatchedRemovalSafe: for the build without file watching; `ResmanOverlap.SafeWithoutOverlap` and `ResmanHazard.OverlapBreaksGuard` say when it holds with watching, and `ResmanExamples.FreedUnderJob` that it can fail.
- PollSpec.PollReloads: speaks of an undisturbed poll; `ResmanReloads.PollMustReload` speaks of all polls.
- FileWatch.FileMonitor.CheckWatch: takes batches on which no null pointer is met, and tables that lead to live resources; `ResmanProtocol` has the faults. The byte walk over the inotify buffer is not modelled. Events are arbitrary, although the kernel is asked for modify events only.
- FileWatch.FileMonitor.RemoveWatched: takes a descriptor that `FileWatch.FileMonitor.StopWatch` takes.
- ResourceManager.Manager.Poll: runs between two changes by the workers and with the dummy file monitor; `ResmanDelivery` proves the delivery of done calls for all interleavings, with watches.
- ResourceManager.ResourceObject.Finish: starts no watch; `FileWatch.FileMonitor.FinishWatched` does.
- ResourceManager.Manager.DeliverOne: starts no watch; `FileWatch.FileMonitor.DeliverWatched` does.
- ResourceManager.Manager.RemoveResource: stops no watch; `FileWatch.FileMonitor.RemoveWatched` does.
- PollSpec.PollDelivers: speaks of an undisturbed poll without watches; `ResmanDelivery.PollMustDeliver` and `ResmanDelivery.PollDeliversIff` speak of all.
- PollSpec.PollProgress: likewise; `ResmanDelivery.RoundProgress` speaks of all polls.
- PollSpec.PollsDrain: likewise; `ResmanDelivery.RoundsDrain` speaks of all polls.
- The clock's wrap-around; whether the time slice is used up is an answer of the clock.
- DynArr.DynArray.Resize: copies into a new buffer each time, where `realloc` may extend in place.
- The Windows file monitor, timers, printing and the example viewer.
