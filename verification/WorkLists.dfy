/**
 The work queue and the free pool of work items in `src/tpool.c`: two linked lists through the same
 `next` field.
 */
module WorkLists {
  import JobQueue
  import opened Sequences

  /** `struct work_item`; the callbacks are left to whoever runs the job. */
  class WorkItem {
    var data: int
    var next: WorkItem?

    constructor ()
      ensures next == null
    {
      data, next := 0, null;
    }
  }

  /** The list from `head` along `next` is `s` and ends in null. */
  ghost predicate IsList(head: WorkItem?, s: seq<WorkItem>)
    reads (set x | x in s)`next
  {
    && (if s == [] then head == null else head == s[0] && s[|s| - 1].next == null)
    && (forall i :: 0 <= i < |s| - 1 ==> s[i].next == s[i + 1])
  }

  /** The list fields of `struct resman_thread_pool` and the static free pool. */
  class ItemLists {
    var workq: WorkItem?
    var workqTail: WorkItem?
    var qsize: int
    var nactive: int
    var wpool: WorkItem?
    var wpoolSize: int

    ghost var queued: seq<WorkItem>
    ghost var pooled: seq<WorkItem>
    ghost var taken: set<WorkItem>   // items in the hands of an enqueuer or a worker

    /** Both lists are in order and no item is in two places. */
    ghost predicate Valid()
      reads this, (set x | x in queued)`next, (set x | x in pooled)`next
    {
      && IsList(workq, queued) && Distinct(queued)
      && workqTail == (if queued == [] then null else queued[|queued| - 1])
      && IsList(wpool, pooled) && Distinct(pooled)
      && qsize == |queued| && wpoolSize == |pooled| <= JobQueue.MAX_WPOOL_SIZE
      && (forall x :: x in queued ==> x !in pooled && x !in taken)
      && (forall x :: x in pooled ==> x !in taken)
    }

    ghost function Jobs(): JobQueue.Jobs<WorkItem>
      reads this
    {
      JobQueue.Jobs(queued, qsize, nactive)
    }

    constructor ()
      ensures Valid() && Jobs() == JobQueue.Jobs([], 0, 0) && pooled == [] && taken == {}
    {
      workq, workqTail, qsize, nactive := null, null, 0, 0;
      wpool, wpoolSize := null, 0;
      queued, pooled, taken := [], [], {};
    }

    /** `alloc_work_item` */
    method Alloc() returns (w: WorkItem)
      requires Valid()
      modifies this
      ensures Valid() && Jobs() == old(Jobs())
      ensures w !in old(taken) && w !in queued && taken == old(taken) + {w}
      ensures if old(pooled) == [] then fresh(w) && pooled == [] else old(pooled) == [w] + pooled
    {
      if wpool == null {
        w := new WorkItem();
      } else {
        w := wpool;
        wpool := wpool.next;
        wpoolSize := wpoolSize - 1;
        assert pooled == [w] + pooled[1..];
        pooled := pooled[1..];
      }
      taken := taken + {w};
    }

    /** The list part of `resman_tpool_enqueue`. */
    method Enqueue(job: WorkItem, data: int)
      requires Valid() && job in taken
      modifies this, job, (set x | x in queued)`next
      ensures Valid() && Jobs() == JobQueue.Enqueue(old(Jobs()), job)
      ensures pooled == old(pooled) && taken == old(taken) - {job} && job.data == data
    {
      job.data := data;
      job.next := null;
      if workq != null {
        workqTail.next := job;
        workqTail := job;
      } else {
        workq := job;
        workqTail := job;
      }
      qsize := qsize + 1;
      queued := queued + [job];
      taken := taken - {job};
    }

    /** A worker takes the first job. */
    method Take() returns (job: WorkItem)
      requires Valid() && queued != []
      modifies this
      ensures Valid() && job == old(queued[0]) && Jobs() == JobQueue.Take(old(Jobs()))
      ensures pooled == old(pooled) && taken == old(taken) + {job}
    {
      job := workq;
      workq := workq.next;
      if workq == null {
        workqTail := null;
      }
      nactive := nactive + 1;
      qsize := qsize - 1;
      queued := queued[1..];
      taken := taken + {job};
    }

    /** `free_work_item`: a full pool lets the item go. */
    method Free(w: WorkItem)
      requires Valid() && w in taken
      modifies this, w`next
      ensures Valid() && Jobs() == old(Jobs()) && taken == old(taken) - {w}
      ensures pooled == JobQueue.Pooled(old(pooled), w)
      ensures if old(wpoolSize) < 64 then pooled == [w] + old(pooled) && wpoolSize == old(wpoolSize) + 1 && wpool == w
              else pooled == old(pooled) && wpoolSize == old(wpoolSize) && wpool == old(wpool)
    {
      if wpoolSize < JobQueue.MAX_WPOOL_SIZE {
        w.next := wpool;
        wpool := w;
        wpoolSize := wpoolSize + 1;
        pooled := [w] + pooled;
      }
      taken := taken - {w};
    }

    /** A worker retires its job. */
    method Retire()
      requires Valid()
      modifies this`nactive
      ensures Valid() && Jobs() == JobQueue.Retire(old(Jobs()))
    {
      nactive := nactive - 1;
    }

    /** `resman_tpool_clear`: the items are freed, not pooled. */
    method Clear()
      requires Valid()
      modifies this
      ensures Valid() && Jobs() == JobQueue.Clear(old(Jobs()))
      ensures pooled == old(pooled) && taken == old(taken)
    {
      ghost var left := queued;
      while workq != null
        invariant IsList(workq, left) && pooled == old(pooled) && taken == old(taken) && nactive == old(nactive)
        invariant wpool == old(wpool) && wpoolSize == old(wpoolSize)
        decreases |left|
      {
        workq := workq.next;
        left := left[1..];
      }
      workqTail := null;
      qsize := 0;
      queued := [];
    }
  }
}
