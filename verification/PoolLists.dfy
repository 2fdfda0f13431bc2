/**
 The list operations of the pool carried out by its threads: each call of `ItemLists` is allowed where
 the step system makes it, and moves the item as `PoolItems` says.
 */
module PoolLists {
  import opened Options
  import opened PoolItems
  import opened WorkLists

  /** The lists hold what the places say, and the items in use beside them are in the threads' hands. */
  ghost predicate Shows(l: ItemLists, p: Places<WorkItem>)
    reads l, (set x | x in l.queued)`next, (set x | x in l.pooled)`next
  {
    l.Valid() && l.queued == p.queued && l.pooled == p.pooled && l.taken == Hands(p)
  }

  /** Client `c` gets an item. */
  method AllocFor(l: ItemLists, ghost p: Places<WorkItem>, ghost c: nat) returns (w: WorkItem)
    requires Shows(l, p) && Once(p) && c < |p.pushing| && p.pushing[c].None?
    modifies l
    ensures p.pooled == [] ==> Uses(p, w) == 0
    ensures Shows(l, Alloc(p, c, w)) && Alloc(p, c, w).pushing[c] == Some(w)
  {
    assert allocated(p);
    w := l.Alloc();
    AllocOnce(p, c, w);
  }

  /** Client `c` enqueues its item. */
  method PushFrom(l: ItemLists, ghost p: Places<WorkItem>, ghost c: nat, job: WorkItem, data: int)
    requires Shows(l, p) && Once(p) && c < |p.pushing| && p.pushing[c] == Some(job)
    modifies l, job, (set x | x in l.queued)`next
    ensures Shows(l, Push(p, c))
  {
    PushOnce(p, c);
    l.Enqueue(job, data);
  }

  /** Worker `w` takes the first item of the queue. */
  method TakeFor(l: ItemLists, ghost p: Places<WorkItem>, ghost w: nat) returns (job: WorkItem)
    requires Shows(l, p) && Once(p) && w < |p.running| && p.running[w].None? && p.queued != []
    modifies l
    ensures Shows(l, TakeFirst(p, w)) && TakeFirst(p, w).running[w] == Some(job)
  {
    TakeOnce(p, w);
    job := l.Take();
  }

  /** Worker `w` frees its item. */
  method FreeFrom(l: ItemLists, ghost p: Places<WorkItem>, ghost w: nat, job: WorkItem)
    requires Shows(l, p) && Once(p) && w < |p.running| && p.running[w] == Some(job)
    modifies l, job`next
    ensures Shows(l, PoolItems.Free(p, w))
  {
    FreeOnce(p, w);
    l.Free(job);
  }

  /** An item that is freed into a pool with room is the next one to be handed out. */
  method FreeThenAlloc(l: ItemLists, ghost p: Places<WorkItem>, ghost w: nat, ghost c: nat, job: WorkItem)
    returns (next: WorkItem)
    requires Shows(l, p) && Once(p) && w < |p.running| && p.running[w] == Some(job)
    requires c < |p.pushing| && p.pushing[c].None? && l.wpoolSize < 64
    modifies l, job`next
    ensures next == job && l.Valid() && l.pooled == old(l.pooled) && l.wpoolSize == old(l.wpoolSize)
  {
    ghost var was := l.pooled;
    FreeOnce(p, w);
    l.Free(job);
    next := l.Alloc();
    assert ([job] + was)[1..] == was && ([next] + l.pooled)[1..] == l.pooled;
  }

  /** `resman_tpool_clear` */
  method ClearAll(l: ItemLists, ghost p: Places<WorkItem>)
    requires Shows(l, p)
    modifies l
    ensures Shows(l, p.(queued := []))
  {
    l.Clear();
  }
}
