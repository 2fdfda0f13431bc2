/**
 The work items that carry the jobs of the pool's step system: which list, enqueuer or worker each
 one is with. Both lists go through the item's `next` field, so no item may be in two places.
 */
module PoolItems {
  import opened Options
  import opened Sequences
  import opened JobQueue
  import opened PoolProtocol

  /** `pushing` is the item in the hands of each client and `running` the one in those of each worker. */
  datatype Places<J> = Places(queued: seq<J>, pooled: seq<J>, pushing: seq<Option<J>>, running: seq<Option<J>>)

  /** How often an item is in use. */
  ghost function Uses<J>(p: Places<J>, x: J): nat {
    multiset(p.queued)[x] + multiset(p.pooled)[x] + multiset(p.pushing)[Some(x)] + multiset(p.running)[Some(x)]
  }

  ghost function Hands<J>(p: Places<J>): set<J> {
    (set o | o in p.pushing && o.Some? :: o.value) + (set o | o in p.running && o.Some? :: o.value)
  }

  ghost function Used<J>(p: Places<J>): set<J> {
    (set x | x in p.queued) + (set x | x in p.pooled) + Hands(p)
  }

  /** Nothing is in use twice. */
  ghost predicate Once<J>(p: Places<J>) {
    forall x :: x in Used(p) ==> Uses(p, x) <= 1
  }

  lemma {:induction false} AtMostOnce<J>(p: Places<J>, x: J)
    requires Once(p)
    ensures Uses(p, x) <= 1
  {
    assert x !in Used(p) ==> Some(x) !in p.pushing && Some(x) !in p.running;
  }

  /** What is in the hands of an enqueuer or a worker. */
  ghost predicate InHands<J>(p: Places<J>, x: J) {
    Some(x) in p.pushing || Some(x) in p.running
  }

  /* ---- the operations on the lists ---- */

  /** `alloc_work_item` by client `c`, where `malloc` would answer with `made`. */
  ghost function Alloc<J>(p: Places<J>, c: nat, made: J): Places<J>
    requires c < |p.pushing|
  {
    if p.pooled == [] then p.(pushing := p.pushing[c := Some(made)])
    else p.(pushing := p.pushing[c := Some(p.pooled[0])], pooled := p.pooled[1..])
  }

  /** Client `c` appends its item to the queue. */
  ghost function Push<J>(p: Places<J>, c: nat): Places<J>
    requires c < |p.pushing| && p.pushing[c].Some?
  {
    p.(queued := p.queued + [p.pushing[c].value], pushing := p.pushing[c := None])
  }

  /** Worker `w` takes the first item of the queue. */
  ghost function TakeFirst<J>(p: Places<J>, w: nat): Places<J>
    requires w < |p.running| && p.queued != []
  {
    p.(running := p.running[w := Some(p.queued[0])], queued := p.queued[1..])
  }

  /** `free_work_item` by worker `w`. */
  ghost function Free<J>(p: Places<J>, w: nat): Places<J>
    requires w < |p.running| && p.running[w].Some?
  {
    p.(running := p.running[w := None], pooled := Pooled(p.pooled, p.running[w].value))
  }

  lemma AllocOnce<J>(p: Places<J>, c: nat, made: J)
    requires Once(p) && c < |p.pushing| && p.pushing[c].None? && (p.pooled == [] ==> Uses(p, made) == 0)
    ensures Once(Alloc(p, c, made))
    ensures var q := Alloc(p, c, made); var w := q.pushing[c].value;
            w !in Hands(p) && w !in p.queued && Hands(q) == Hands(p) + {w}
  {
    var q := Alloc(p, c, made);
    var w := q.pushing[c].value;
    if p.pooled != [] {
      assert p.pooled == [w] + q.pooled;
    }
    AtMostOnce(p, w);
    forall x: J ensures Uses(q, x) <= 1 {
      AtMostOnce(p, x);
    }
    UpdateMembers(p.pushing, c, Some(w));
    SameHands(q, Hands(p) + {w});
  }

  lemma PushOnce<J>(p: Places<J>, c: nat)
    requires Once(p) && c < |p.pushing| && p.pushing[c].Some?
    ensures Once(Push(p, c))
    ensures var q := Push(p, c); var job := p.pushing[c].value;
            job in Hands(p) && Hands(q) == Hands(p) - {job}
  {
    var q := Push(p, c);
    var job := p.pushing[c].value;
    assert p.pushing[c] in p.pushing;
    forall x: J ensures Uses(q, x) <= 1 {
      AtMostOnce(p, x);
    }
    AtMostOnce(p, job);
    UpdateMembers(p.pushing, c, None);
    SameHands(q, Hands(p) - {job});
  }

  lemma TakeOnce<J>(p: Places<J>, w: nat)
    requires Once(p) && w < |p.running| && p.running[w].None? && p.queued != []
    ensures Once(TakeFirst(p, w))
    ensures Hands(TakeFirst(p, w)) == Hands(p) + {p.queued[0]}
  {
    var q := TakeFirst(p, w);
    assert p.queued == [p.queued[0]] + q.queued;
    forall x: J ensures Uses(q, x) <= 1 {
      AtMostOnce(p, x);
    }
    UpdateMembers(p.running, w, Some(p.queued[0]));
    SameHands(q, Hands(p) + {p.queued[0]});
  }

  lemma FreeOnce<J>(p: Places<J>, w: nat)
    requires Once(p) && w < |p.running| && p.running[w].Some?
    ensures Once(Free(p, w))
    ensures var q := Free(p, w); var job := p.running[w].value;
            job in Hands(p) && Hands(q) == Hands(p) - {job}
  {
    var q := Free(p, w);
    var job := p.running[w].value;
    assert p.running[w] in p.running;
    forall x: J ensures Uses(q, x) <= 1 {
      AtMostOnce(p, x);
    }
    AtMostOnce(p, job);
    UpdateMembers(p.running, w, None);
    SameHands(q, Hands(p) - {job});
  }

  lemma {:induction false} SameHands<J>(p: Places<J>, hands: set<J>)
    requires forall x: J :: InHands(p, x) <==> x in hands
    ensures Hands(p) == hands
  {
    forall x: J ensures x in Hands(p) <==> x in hands {
      assert InHands(p, x) <==> x in Hands(p);
    }
  }

  /** Who is in a sequence after an update at a place whose old element occurs at most once. */
  lemma UpdateMembers<J>(s: seq<Option<J>>, i: nat, e: Option<J>)
    requires i < |s|
    ensures forall x: J :: Some(x) in s[i := e] ==> Some(x) in s || Some(x) == e
    ensures forall x: J :: Some(x) in s && Some(x) != s[i] ==> Some(x) in s[i := e]
    ensures e in s[i := e]
    ensures s[i] != e && multiset(s)[s[i]] <= 1 ==> s[i] !in s[i := e]
  {
    var t := s[i := e];
    assert t[i] == e;
    assert multiset(t) == multiset(s) - multiset{s[i]} + multiset{e};
    forall x: J | Some(x) in s && Some(x) != s[i] ensures Some(x) in t {
      assert Some(x) in multiset(t);
    }
    if s[i] in t {
      assert s[i] in multiset(t);
    }
  }

  /** A free pool of fewer than 64 takes the freed item as its first one, and a full one lets it go. */
  lemma FreedIsPooled<J>(p: Places<J>, w: nat)
    requires w < |p.running| && p.running[w].Some?
    ensures var q := Free(p, w);
            if |p.pooled| < 64
            then |q.pooled| == |p.pooled| + 1 && q.pooled[0] == p.running[w].value && q.pooled[1..] == p.pooled
            else q.pooled == p.pooled
  {
  }

  /** Whoever asks for an item next gets the one that was freed last. */
  lemma FreedIsReused<J>(p: Places<J>, w: nat, c: nat, made: J)
    requires w < |p.running| && p.running[w].Some? && |p.pooled| < 64 && c < |p.pushing|
    ensures var q := Alloc(Free(p, w), c, made); q.pushing[c] == p.running[w] && q.pooled == p.pooled
  {
    FreedIsPooled(p, w);
  }

  /* ---- the items beside the threads ---- */

  datatype Items = Items(pool: Pool, at: Places<nat>)

  function Initial(workers: nat, clients: nat): Items {
    Items(PoolProtocol.Initial(workers, clients), Places([], [], seq(clients, _ => None), seq(workers, _ => None)))
  }

  /** The items are where the threads' states say. */
  ghost predicate Matches(s: Items) {
    && |s.at.queued| == |s.pool.jobs.queue| && |s.at.pooled| <= MAX_WPOOL_SIZE
    && |s.at.pushing| == |s.pool.clients| && |s.at.running| == |s.pool.workers|
    && (forall c {:trigger s.at.pushing[c]} :: 0 <= c < |s.at.pushing| ==>
          (s.at.pushing[c].Some? <==> s.pool.clients[c].Pushing?))
    && (forall w {:trigger s.at.running[w]} :: 0 <= w < |s.at.running| ==>
          (s.at.running[w].Some? <==> s.pool.workers[w].Working? || s.pool.workers[w].Finishing?))
  }

  /** With an empty free pool `malloc` answers with an item that is not in use. */
  ghost predicate Allowed(s: Items, a: Action, made: nat) {
    Enabled(s.pool, a) && (a.BeginEnqueue? && s.at.pooled == [] ==> Uses(s.at, made) == 0)
  }

  /** What a step of the pool does to the items. */
  ghost function MoveItems(s: Items, a: Action, made: nat): Places<nat>
    requires Matches(s) && Allowed(s, a, made)
  {
    match a
    case BeginEnqueue(c) => Alloc(s.at, c, made)
    case ClientStep(c) => if s.pool.clients[c].Pushing? then Push(s.at, c) else s.at
    case WorkerStep(w) =>
      if s.pool.workers[w].Inner? && s.pool.jobs.queue != [] then TakeFirst(s.at, w)
      else if s.pool.workers[w].Finishing? then Free(s.at, w)
      else s.at
    case Clear(_) => s.at.(queued := [])
    case _ => s.at
  }

  ghost function ItemsNext(s: Items, a: Action, made: nat): Items
    requires Matches(s) && Allowed(s, a, made)
  {
    Items(Next(s.pool, a), MoveItems(s, a, made))
  }

  lemma {:induction false} WorkerMatches(s: Items, w: nat, made: nat)
    requires Matches(s) && Enabled(s.pool, WorkerStep(w))
    ensures Matches(ItemsNext(s, WorkerStep(w), made))
  {
    var t := WorkerNext(s.pool, w);
    assert t.workers == s.pool.workers[w := t.workers[w]];
  }

  lemma {:induction false} ClientMatches(s: Items, c: nat, made: nat)
    requires Matches(s) && Enabled(s.pool, ClientStep(c))
    ensures Matches(ItemsNext(s, ClientStep(c), made))
  {
    var t := ClientNext(s.pool, c);
    assert t.clients == s.pool.clients[c := t.clients[c]];
  }

  lemma MatchesStep(s: Items, a: Action, made: nat)
    requires Matches(s) && Allowed(s, a, made)
    ensures Matches(ItemsNext(s, a, made))
  {
    match a
    case WorkerStep(w) => WorkerMatches(s, w, made);
    case ClientStep(c) => ClientMatches(s, c, made);
    case _ =>
  }

  lemma OnceStep(s: Items, a: Action, made: nat)
    requires Matches(s) && Once(s.at) && Allowed(s, a, made)
    ensures Once(MoveItems(s, a, made))
  {
    match a
    case BeginEnqueue(c) => AllocOnce(s.at, c, made);
    case ClientStep(c) => if s.pool.clients[c].Pushing? { PushOnce(s.at, c); }
    case WorkerStep(w) =>
      if s.pool.workers[w].Inner? && s.pool.jobs.queue != [] {
        TakeOnce(s.at, w);
      } else if s.pool.workers[w].Finishing? {
        FreeOnce(s.at, w);
      }
    case Clear(_) =>
      forall x: nat ensures Uses(s.at.(queued := []), x) <= 1 {
        AtMostOnce(s.at, x);
      }
    case _ =>
  }

  /* ---- over whole runs ---- */

  datatype Event = Event(action: Action, made: nat)

  ghost predicate Leads(s: Items, run: seq<Event>, t: Items)
    decreases |run|
  {
    if run == [] then s == t
    else
      && Matches(s) && Allowed(s, run[0].action, run[0].made)
      && Leads(ItemsNext(s, run[0].action, run[0].made), run[1..], t)
  }

  ghost predicate Reachable(s: Items) {
    exists workers: nat, clients: nat, run: seq<Event> :: Leads(Initial(workers, clients), run, s)
  }

  lemma {:induction false} LeadsKeeps(s: Items, run: seq<Event>, t: Items)
    requires Matches(s) && Once(s.at) && Leads(s, run, t)
    ensures Matches(t) && Once(t.at)
    decreases |run|
  {
    if run != [] {
      MatchesStep(s, run[0].action, run[0].made);
      OnceStep(s, run[0].action, run[0].made);
      LeadsKeeps(ItemsNext(s, run[0].action, run[0].made), run[1..], t);
    }
  }

  lemma ReachableOnce(s: Items)
    requires Reachable(s)
    ensures Matches(s) && Once(s.at)
  {
    var workers: nat, clients: nat, run: seq<Event> :| Leads(Initial(workers, clients), run, s);
    var i := Initial(workers, clients);
    forall x: nat ensures Uses(i.at, x) == 0 {
      assert Some(x) !in i.at.pushing && Some(x) !in i.at.running;
    }
    LeadsKeeps(i, run, s);
  }

  /** In every reachable state no item is in two places, and the free pool holds at most 64. */
  lemma ItemsInOnePlace(s: Items)
    requires Reachable(s)
    ensures Distinct(s.at.queued) && Distinct(s.at.pooled) && |s.at.pooled| <= MAX_WPOOL_SIZE
    ensures forall x :: x in s.at.queued ==> x !in s.at.pooled && !InHands(s.at, x)
    ensures forall x :: x in s.at.pooled ==> !InHands(s.at, x)
    ensures forall x: nat :: Some(x) in s.at.pushing ==> Some(x) !in s.at.running
    ensures forall c, d :: 0 <= c < d < |s.at.pushing| && s.at.pushing[c].Some? ==> s.at.pushing[c] != s.at.pushing[d]
    ensures forall v, w :: 0 <= v < w < |s.at.running| && s.at.running[v].Some? ==> s.at.running[v] != s.at.running[w]
  {
    ReachableOnce(s);
    OnceMeansOnePlace(s.at);
    OnceMeansDistinct(s.at);
  }

  lemma OnceMeansOnePlace(p: Places<nat>)
    requires Once(p)
    ensures forall x :: x in p.queued ==> x !in p.pooled && !InHands(p, x)
    ensures forall x :: x in p.pooled ==> !InHands(p, x)
    ensures forall x: nat :: Some(x) in p.pushing ==> Some(x) !in p.running
  {
    forall x: nat
      ensures x in p.queued ==> x !in p.pooled && !InHands(p, x)
      ensures x in p.pooled ==> !InHands(p, x)
      ensures Some(x) in p.pushing ==> Some(x) !in p.running
    {
      AtMostOnce(p, x);
    }
  }

  lemma OnceMeansDistinct(p: Places<nat>)
    requires Once(p)
    ensures Distinct(p.queued) && Distinct(p.pooled)
    ensures forall c, d :: 0 <= c < d < |p.pushing| && p.pushing[c].Some? ==> p.pushing[c] != p.pushing[d]
    ensures forall v, w :: 0 <= v < w < |p.running| && p.running[v].Some? ==> p.running[v] != p.running[w]
  {
    forall i, j | 0 <= i < j < |p.queued| ensures p.queued[i] != p.queued[j] {
      AtMostOnce(p, p.queued[j]);
      NotTwice(p.queued, i, j);
    }
    forall i, j | 0 <= i < j < |p.pooled| ensures p.pooled[i] != p.pooled[j] {
      AtMostOnce(p, p.pooled[j]);
      NotTwice(p.pooled, i, j);
    }
    forall c, d | 0 <= c < d < |p.pushing| && p.pushing[c].Some? ensures p.pushing[c] != p.pushing[d] {
      if p.pushing[d].Some? {
        AtMostOnce(p, p.pushing[d].value);
        NotTwice(p.pushing, c, d);
      }
    }
    forall v, w | 0 <= v < w < |p.running| && p.running[v].Some? ensures p.running[v] != p.running[w] {
      if p.running[w].Some? {
        AtMostOnce(p, p.running[w].value);
        NotTwice(p.running, v, w);
      }
    }
  }

  /* ---- every run of the pool is one with items ---- */

  lemma {:induction false} AboveAll(s: seq<Option<nat>>) returns (b: nat)
    ensures forall x: nat :: Some(x) in s ==> x < b
  {
    if s == [] {
      b := 0;
    } else {
      b := AboveAll(s[1..]);
      if s[0].Some? && s[0].value >= b {
        b := s[0].value + 1;
      }
    }
  }

  /** `malloc` always has an item to answer with. */
  lemma UnusedItem(p: Places<nat>) returns (made: nat)
    ensures Uses(p, made) == 0
  {
    var b := AboveAll(p.pushing);
    var d := AboveAll(p.running);
    var queued := seq(|p.queued|, i requires 0 <= i < |p.queued| => Some(p.queued[i]));
    var pooled := seq(|p.pooled|, i requires 0 <= i < |p.pooled| => Some(p.pooled[i]));
    var q := AboveAll(queued);
    var f := AboveAll(pooled);
    made := b + d + q + f;
    forall i | 0 <= i < |p.queued| ensures p.queued[i] < q {
      assert queued[i] in queued;
    }
    forall i | 0 <= i < |p.pooled| ensures p.pooled[i] < f {
      assert pooled[i] in pooled;
    }
    assert made !in p.queued && made !in p.pooled && Some(made) !in p.pushing && Some(made) !in p.running;
  }

  /** Whatever run the pool makes, it can make with its items. */
  lemma {:induction false} EveryRunCarries(s: Items, run: seq<Action>) returns (events: seq<Event>, t: Items)
    requires Matches(s) && Once(s.at) && Possible(s.pool, run)
    ensures Leads(s, events, t) && t.pool == After(s.pool, run)
    decreases |run|
  {
    if run == [] {
      events, t := [], s;
    } else {
      var made := UnusedItem(s.at);
      MatchesStep(s, run[0], made);
      OnceStep(s, run[0], made);
      events, t := EveryRunCarries(ItemsNext(s, run[0], made), run[1..]);
      var all := [Event(run[0], made)] + events;
      assert all[1..] == events;
      events := all;
    }
  }
}
