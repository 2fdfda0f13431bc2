/** The growable array of `src/dynarr.c`. */
module DynArr {
  import opened Options

  /** The amounts in an array descriptor, and how many elements all resizes so far carried over. */
  datatype Amounts = Amounts(size: nat, cap: nat, carried: nat)

  datatype Op = Push | Pop

  /** What one operation does to the amounts when `realloc` succeeds. */
  ghost function Step(a: Amounts, op: Op): Amounts {
    match op
    case Push =>
      if a.size >= a.cap then
        Amounts(a.size + 1, if a.cap != 0 then a.cap * 2 else 1, a.carried + a.size)
      else
        a.(size := a.size + 1)
    case Pop =>
      if a.size == 0 then a
      else if a.size <= a.cap / 3 then
        Amounts(a.size - 1, a.cap / 2, a.carried + a.size)
      else
        a.(size := a.size - 1)
  }

  /** A full array doubles, from nothing to one; an array at most a third full is halved; no other change. */
  lemma StepCapacity(a: Amounts)
    requires a.size <= a.cap
    ensures Step(a, Push).size == a.size + 1 && Step(a, Pop).size == if a.size == 0 then 0 else a.size - 1
    ensures Step(a, Push).cap == if a.size < a.cap then a.cap else if a.cap == 0 then 1 else 2 * a.cap
    ensures Step(a, Pop).cap == if a.size > 0 && 3 * a.size <= a.cap then a.cap / 2 else a.cap
    ensures Step(a, Push).carried == a.carried + if a.size < a.cap then 0 else a.size
    ensures Step(a, Pop).carried == a.carried + if a.size > 0 && 3 * a.size <= a.cap then a.size else 0
  {
  }

  ghost function Run(a: Amounts, ops: seq<Op>): Amounts
    decreases |ops|
  {
    if ops == [] then a else Run(Step(a, ops[0]), ops[1..])
  }

  const EMPTY := Amounts(0, 0, 0)

  /** The array is never smaller than its contents nor more than about three times as large. */
  ghost predicate LoadBounded(a: Amounts) {
    a.size <= a.cap <= 3 * a.size + 2
  }

  /** Credit saved up for the next resize, upwards or downwards. */
  ghost function Credit(a: Amounts): nat {
    var up := 3 * a.size - 2 * a.cap;
    var down := a.cap - 2 * a.size;
    if up >= down && up >= 0 then up else if down >= 0 then down else 0
  }

  /** Every operation pays for its copying with three units, counting what it saves or spends. */
  lemma StepCost(a: Amounts, op: Op)
    requires LoadBounded(a)
    ensures LoadBounded(Step(a, op))
    ensures Step(a, op).carried + Credit(Step(a, op)) <= a.carried + Credit(a) + 3
  {
  }

  lemma {:induction false} RunCost(a: Amounts, ops: seq<Op>)
    requires LoadBounded(a)
    ensures LoadBounded(Run(a, ops))
    ensures Run(a, ops).carried + Credit(Run(a, ops)) <= a.carried + Credit(a) + 3 * |ops|
    decreases |ops|
  {
    if ops != [] {
      StepCost(a, ops[0]);
      RunCost(Step(a, ops[0]), ops[1..]);
    }
  }

  /** Over any run from an empty array, resizing carries over at most three elements per operation. */
  lemma AmortisedCost(ops: seq<Op>)
    ensures LoadBounded(Run(EMPTY, ops))
    ensures Run(EMPTY, ops).carried <= 3 * |ops|
  {
    RunCost(EMPTY, ops);
  }

  /** The array and its descriptor; `alloc` says whether an allocation would succeed. */
  class DynArray<T(0)> {
    var buf: array<T>
    var nelem: nat
    var maxElem: nat
    var bufsz: nat
    const szelem: nat
    ghost var carried: nat

    ghost predicate Valid()
      reads this
    {
      nelem <= maxElem == buf.Length && bufsz == maxElem * szelem
    }

    ghost function Contents(): seq<T>
      requires Valid()
      reads this, buf
    {
      buf[..nelem]
    }

    ghost function State(): Amounts
      reads this
    {
      Amounts(nelem, maxElem, carried)
    }

    /** `dynarr_alloc`: `elem` elements with arbitrary contents. */
    constructor (elem: nat, szelem: nat)
      ensures Valid() && fresh(buf) && |Contents()| == elem && State() == Amounts(elem, elem, 0)
    {
      buf := new T[elem];
      nelem, maxElem := elem, elem;
      this.szelem := szelem;
      bufsz := elem * szelem;
      carried := 0;
    }

    /** `dynarr_resize`: keeps what fits and makes all `elem` elements count. */
    method Resize(elem: nat, alloc: bool) returns (ok: bool)
      requires Valid()
      modifies this
      ensures Valid() && ok == alloc
      ensures !ok ==> unchanged(this)
      ensures ok ==> fresh(buf) && nelem == maxElem == elem
      ensures ok ==> var kept := if old(nelem) <= elem then old(nelem) else elem;
                     Contents()[..kept] == old(Contents())[..kept] && carried == old(carried) + kept
    {
      var newsz := szelem * elem;
      if !alloc { return false; }
      var kept := if nelem <= elem then nelem else elem;
      var tmp := new T[elem];
      forall i | 0 <= i < kept { tmp[i] := buf[i]; }
      buf := tmp;
      nelem, maxElem := elem, elem;
      bufsz := newsz;
      carried := carried + kept;
      return true;
    }

    /** `dynarr_push`; with no item it only makes room. */
    method Push(item: Option<T>, alloc: bool)
      requires Valid()
      modifies this, buf
      ensures Valid() && (fresh(buf) || buf == old(buf))
      ensures var stuck := old(nelem >= maxElem) && !alloc;
              Contents() == if item.Some? && !stuck then old(Contents()) + [item.value] else old(Contents())
      ensures item.Some? && alloc ==> State() == Step(old(State()), Op.Push)
      ensures maxElem == if old(nelem) < old(maxElem) || !alloc then old(maxElem)
                         else if old(maxElem) == 0 then 1 else 2 * old(maxElem)
    {
      var n := nelem;
      if n >= maxElem {
        var newsz := if maxElem != 0 then maxElem * 2 else 1;
        ghost var before := Contents();
        var ok := Resize(newsz, alloc);
        if !ok { return; }
        assert Contents()[..n] == before;
        nelem := n;
      }
      if item.Some? {
        buf[nelem] := item.value;
        nelem := nelem + 1;
      }
    }

    /** `dynarr_pop` */
    method Pop(alloc: bool)
      requires Valid()
      modifies this
      ensures Valid() && (fresh(buf) || buf == old(buf))
      ensures var stuck := 0 < old(nelem) <= old(maxElem) / 3 && !alloc;
              Contents() == if old(nelem) > 0 && !stuck then old(Contents())[..old(nelem) - 1] else old(Contents())
      ensures alloc ==> State() == Step(old(State()), Op.Pop)
      ensures maxElem == if 0 < old(nelem) <= old(maxElem) / 3 && alloc then old(maxElem) / 2 else old(maxElem)
    {
      var n := nelem;
      if n == 0 { return; }
      if n <= maxElem / 3 {
        var newsz := maxElem / 2;
        ghost var before := Contents();
        var ok := Resize(newsz, alloc);
        if !ok { return; }
        assert Contents()[..n] == before;
        nelem := n;
      }
      nelem := nelem - 1;
    }
  }
}
