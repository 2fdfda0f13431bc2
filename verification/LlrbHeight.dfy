/** A left-leaning red-black tree with n keys is at most 2 log2(n + 1) high. */
module LlrbHeight {
  import opened LlrbTree
  import opened LlrbShape

  function Pow2(n: nat): (p: nat)
    ensures p >= 1
  {
    if n == 0 then 1 else 2 * Pow2(n - 1)
  }

  lemma {:induction false} Pow2Monotone(m: nat, n: nat)
    requires m <= n
    ensures Pow2(m) <= Pow2(n)
  {
    if m < n {
      Pow2Monotone(m, n - 1);
    }
  }

  lemma {:induction false} Pow2Double(n: nat)
    ensures Pow2(2 * n) == Pow2(n) * Pow2(n)
  {
    if n > 0 {
      Pow2Double(n - 1);
      assert Pow2(2 * n) == 4 * Pow2(2 * (n - 1));
    }
  }

  /** Red links at most double a path. */
  lemma {:induction false} HeightBlackHeight<N>(t: Tree<N>)
    requires Llrb(t)
    ensures Height(t) <= 2 * BlackHeight(t) + if IsRed(t) then 1 else 0
  {
    if t.Node? {
      HeightBlackHeight(t.left);
      HeightBlackHeight(t.right);
    }
  }

  lemma {:induction false} SizeBlackHeight<N>(t: Tree<N>)
    requires Llrb(t)
    ensures Pow2(BlackHeight(t)) <= Size(t) + 1
  {
    if t.Node? {
      SizeBlackHeight(t.left);
      SizeBlackHeight(t.right);
    }
  }

  /** steps <= 2 log2(n + 1), written without the logarithm. */
  ghost predicate AtMostTwiceLog(steps: nat, n: nat) {
    Pow2(steps) <= (n + 1) * (n + 1)
  }

  /** The height of a tree with n keys is at most 2 log2(n + 1). */
  lemma HeightBound<N>(t: Tree<N>)
    requires RbShape(t)
    ensures AtMostTwiceLog(Height(t), Size(t))
  {
    HeightBlackHeight(t);
    SizeBlackHeight(t);
    var b, p, n := BlackHeight(t), Pow2(BlackHeight(t)), Size(t) + 1;
    Pow2Monotone(Height(t), 2 * b);
    Pow2Double(b);
    SquareMonotone(p, n);
  }

  lemma SquareMonotone(p: nat, n: nat)
    requires p <= n
    ensures p * p <= n * n
  {
  }
}
