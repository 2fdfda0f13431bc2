/**
 Colour and balance: every update keeps a tree a left-leaning 2-3 red-black tree.
 */
module LlrbShape {
  import opened LlrbTree

  /** Number of black nodes on the leftmost path. */
  function BlackHeight<N>(t: Tree<N>): nat {
    if t.Leaf? then 0 else BlackHeight(t.left) + if t.red then 0 else 1
  }

  /** The parts of the shape that hold even at a root that is red over a red left child. */
  ghost predicate NearlyLlrb<N>(t: Tree<N>) {
    t.Node? && Llrb(t.left) && Llrb(t.right) && BlackHeight(t.left) == BlackHeight(t.right) && !IsRed(t.right)
  }

  /** No red leans right, no two reds in a row, and all paths hold equally many black nodes. */
  ghost predicate Llrb<N>(t: Tree<N>) {
    t.Leaf? ||
    (&& Llrb(t.left) && Llrb(t.right) && BlackHeight(t.left) == BlackHeight(t.right)
     && !IsRed(t.right) && !(t.red && IsRed(t.left)))
  }

  /** What `delete` and `del_min` need of every subtree below the root. */
  ghost predicate DeleteReady<N>(t: Tree<N>) {
    Llrb(t) && t.Node? && (t.red || IsRed(t.left))
  }

  /** A whole tree: in shape, with a black root. */
  ghost predicate RbShape<N>(t: Tree<N>) {
    Llrb(t) && !IsRed(t)
  }

  lemma ChildrenInShape<N>(t: Tree<N>)
    requires Llrb(t)
    ensures t.Node? ==> NearlyLlrb(t)
  {
  }

  /**
   What `fix_up` repairs, and `insert` in the same way: the left child may be red over red and
   the right child may be red. Under a black root the result is a tree in shape with the same
   black height; under a red root at most the root itself is red over red.
   */
  lemma FixUpShape<N>(t: Tree<N>)
    requires t.Node? && (t.left.Leaf? || NearlyLlrb(t.left)) && Llrb(t.right)
    requires BlackHeight(t.left) == BlackHeight(t.right)
    ensures NearlyLlrb(FixUp(t))
    ensures !t.red ==> Llrb(FixUp(t)) && BlackHeight(FixUp(t)) == BlackHeight(t)
    ensures t.red && (IsRed(t.left) ==> !IsRed(t.left.left) && !IsRed(t.right)) ==>
              BlackHeight(FixUp(t)) == BlackHeight(t)
    ensures !IsRed(t.left) && !IsRed(t.right) ==> FixUp(t) == t
  {
  }

  /**
   The left rotation of a node with two red children, which nothing guards, is undone by the
   right rotation that follows it.
   */
  lemma RotationsCancel<N>(t: Tree<N>)
    requires t.Node? && IsRed(t.left) && IsRed(t.right)
    ensures RotRight(RotLeft(t)) == t && FixUp(t) == ColorFlip(t)
  {
  }

  /* ---- insertion ---- */

  lemma {:induction false} InsertShape<N>(t: Tree<N>, key: int, data: int, newId: N)
    requires Llrb(t)
    ensures NearlyLlrb(Insert(t, key, data, newId))
    ensures BlackHeight(Insert(t, key, data, newId)) == BlackHeight(t)
    ensures !IsRed(t) ==> Llrb(Insert(t, key, data, newId))
  {
    if t.Node? {
      if key < t.key {
        InsertShape(t.left, key, data, newId);
        FixUpShape(t.(left := Insert(t.left, key, data, newId)));
      } else if key > t.key {
        InsertShape(t.right, key, data, newId);
        FixUpShape(t.(right := Insert(t.right, key, data, newId)));
      } else {
        FixUpShape(t.(data := data));
      }
    }
  }

  /** `rb_insert` keeps every tree in shape. */
  lemma RbInsertShape<N>(root: Tree<N>, key: int, data: int, newId: N)
    requires RbShape(root)
    ensures RbShape(RbInsert(root, key, data, newId))
  {
    InsertShape(root, key, data, newId);
  }

  /* ---- deletion: one level ---- */

  /**
   `r` may take the place of the subtree `t`: it is in shape, has the same black height and is
   red only where `t` was.
   */
  ghost predicate Replaces<N>(r: Tree<N>, t: Tree<N>) {
    Llrb(r) && BlackHeight(r) == BlackHeight(t) && (IsRed(r) ==> IsRed(t))
  }

  /** The left child handed to the recursive call is ready for deletion, also below a black root. */
  lemma {:induction false} LeftDescent<N>(t: Tree<N>)
    requires Llrb(t) && t.Node? && t.left.Node?
    ensures PrepareLeft(t).Some? && PrepareLeft(t).value.Node?
    ensures DeleteReady(PrepareLeft(t).value.left)
  {
    var l, r := t.left, t.right;
    ChildrenInShape(l);
    ChildrenInShape(r);
    if !IsRed(l) && !IsRed(l.left) {
      var l' := l.(red := true);
      assert Llrb(l');
      if IsRed(r.left) {
        ChildrenInShape(r.left);
        assert PrepareLeft(t).value.left == t.(left := l', right := r.left.left, red := false);
      } else {
        assert PrepareLeft(t).value.left == l';
      }
    }
  }

  /** Whatever comes back from the left, `fix_up` restores the shape. */
  lemma LeftReturn<N>(t: Tree<N>, l: Tree<N>)
    requires Llrb(t) && t.Node? && t.left.Node?
    requires PrepareLeft(t).Some? && PrepareLeft(t).value.Node?
    requires Replaces(l, PrepareLeft(t).value.left)
    ensures NearlyLlrb(FixUp(PrepareLeft(t).value.(left := l)))
    ensures DeleteReady(t) ==> Replaces(FixUp(PrepareLeft(t).value.(left := l)), t)
  {
    ChildrenInShape(t.left);
    ChildrenInShape(t.right);
    ChildrenInShape(l);
    var t1 := PrepareLeft(t).value;
    if t1 == t {
      FixUpShape(t.(left := l));
    } else if IsRed(t.right.left) {
      ChildrenInShape(t.right.left);
      assert t1.red == t.red && !IsRed(t1.left) && !IsRed(t1.right) && BlackHeight(t1.left) == BlackHeight(t1.right);
      assert Llrb(t1.right);
      FixUpShape(t1.(left := l));
    } else {
      assert t1 == ColorFlip(t) && Llrb(t1.right);
      FixUpShape(t1.(left := l));
    }
  }

  /** The right child handed to the recursive call is ready for deletion, also below a black root. */
  lemma RightDescent<N>(t: Tree<N>)
    requires Llrb(t) && t.Node? && LeanRight(t).right.Node?
    ensures PrepareRight(LeanRight(t)).Some? && PrepareRight(LeanRight(t)).value.Node?
    ensures DeleteReady(PrepareRight(LeanRight(t)).value.right)
  {
  }

  /**
   Whatever comes back from the right, `fix_up` restores the shape, although the descent may
   have left a red over red on the other side.
   */
  lemma RightReturn<N>(t: Tree<N>, key: int, data: int, r: Tree<N>)
    requires Llrb(t) && t.Node? && LeanRight(t).right.Node?
    requires PrepareRight(LeanRight(t)).Some? && PrepareRight(LeanRight(t)).value.Node?
    requires Replaces(r, PrepareRight(LeanRight(t)).value.right)
    ensures NearlyLlrb(FixUp(PrepareRight(LeanRight(t)).value.(key := key, data := data, right := r)))
    ensures DeleteReady(t) ==>
              Replaces(FixUp(PrepareRight(LeanRight(t)).value.(key := key, data := data, right := r)), t)
  {
    ChildrenInShape(t.left);
    ChildrenInShape(t.right);
    ChildrenInShape(r);
    FixUpShape(PrepareRight(LeanRight(t)).value.(key := key, data := data, right := r));
  }

  /** The node that `del_min` cuts has no right child, so nothing else is lost with it. */
  lemma MinHasNoRight<N>(t: Tree<N>)
    requires DeleteReady(t) && t.left.Leaf?
    ensures t.right.Leaf? && Replaces(Leaf, t)
  {
  }

  /** The node that `delete` finds at the bottom has no left child either. */
  lemma BottomHasNoLeft<N>(t: Tree<N>)
    requires DeleteReady(t) && LeanRight(t).right.Leaf?
    ensures t.left.Leaf? && Replaces(Leaf, t)
  {
  }

  lemma {:induction false} DelMinShape<N>(t: Tree<N>)
    requires DeleteReady(t)
    ensures DelMin(t).Some? && Replaces(DelMin(t).value, t)
    decreases Size(t)
  {
    if t.left.Leaf? {
      MinHasNoRight(t);
    } else {
      LeftDescent(t);
      PrepareSize(t);
      var t1 := PrepareLeft(t).value;
      DelMinShape(t1.left);
      LeftReturn(t, DelMin(t1.left).value);
    }
  }
}
