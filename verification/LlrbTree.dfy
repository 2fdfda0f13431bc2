/**
 The left-leaning 2-3 red-black tree of `src/rbtree.c`, as a value.

 A tree value carries the identity `id` of the node object at each position, so the same
 functions describe both the shape and which C node ends up where. Every function takes the
 branches of the C function of the same name. `None` is the outcome of a C function that
 dereferences a null pointer.
 */
module LlrbTree {
  import opened Options

  datatype Tree<N> =
    | Leaf
    | Node(id: N, left: Tree<N>, key: int, data: int, red: bool, right: Tree<N>)

  predicate IsRed<N>(t: Tree<N>) {
    t.Node? && t.red
  }

  /* ---- rotations and colour changes ---- */

  function RotLeft<N>(a: Tree<N>): Tree<N>
    requires a.Node? && a.right.Node?
  {
    var b := a.right;
    b.(left := a.(right := b.left, red := true), red := a.red)
  }

  function RotRight<N>(a: Tree<N>): Tree<N>
    requires a.Node? && a.left.Node?
  {
    var b := a.left;
    b.(right := a.(left := b.right, red := true), red := a.red)
  }

  function ColorFlip<N>(t: Tree<N>): Tree<N>
    requires t.Node? && t.left.Node? && t.right.Node?
  {
    t.(red := !t.red, left := t.left.(red := !t.left.red), right := t.right.(red := !t.right.red))
  }

  function MoveRedLeft<N>(t: Tree<N>): Option<Tree<N>>
    requires t.Node?
  {
    if t.left.Leaf? || t.right.Leaf? then None  // color_flip dereferences both children
    else
      var f := ColorFlip(t);
      if IsRed(f.right.left) then
        Some(ColorFlip(RotLeft(f.(right := RotRight(f.right)))))
      else
        Some(f)
  }

  /** A tree with its red left child, if any, rotated to the right. */
  function LeanRight<N>(t: Tree<N>): Tree<N>
    requires t.Node?
  {
    if IsRed(t.left) then RotRight(t) else t
  }

  /** The start of the left descent: the left child or its left child becomes red. */
  function PrepareLeft<N>(t: Tree<N>): Option<Tree<N>>
    requires t.Node?
  {
    if t.left.Leaf? then None  // tree->left->left
    else if !IsRed(t.left) && !IsRed(t.left.left) then MoveRedLeft(t) else Some(t)
  }

  /** The start of the right descent, after any red left child was rotated to the right. */
  function PrepareRight<N>(t: Tree<N>): Option<Tree<N>>
    requires t.Node?
  {
    if t.right.Leaf? then None  // tree->right->left
    else if !IsRed(t.right) && !IsRed(t.right.left) then MoveRedLeft(t) else Some(t)
  }

  function FixUp<N>(t: Tree<N>): (r: Tree<N>)
    requires t.Node?
    ensures r.Node?
  {
    var t1 := if IsRed(t.right) then RotLeft(t) else t;
    var t2 := if IsRed(t1.left) && IsRed(t1.left.left) then RotRight(t1) else t1;
    if IsRed(t2.left) && IsRed(t2.right) then ColorFlip(t2) else t2
  }

  /* ---- lookups ---- */

  function Size<N>(t: Tree<N>): nat {
    if t.Leaf? then 0 else 1 + Size(t.left) + Size(t.right)
  }

  function Height<N>(t: Tree<N>): nat {
    if t.Leaf? then 0 else 1 + if Height(t.left) < Height(t.right) then Height(t.right) else Height(t.left)
  }

  /** The leftmost node of a non-empty tree. */
  function FindMin<N>(t: Tree<N>): (m: Tree<N>)
    requires t.Node?
    ensures m.Node? && m.left.Leaf?
  {
    if t.left.Leaf? then t else FindMin(t.left)
  }

  /* ---- updates ---- */

  /** `newId` is the node that is linked in when the key is new. */
  function Insert<N>(t: Tree<N>, key: int, data: int, newId: N): (r: Tree<N>)
    ensures r.Node?
  {
    if t.Leaf? then
      Node(newId, Leaf, key, data, true, Leaf)
    else if key < t.key then
      FixUp(t.(left := Insert(t.left, key, data, newId)))
    else if key > t.key then
      FixUp(t.(right := Insert(t.right, key, data, newId)))
    else
      FixUp(t.(data := data))
  }

  function DelMin<N>(t: Tree<N>): Option<Tree<N>>
    requires t.Node?
    decreases Size(t)
  {
    if t.left.Leaf? then Some(Leaf)
    else
      PrepareSize(t);
      var t1 := PrepareLeft(t);
      if t1.None? then None
      else
        var l := DelMin(t1.value.left);
        if l.None? then None else Some(FixUp(t1.value.(left := l.value)))
  }

  function Delete<N>(t: Tree<N>, key: int): Option<Tree<N>>
    decreases Size(t)
  {
    if t.Leaf? then Some(Leaf)
    else if key < t.key then
      PrepareSize(t);
      var t1 := PrepareLeft(t);
      if t1.None? then None
      else
        var l := Delete(t1.value.left, key);
        if l.None? then None else Some(FixUp(t1.value.(left := l.value)))
    else
      var t1 := LeanRight(t);
      if key == t.key && t1.right.Leaf? then Some(Leaf)
      else
        LeanRightSize(t);
        PrepareSize(t1);
        var t2 := PrepareRight(t1);
        if t2.None? then None
        else
          var r := if key == t2.value.key then DelMin(t2.value.right) else Delete(t2.value.right, key);
          if r.None? then None
          else if key == t2.value.key then
            var m := FindMin(t2.value.right);
            Some(FixUp(t2.value.(key := m.key, data := m.data, right := r.value)))
          else Some(FixUp(t2.value.(right := r.value)))
  }

  /** The two ways `delete` ends on the right descent. */
  lemma DeleteOnRight<N>(t: Tree<N>, key: int, t2: Tree<N>)
    requires t.Node? && t.key <= key && LeanRight(t).Node? && LeanRight(t).right.Node?
    requires PrepareRight(LeanRight(t)) == Some(t2) && t2.Node? && t2.right.Node?
    ensures key == t2.key && DelMin(t2.right).Some? ==>
              var m := FindMin(t2.right);
              Delete(t, key) == Some(FixUp(t2.(key := m.key, data := m.data, right := DelMin(t2.right).value)))
    ensures key != t2.key && Delete(t2.right, key).Some? ==>
              Delete(t, key) == Some(FixUp(t2.(right := Delete(t2.right, key).value)))
  {
  }

  /** Moving a red keeps the node count, so the recursion on a child ends. */
  lemma PrepareSize<N>(t: Tree<N>)
    requires t.Node?
    ensures PrepareLeft(t).Some? ==>
              var m := PrepareLeft(t).value;
              m.Node? && m.left.Node? && m.right.Node? == t.right.Node? && Size(m) == Size(t)
    ensures PrepareRight(t).Some? ==>
              var m := PrepareRight(t).value;
              m.Node? && m.left.Node? == t.left.Node? && m.right.Node? && Size(m) == Size(t)
  {
    if t.left.Node? && t.right.Node? {
      MoveRedLeftSize(t);
    }
  }

  lemma LeanRightSize<N>(t: Tree<N>)
    requires t.Node?
    ensures LeanRight(t).Node? && Size(LeanRight(t)) == Size(t)
  {
  }

  lemma MoveRedLeftSize<N>(t: Tree<N>)
    requires t.Node? && t.left.Node? && t.right.Node?
    ensures var m := MoveRedLeft(t).value; m.Node? && m.left.Node? && m.right.Node? && Size(m) == Size(t)
  {
    var f := ColorFlip(t);
    assert Size(f) == Size(t);
    if IsRed(f.right.left) {
      var g := f.(right := RotRight(f.right));
      assert Size(f.right) == 1 + Size(f.right.left) + Size(f.right.right);
      assert Size(g.right) == Size(f.right) by {
        assert Size(f.right.left) == 1 + Size(f.right.left.left) + Size(f.right.left.right);
        assert Size(g.right.right) == 1 + Size(f.right.left.right) + Size(f.right.right);
      }
      var h := RotLeft(g);
      assert Size(g.right) == 1 + Size(g.right.left) + Size(g.right.right);
      assert Size(h.left) == 1 + Size(g.left) + Size(g.right.left);
      assert Size(h) == Size(g);
      assert Size(ColorFlip(h).left) == Size(h.left);
      assert Size(ColorFlip(h).right) == Size(h.right);
    }
  }

  function Blacken<N>(t: Tree<N>): (r: Tree<N>)
    requires t.Node?
  {
    t.(red := false)
  }

  function RbInsert<N>(root: Tree<N>, key: int, data: int, newId: N): (r: Tree<N>)
    ensures r.Node?
  {
    Blacken(Insert(root, key, data, newId))
  }

  function RbDelete<N>(root: Tree<N>, key: int): Option<Tree<N>> {
    var r := Delete(root, key);
    if r.None? || r.value.Leaf? then None  // rb->root->red
    else Some(Blacken(r.value))
  }
}
