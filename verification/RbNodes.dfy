/**
 The recursive functions of `src/rbtree.c` on node objects, in place.

 Each method works on the node objects of a tree value and its `ensures` says that the pointer it
 returns is the root of the value that the function of the same name computes.
 */
module RbNodes {
  import opened LlrbTree
  import opened LlrbNodes

  /** `struct rbnode`; keys and data are addresses or integers, 0 being the null address. */
  class RbNode {
    var key: int
    var data: int
    var red: bool
    var left: RbNode?
    var right: RbNode?
    var next: RbNode?  // for the iterator stack

    constructor (key: int, data: int)
      ensures this.key == key && this.data == data && red && left == null && right == null
    {
      this.key, this.data, this.red := key, data, true;
      left, right := null, null;
    }
  }

  /** The pointer `n` leads to node objects that hold exactly the tree `t`. */
  ghost predicate Holds(n: RbNode?, t: Tree<RbNode>)
    reads Ids(t)`key, Ids(t)`data, Ids(t)`red, Ids(t)`left, Ids(t)`right
  {
    match t
    case Leaf => n == null
    case Node(id, l, key, data, red, r) =>
      && n == id && id.key == key && id.data == data && id.red == red
      && Holds(id.left, l) && Holds(id.right, r)
  }

  /** `n` leads to a proper tree with value `t`: no node is reachable in two ways. */
  ghost predicate IsTree(n: RbNode?, t: Tree<RbNode>)
    reads Ids(t)`key, Ids(t)`data, Ids(t)`red, Ids(t)`left, Ids(t)`right
  {
    Holds(n, t) && Separate(t)
  }

  lemma Parts(n: RbNode?, t: Tree<RbNode>)
    requires IsTree(n, t)
    ensures t.Leaf? <==> n == null
    ensures t.Node? ==> n == t.id && IsTree(n.left, t.left) && IsTree(n.right, t.right)
  {
  }

  method NodePaint(n: RbNode, ghost t: Tree<RbNode>, red: bool)
    requires IsTree(n, t) && t.Node?
    modifies n`red
    ensures IsTree(n, t.(red := red))
  {
    assert allocated(Ids(t));
    n.red := red;
  }

  method NodeColorFlip(n: RbNode, ghost t: Tree<RbNode>)
    requires IsTree(n, t) && t.Node? && t.left.Node? && t.right.Node?
    modifies Ids(t)
    ensures IsTree(n, ColorFlip(t)) && Ids(ColorFlip(t)) == Ids(t)
  {
    assert allocated(Ids(t));
    Parts(n.left, t.left);
    Parts(n.right, t.right);
    NodePaint(n, t, !n.red);
    NodePaint(n.left, t.left, !n.left.red);
    assert IsTree(n.right, t.right);
    NodePaint(n.right, t.right, !n.right.red);
    assert IsTree(n.left, t.left.(red := !t.left.red));
  }

  method NodeBlacken(n: RbNode, ghost t: Tree<RbNode>)
    requires IsTree(n, t) && t.Node?
    modifies Ids(t)
    ensures IsTree(n, Blacken(t)) && Ids(Blacken(t)) == Ids(t)
  {
    assert allocated(Ids(t));
    NodePaint(n, t, false);
  }

  method NodeRotLeft(a: RbNode, ghost t: Tree<RbNode>) returns (b: RbNode)
    requires IsTree(a, t) && t.Node? && t.right.Node?
    modifies Ids(t)
    ensures IsTree(b, RotLeft(t)) && Ids(RotLeft(t)) == Ids(t)
  {
    assert allocated(Ids(t));
    Parts(a.right, t.right);
    b := a.right;
    a.right := b.left;
    b.left := a;
    b.red := a.red;
    a.red := true;
    assert IsTree(a, RotLeft(t).left) && IsTree(b.right, t.right.right);
  }

  method NodeRotRight(a: RbNode, ghost t: Tree<RbNode>) returns (b: RbNode)
    requires IsTree(a, t) && t.Node? && t.left.Node?
    modifies Ids(t)
    ensures IsTree(b, RotRight(t)) && Ids(RotRight(t)) == Ids(t)
  {
    assert allocated(Ids(t));
    Parts(a.left, t.left);
    b := a.left;
    a.left := b.right;
    b.right := a;
    b.red := a.red;
    a.red := true;
    assert IsTree(a, RotRight(t).right) && IsTree(b.left, t.left.left);
  }

  method NodeMoveRedLeft(n: RbNode, ghost t: Tree<RbNode>) returns (r: RbNode)
    requires IsTree(n, t) && t.Node? && MoveRedLeft(t).Some?
    modifies Ids(t)
    ensures IsTree(r, MoveRedLeft(t).value) && Ids(MoveRedLeft(t).value) == Ids(t)
  {
    assert allocated(Ids(t));
    NodeColorFlip(n, t);
    ghost var f := ColorFlip(t);
    Parts(n.right, f.right);
    Parts(n.right.left, f.right.left);
    r := n;
    if r.right.left != null && r.right.left.red {
      var right := NodeRotRight(r.right, f.right);
      r.right := right;
      ghost var g := f.(right := RotRight(f.right));
      r := NodeRotLeft(r, g);
      NodeColorFlip(r, RotLeft(g));
    }
  }

  method NodeLeanRight(n: RbNode, ghost t: Tree<RbNode>) returns (r: RbNode)
    requires IsTree(n, t) && t.Node?
    modifies Ids(t)
    ensures IsTree(r, LeanRight(t)) && Ids(LeanRight(t)) == Ids(t)
  {
    assert allocated(Ids(t));
    Parts(n.left, t.left);
    r := n;
    if n.left != null && n.left.red {
      r := NodeRotRight(n, t);
    }
  }

  method NodePrepareLeft(n: RbNode, ghost t: Tree<RbNode>) returns (r: RbNode)
    requires IsTree(n, t) && t.Node? && PrepareLeft(t).Some?
    modifies Ids(t)
    ensures IsTree(r, PrepareLeft(t).value) && Ids(PrepareLeft(t).value) == Ids(t)
  {
    assert allocated(Ids(t));
    Parts(n.left, t.left);
    Parts(n.left.left, t.left.left);
    r := n;
    if !n.left.red && !(n.left.left != null && n.left.left.red) {
      r := NodeMoveRedLeft(n, t);
    }
  }

  method NodePrepareRight(n: RbNode, ghost t: Tree<RbNode>) returns (r: RbNode)
    requires IsTree(n, t) && t.Node? && PrepareRight(t).Some?
    modifies Ids(t)
    ensures IsTree(r, PrepareRight(t).value) && Ids(PrepareRight(t).value) == Ids(t)
  {
    assert allocated(Ids(t));
    Parts(n.right, t.right);
    Parts(n.right.left, t.right.left);
    r := n;
    if !n.right.red && !(n.right.left != null && n.right.left.red) {
      r := NodeMoveRedLeft(n, t);
    }
  }

  method NodeFixUp(n: RbNode, ghost t: Tree<RbNode>) returns (r: RbNode)
    requires IsTree(n, t) && t.Node?
    modifies Ids(t)
    ensures IsTree(r, FixUp(t)) && Ids(FixUp(t)) == Ids(t)
  {
    assert allocated(Ids(t));
    Parts(n.left, t.left);
    Parts(n.right, t.right);
    r := n;
    ghost var t1 := t;
    if r.right != null && r.right.red {
      r := NodeRotLeft(r, t);
      t1 := RotLeft(t);
    }
    Parts(r.left, t1.left);
    if r.left != null { Parts(r.left.left, t1.left.left); }
    ghost var t2 := t1;
    if r.left != null && r.left.red && r.left.left != null && r.left.left.red {
      r := NodeRotRight(r, t1);
      t2 := RotRight(t1);
    }
    Parts(r.left, t2.left);
    Parts(r.right, t2.right);
    if r.left != null && r.left.red && r.right != null && r.right.red {
      NodeColorFlip(r, t2);
    }
  }

  method NodeCount(n: RbNode?, ghost t: Tree<RbNode>) returns (count: nat)
    requires Holds(n, t)
    ensures count == Size(t)
    decreases t
  {
    assert allocated(Ids(t));
    if n == null { return 0; }
    var l := NodeCount(n.left, t.left);
    var r := NodeCount(n.right, t.right);
    return 1 + l + r;
  }

  method NodeFindMin(n: RbNode, ghost t: Tree<RbNode>) returns (m: RbNode)
    requires Holds(n, t) && t.Node?
    ensures m == FindMin(t).id && m in Ids(t) && m.key == FindMin(t).key && m.data == FindMin(t).data
  {
    assert allocated(Ids(t));
    m := n;
    ghost var cur := t;
    while m.left != null
      invariant cur.Node? && Holds(m, cur) && FindMin(cur) == FindMin(t) && Ids(cur) <= Ids(t)
      decreases cur
    {
      m := m.left;
      cur := cur.left;
    }
  }

  /** `traverse` with a callback that notes the node it is given. */
  method NodeTraverse(n: RbNode?, ghost t: Tree<RbNode>, seen: seq<RbNode>) returns (r: seq<RbNode>)
    requires Holds(n, t)
    ensures r == seen + InOrder(t)
    decreases t
  {
    assert allocated(Ids(t));
    if n == null { return seen; }
    r := NodeTraverse(n.left, t.left, seen);
    r := r + [n];
    r := NodeTraverse(n.right, t.right, r);
  }

  /** `added` is the new node if the key was absent, and any node otherwise. */
  method NodeInsert(n: RbNode?, ghost t: Tree<RbNode>, key: int, data: int)
    returns (r: RbNode, ghost added: RbNode)
    requires IsTree(n, t)
    modifies Ids(t)
    ensures IsTree(r, Insert(t, key, data, added))
    ensures fresh(Ids(Insert(t, key, data, added)) - Ids(t))
    decreases t
  {
    assert allocated(Ids(t));
    if n == null {
      r := new RbNode(key, data);
      added := r;
      return;
    }
    ghost var t1;
    if key < n.key {
      var l;
      l, added := NodeInsert(n.left, t.left, key, data);
      n.left := l;
      t1 := t.(left := Insert(t.left, key, data, added));
    } else if key > n.key {
      var m;
      m, added := NodeInsert(n.right, t.right, key, data);
      n.right := m;
      t1 := t.(right := Insert(t.right, key, data, added));
    } else {
      n.data := data;
      added := n;
      t1 := t.(data := data);
    }
    assert IsTree(n, t1);
    r := NodeFixUp(n, t1);
  }

  method NodeDelMin(n: RbNode, ghost t: Tree<RbNode>) returns (r: RbNode?)
    requires IsTree(n, t) && t.Node? && DelMin(t).Some?
    modifies Ids(t)
    ensures IsTree(r, DelMin(t).value) && Ids(DelMin(t).value) <= Ids(t)
    decreases Size(t)
  {
    assert allocated(Ids(t));
    Parts(n.left, t.left);
    if n.left == null { return null; }
    PrepareSize(t);
    ghost var t1 := PrepareLeft(t).value;
    r := NodePrepareLeft(n, t);
    Parts(r.left, t1.left);
    ghost var t2 := t1.(left := DelMin(t1.left).value);
    var l := NodeDelMin(r.left, t1.left);
    assert IsTree(l, t2.left) && IsTree(r.right, t2.right);
    r.left := l;
    assert IsTree(r.left, t2.left) && IsTree(r.right, t2.right);
    r := NodeFixUp(r, t2);
  }

  /** `delete`, for every tree on which it meets no null pointer. */
  method NodeDelete(n: RbNode?, ghost t: Tree<RbNode>, key: int) returns (r: RbNode?)
    requires IsTree(n, t) && Delete(t, key).Some?
    modifies Ids(t)
    ensures IsTree(r, Delete(t, key).value) && Ids(Delete(t, key).value) <= Ids(t)
    decreases Size(t)
  {
    assert allocated(Ids(t));
    if n == null { return null; }
    if key < n.key {
      PrepareSize(t);
      ghost var t1 := PrepareLeft(t).value;
      r := NodePrepareLeft(n, t);
      var l := NodeDelete(r.left, t1.left, key);
      r.left := l;
      r := NodeFixUp(r, t1.(left := Delete(t1.left, key).value));
    } else {
      r := NodeDeleteRight(n, t, key);
    }
  }

  /** The branch of `delete` for the key itself or a larger one. */
  method NodeDeleteRight(n: RbNode, ghost t: Tree<RbNode>, key: int) returns (r: RbNode?)
    requires IsTree(n, t) && t.Node? && key >= t.key && Delete(t, key).Some?
    modifies Ids(t)
    ensures IsTree(r, Delete(t, key).value) && Ids(Delete(t, key).value) <= Ids(t)
    decreases Size(t), 0
  {
    assert allocated(Ids(t));
    var found := key == n.key;
    r := NodeLeanRight(n, t);
    ghost var t1 := LeanRight(t);
    LeanRightSize(t);
    Parts(r.right, t1.right);
    if found && r.right == null { return null; }
    PrepareSize(t1);
    ghost var t2 := PrepareRight(t1).value;
    r := NodePrepareRight(r, t1);
    if key == r.key {
      assert DelMin(t2.right).Some?;
      r := NodeReplaceByMin(r, t2);
    } else {
      ghost var u := Delete(t2.right, key).value;
      var right := NodeDelete(r.right, t2.right, key);
      NodeAttachRight(r, t2, right, u);
      r := NodeFixUp(r, t2.(right := u));
    }
  }

  /** Puts a subtree with nodes of its own in the place of the right one. */
  method NodeAttachRight(n: RbNode, ghost t: Tree<RbNode>, right: RbNode?, ghost u: Tree<RbNode>)
    requires t.Node? && n == t.id && n.key == t.key && n.data == t.data && n.red == t.red
    requires IsTree(n.left, t.left) && IsTree(right, u)
    requires n !in Ids(t.left) && n !in Ids(u) && Ids(t.left) !! Ids(u)
    modifies n`right
    ensures IsTree(n, t.(right := u))
  {
    assert allocated(Ids(t.left)) && allocated(Ids(u));
    n.right := right;
  }

  method NodeOverwrite(n: RbNode, ghost t: Tree<RbNode>, key: int, data: int)
    requires IsTree(n, t) && t.Node?
    modifies n`key, n`data
    ensures IsTree(n, t.(key := key, data := data))
  {
    assert allocated(Ids(t));
    n.key := key;
    n.data := data;
  }

  /** The key is on this node: its successor's key and data move here and the successor goes. */
  method NodeReplaceByMin(n: RbNode, ghost t: Tree<RbNode>) returns (r: RbNode)
    requires IsTree(n, t) && t.Node? && t.right.Node? && DelMin(t.right).Some?
    modifies Ids(t)
    ensures var m := FindMin(t.right);
            var t1 := FixUp(t.(key := m.key, data := m.data, right := DelMin(t.right).value));
            IsTree(r, t1) && Ids(t1) <= Ids(t)
  {
    assert allocated(Ids(t));
    Parts(n.right, t.right);
    var min := NodeFindMin(n.right, t.right);
    ghost var m := FindMin(t.right);
    ghost var t1 := t.(key := m.key, data := m.data);
    NodeOverwrite(n, t, min.key, min.data);
    assert Ids(t1) == Ids(t);
    ghost var u := DelMin(t.right).value;
    var right := NodeDelMin(n.right, t1.right);
    NodeAttachRight(n, t1, right, u);
    r := NodeFixUp(n, t1.(right := u));
  }
}
