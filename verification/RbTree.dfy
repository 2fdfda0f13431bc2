/** `struct rbtree` and its public operations. */
module RbTree {
  import opened SortedEntries
  import opened LlrbTree
  import opened LlrbOrder
  import opened LlrbHeight
  import opened LlrbNodes
  import opened RbNodes

  /** The pointers `rstack` and `next` make a list of the nodes on the iterator's stack. */
  ghost predicate Linked(p: RbNode?, stack: seq<Tree<RbNode>>)
    reads (set s | s in stack && s.Node? :: s.id)`next
  {
    if stack == [] then p == null
    else stack[0].Node? && p == stack[0].id && Linked(p.next, stack[1..])
  }

  /** What a lookup returns: the data stored under the key, or the null address. */
  ghost function Lookup<N>(t: Tree<N>, key: int): int {
    if key in Map(t) then Map(t)[key] else 0
  }

  /** Going to the side of the key, or stopping at it, keeps the answer. */
  lemma LookupStep<N>(t: Tree<N>, key: int)
    requires t.Node? && Ordered(t)
    ensures Ordered(t.left) && Ordered(t.right)
    ensures Lookup(t, key) ==
            if key == t.key then t.data else Lookup(if key < t.key then t.left else t.right, key)
  {
    OrderedParts(t);
    var side := if key < t.key then t.left else t.right;
    MapOfEntries(Entries(t));
    MapOfEntries(Entries(side));
    HasKeyInMap(Entries(t), key);
    HasKeyInMap(Entries(side), key);
    assert (t.key, t.data) in Entries(t);
    if key in Map(side) {
      assert (key, Map(side)[key]) in Entries(side);
      assert (key, Map(side)[key]) in Entries(t);
    }
    if key in Map(t) && key != t.key {
      var e := (key, Map(t)[key]);
      assert e in Entries(t);
      assert e in Entries(t.left) || e in Entries(t.right);
    }
  }

  /** The loop of `rb_find` from some node. */
  method FindFrom(root: RbNode?, ghost t: Tree<RbNode>, key: int) returns (data: int, ghost steps: nat)
    requires Holds(root, t) && Ordered(t)
    ensures data == Lookup(t, key) && steps <= Height(t)
  {
    assert allocated(Ids(t));
    steps := 0;
    var node := root;
    ghost var sub := t;
    while node != null
      invariant Holds(node, sub) && Ordered(sub) && steps + Height(sub) <= Height(t)
      invariant Lookup(t, key) == Lookup(sub, key)
      decreases sub
    {
      LookupStep(sub, key);
      steps := steps + 1;
      if key == node.key {
        return node.data, steps;
      }
      if key < node.key {
        node, sub := node.left, sub.left;
      } else {
        node, sub := node.right, sub.right;
      }
    }
    data := 0;
  }

  lemma HeightSteps<N>(t: Tree<N>, steps: nat)
    requires RbValid(t) && steps <= Height(t)
    ensures AtMostTwiceLog(steps, |Map(t)|)
  {
    SizeIsMapSize(t);
    HeightBound(t);
    Pow2Monotone(steps, Height(t));
  }

  /**
   An iterator over the tree `t` at the subtree `cur`: `rstack` lists the ancestors still to be
   visited, linked through their `next` fields.
   */
  ghost predicate Cursor(t: Tree<RbNode>, nodes: set<RbNode>, iter: RbNode?, rstack: RbNode?,
                         cur: Tree<RbNode>, stack: seq<Tree<RbNode>>)
    reads nodes
  {
    && Path(t, cur, stack) && Ids(cur) <= nodes && Holds(iter, cur)
    && (forall s :: s in stack ==> s.Node? && s.id in nodes) && Linked(rstack, stack)
  }

  /** The branch of `rb_next` that goes down to the left. */
  method IterPush(iter: RbNode, rstack: RbNode?, ghost t: Tree<RbNode>, ghost nodes: set<RbNode>,
                  ghost cur: Tree<RbNode>, ghost stack: seq<Tree<RbNode>>)
    returns (iter': RbNode?, rstack': RbNode)
    requires Cursor(t, nodes, iter, rstack, cur, stack) && Separate(t)
    modifies iter`next
    ensures cur.Node? && Cursor(t, nodes, iter', rstack', cur.left, [cur] + stack)
    ensures Pending(cur.left, [cur] + stack) == Pending(cur, stack)
  {
    PathSeparate(t, cur, stack);
    PathPush(t, cur, stack);
    PendingPush(cur, stack);
    LinkPush(iter, rstack, cur, stack);
    rstack' := iter;
    iter' := iter.left;
  }

  method LinkPush(n: RbNode, p: RbNode?, ghost t: Tree<RbNode>, ghost stack: seq<Tree<RbNode>>)
    requires Linked(p, stack) && t.Node? && t.id == n && forall s :: s in stack ==> s.Node? && s.id != n
    modifies n`next
    ensures Linked(n, [t] + stack)
  {
    n.next := p;
    assert Linked(p, stack);
    assert ([t] + stack)[1..] == stack;
  }

  /** The branch of `rb_next` that visits the top of the stack. */
  method IterPop(rstack: RbNode, ghost root: RbNode?, ghost t: Tree<RbNode>, ghost nodes: set<RbNode>,
                 ghost cur: Tree<RbNode>, ghost stack: seq<Tree<RbNode>>)
    returns (res: RbNode, iter': RbNode?, rstack': RbNode?)
    requires Cursor(t, nodes, null, rstack, cur, stack) && Holds(root, t) && nodes == Ids(t)
    ensures stack != [] && Cursor(t, nodes, iter', rstack', stack[0].right, stack[1..])
    ensures Pending(cur, stack) == [res] + Pending(stack[0].right, stack[1..])
  {
    PathHolds(root, t, cur, stack);
    PathPop(t, cur, stack);
    PathNodes(t, stack[0].right, stack[1..]);
    PendingPop(stack);
    res := rstack;
    rstack' := rstack.next;
    iter' := res.right;
  }

  /** The loop of `rb_next`: down to the left until the stack's top is the next node. */
  method IterNext(iter: RbNode?, rstack: RbNode?, ghost root: RbNode?, ghost t: Tree<RbNode>,
                  ghost nodes: set<RbNode>, ghost cur: Tree<RbNode>, ghost stack: seq<Tree<RbNode>>)
    returns (res: RbNode?, iter': RbNode?, rstack': RbNode?,
             ghost cur': Tree<RbNode>, ghost stack': seq<Tree<RbNode>>)
    requires Cursor(t, nodes, iter, rstack, cur, stack) && IsTree(root, t) && nodes == Ids(t)
    modifies nodes`next
    ensures Cursor(t, nodes, iter', rstack', cur', stack')
    ensures Pending(cur, stack) == (if res == null then [] else [res]) + Pending(cur', stack')
    ensures res == null ==> Pending(cur', stack') == []
  {
    res, iter', rstack', cur', stack' := null, iter, rstack, cur, stack;
    while rstack' != null || iter' != null
      invariant Cursor(t, nodes, iter', rstack', cur', stack')
      invariant Pending(cur', stack') == Pending(cur, stack) && res == null
      decreases cur'
    {
      if iter' != null {
        iter', rstack' := IterPush(iter', rstack', t, nodes, cur', stack');
        cur', stack' := cur'.left, [cur'] + stack';
      } else {
        res, iter', rstack' := IterPop(rstack', root, t, nodes, cur', stack');
        cur', stack' := stack'[0].right, stack'[1..];
        return;
      }
    }
  }

  /** The new root of `rb_insert`, made black. */
  method RootInsert(root: RbNode?, ghost t: Tree<RbNode>, key: int, data: int)
    returns (r: RbNode, ghost u: Tree<RbNode>)
    requires IsTree(root, t) && RbValid(t)
    modifies Ids(t)
    ensures IsTree(r, u) && fresh(Ids(u) - Ids(t))
    ensures RbValid(u) && Map(u) == Map(t)[key := data]
    ensures Size(u) == Size(t) + if key in Map(t) then 0 else 1
  {
    ghost var added;
    r, added := NodeInsert(root, t, key, data);
    NodeBlacken(r, LlrbTree.Insert(t, key, data, added));
    RbInsertCorrect(t, key, data, added);
    u := RbInsert(t, key, data, added);
  }

  class RbTree {
    var root: RbNode?
    var rstack: RbNode?
    var iter: RbNode?

    ghost var tree: Tree<RbNode>         // the value at root
    ghost var nodes: set<RbNode>         // the node objects of the tree
    ghost var cur: Tree<RbNode>          // the value at iter
    ghost var stack: seq<Tree<RbNode>>   // the values of the nodes on rstack, top first

    ghost predicate Valid()
      reads this`root, this`tree, this`nodes
      reads nodes`key, nodes`data, nodes`red, nodes`left, nodes`right
    {
      nodes == Ids(tree) && IsTree(root, tree) && RbValid(tree)
    }

    ghost function Contents(): map<int, int>
      reads this`tree
    {
      Map(tree)
    }

    constructor ()
      ensures Valid() && Contents() == map[] && tree == Leaf
    {
      root, rstack, iter := null, null, null;
      tree, nodes, cur, stack := Leaf, {}, Leaf, [];
    }

    method Insert(key: int, data: int)
      requires Valid()
      modifies this`root, this`tree, this`nodes, nodes
      ensures Valid() && fresh(nodes - old(nodes))
      ensures Contents() == old(Contents())[key := data]
      ensures Size(tree) == old(Size(tree)) + if key in old(Contents()) then 0 else 1
    {
      root, tree := RootInsert(root, tree, key, data);
      nodes := Ids(tree);
    }

    method Delete(key: int)
      requires Valid() && key in Contents() && |Contents()| >= 2
      modifies this`root, this`tree, this`nodes, nodes
      ensures Valid() && nodes <= old(nodes)
      ensures Contents() == old(Contents()) - {key}
    {
      ghost var before := tree;
      SizeIsMapSize(tree);
      RbDeleteCorrect(before, key);
      var r := NodeDelete(root, tree, key);
      root := r;
      NodeBlacken(root, LlrbTree.Delete(before, key).value);
      tree := RbDelete(before, key).value;
      nodes := Ids(tree);
    }

    /** The loop of `rb_find` goes round at most 2 log2(n + 1) times. */
    method Find(key: int) returns (data: int, ghost steps: nat)
      requires Valid()
      ensures data == if key in Contents() then Contents()[key] else 0
      ensures AtMostTwiceLog(steps, |Contents()|)
    {
      data, steps := FindFrom(root, tree, key);
      HeightSteps(tree, steps);
    }

    method Count() returns (n: nat)
      requires Valid()
      ensures n == |Contents()|
    {
      SizeIsMapSize(tree);
      n := NodeCount(root, tree);
    }

    method Clear()
      modifies this`root, this`tree, this`nodes
      ensures Valid() && Contents() == map[] && tree == Leaf
    {
      root := null;
      tree := Leaf;
      nodes := {};
    }

    /** `rb_foreach` with a callback that notes the nodes it is given. */
    method Foreach() returns (seen: seq<RbNode>)
      requires Valid()
      ensures seen == InOrder(tree)
    {
      seen := NodeTraverse(root, tree, []);
    }

    /* ---- iteration ---- */

    ghost predicate Iterating()
      reads this, nodes
    {
      Valid() && Cursor(tree, nodes, iter, rstack, cur, stack)
    }

    /** The nodes still to come. */
    ghost function Rest(): seq<RbNode>
      requires Path(tree, cur, stack)
      reads this`tree, this`cur, this`stack
    {
      PathNodes(tree, cur, stack);
      Pending(cur, stack)
    }

    method Begin()
      requires Valid()
      modifies this`rstack, this`iter, this`cur, this`stack
      ensures Iterating() && Rest() == InOrder(tree)
    {
      rstack := null;
      iter := root;
      cur, stack := tree, [];
    }

    /** `rb_next` returns the nodes one by one in key order, and null after the last. */
    method Next() returns (res: RbNode?)
      requires Iterating()
      modifies this`rstack, this`iter, this`cur, this`stack, nodes`next
      ensures Iterating()
      ensures old(Rest()) == (if res == null then [] else [res]) + Rest()
      ensures res == null ==> Rest() == []
    {
      res, iter, rstack, cur, stack := IterNext(iter, rstack, root, tree, nodes, cur, stack);
    }

    /** The nodes in `past` have been used, `node` is at hand and the rest are still to come. */
    ghost predicate At(past: seq<RbNode>, node: RbNode?)
      reads this, nodes
    {
      && Iterating() && (node == null ==> Rest() == [])
      && InOrder(tree) == past + ((if node == null then [] else [node]) + Rest())
    }

    method First() returns (node: RbNode?)
      requires Valid()
      modifies this`rstack, this`iter, this`cur, this`stack, nodes`next
      ensures At([], node)
    {
      Begin();
      node := Next();
    }

    method Following(node: RbNode, ghost past: seq<RbNode>) returns (next: RbNode?)
      requires At(past, node)
      modifies this`rstack, this`iter, this`cur, this`stack, nodes`next
      ensures At(past + [node], next)
    {
      ghost var rest := Rest();
      assert past + ([node] + rest) == (past + [node]) + rest;
      next := Next();
    }

    /** `rb_copy` has inserted the nodes `past` of `src` here and has `node` at hand. */
    ghost predicate Copying(src: RbTree, node: RbNode?, past: seq<RbNode>)
      reads this, nodes, src, src.nodes
    {
      && src.At(past, node) && nodes !! src.nodes
      && Valid() && |past| <= |Entries(src.tree)| && Contents() == MapOf(Entries(src.tree)[..|past|])
    }

    /** One turn of the loop of `rb_copy`. */
    method CopyNode(src: RbTree, node: RbNode, ghost past: seq<RbNode>) returns (next: RbNode?)
      requires src != this && Copying(src, node, past)
      modifies this`root, this`tree, this`nodes, nodes
      modifies src`rstack, src`iter, src`cur, src`stack, src.nodes`next
      ensures Copying(src, next, past + [node])
      ensures fresh(nodes - old(nodes))
    {
      CopyEntry(src, node, past);
      next := src.Following(node, past);
    }

    /** The call of `rb_insert` in that loop. */
    method CopyEntry(src: RbTree, node: RbNode, ghost past: seq<RbNode>)
      requires src != this && Copying(src, node, past)
      modifies this`root, this`tree, this`nodes, nodes
      ensures Valid() && fresh(nodes - old(nodes)) && nodes !! src.nodes && |past| < |Entries(src.tree)|
      ensures Contents() == MapOf(Entries(src.tree)[..|past| + 1])
    {
      EntryAt(src.root, src.tree, |past|);
      MapOfAppend(Entries(src.tree), |past|);
      Insert(node.key, node.data);
    }

    /** The loop of `rb_copy`. */
    method CopyNodes(src: RbTree, first: RbNode?)
      requires src != this && Copying(src, first, [])
      modifies this`root, this`tree, this`nodes, nodes
      modifies src`rstack, src`iter, src`cur, src`stack, src.nodes`next
      ensures Valid() && fresh(nodes - old(nodes)) && src.Valid()
      ensures Contents() == src.Contents()
    {
      var node := first;
      ghost var past: seq<RbNode> := [];
      while node != null
        invariant Copying(src, node, past) && fresh(nodes - old(nodes))
        decreases |InOrder(src.tree)| - |past|
      {
        ghost var used: RbNode := node;
        node := CopyNode(src, node, past);
        past := past + [used];
      }
      NoneLeft(src.root, src.tree, past);
    }

    /** `rb_copy`: this tree's map becomes that of `src`. */
    method CopyFrom(src: RbTree)
      requires src != this && src.Valid() && Valid()
      modifies this`root, this`tree, this`nodes
      modifies src`rstack, src`iter, src`cur, src`stack, src.nodes`next
      ensures Valid() && fresh(nodes) && src.Valid()
      ensures Contents() == src.Contents() == old(src.Contents())
    {
      Clear();
      var node := src.First();
      CopyNodes(src, node);
    }
  }

  /** Every tree on the iterator's stack is still in place. */
  lemma {:induction false} PathHolds(root: RbNode?, t: Tree<RbNode>, cur: Tree<RbNode>, stack: seq<Tree<RbNode>>)
    requires Holds(root, t) && Path(t, cur, stack)
    ensures forall s :: s in stack ==> s.Node? && Holds(s.id, s)
  {
    if !(cur == t && stack == []) {
      if stack != [] && stack[|stack| - 1] == t && Path(t.left, cur, stack[..|stack| - 1]) {
        PathHolds(root.left, t.left, cur, stack[..|stack| - 1]);
        forall s | s in stack ensures s.Node? && Holds(s.id, s) {
          assert s == t || s in stack[..|stack| - 1];
        }
      } else {
        PathHolds(root.right, t.right, cur, stack);
      }
    }
  }

  /** The nodes in order hold the entries in order. */
  lemma {:induction false} EntriesInOrder(n: RbNode?, t: Tree<RbNode>)
    requires Holds(n, t)
    ensures |InOrder(t)| == |Entries(t)|
    ensures forall i :: 0 <= i < |InOrder(t)| ==> Entries(t)[i] == (InOrder(t)[i].key, InOrder(t)[i].data)
  {
    if t.Node? {
      EntriesInOrder(n.left, t.left);
      EntriesInOrder(n.right, t.right);
    }
  }

  /** The order of traversal and iteration is strictly ascending in the keys. */
  lemma InOrderAscending(n: RbNode?, t: Tree<RbNode>)
    requires Holds(n, t) && Ordered(t)
    ensures forall i, j :: 0 <= i < j < |InOrder(t)| ==> InOrder(t)[i].key < InOrder(t)[j].key
  {
    EntriesInOrder(n, t);
    assert forall i :: 0 <= i < |InOrder(t)| ==> Entries(t)[i].0 == InOrder(t)[i].key;
  }

  lemma NoneLeft(n: RbNode?, t: Tree<RbNode>, past: seq<RbNode>)
    requires Holds(n, t) && InOrder(t) == past + ([] + [])
    ensures |past| == |Entries(t)| && MapOf(Entries(t)[..|past|]) == Map(t)
  {
    EntriesInOrder(n, t);
    assert Entries(t)[..|past|] == Entries(t);
  }

  lemma EntryAt(n: RbNode?, t: Tree<RbNode>, k: nat)
    requires Holds(n, t) && k < |InOrder(t)|
    ensures |InOrder(t)| == |Entries(t)| && InOrder(t)[k] in Ids(t)
    ensures Entries(t)[k] == (InOrder(t)[k].key, InOrder(t)[k].data)
  {
    EntriesInOrder(n, t);
    InOrderIds(t);
    assert InOrder(t)[k] in InOrder(t);
  }

  lemma {:induction false} MapOfAppend(s: seq<Entry>, k: nat)
    requires k < |s| && Sorted(s)
    ensures MapOf(s[..k + 1]) == MapOf(s[..k])[s[k].0 := s[k].1]
  {
    if k == 0 {
      assert s[..1] == [s[0]];
    } else {
      assert s[..k + 1][1..] == s[1..][..k] && s[..k][1..] == s[1..][..k - 1];
      MapOfAppend(s[1..], k - 1);
      assert s[0].0 < s[k].0;
    }
  }
}
