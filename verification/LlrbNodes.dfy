/**
 Which node objects a tree value is made of, in key order, and how the updates move them.
 */
module LlrbNodes {
  import opened Sequences
  import opened LlrbTree

  ghost function Ids<N>(t: Tree<N>): set<N> {
    if t.Leaf? then {} else {t.id} + Ids(t.left) + Ids(t.right)
  }

  /** No node object occurs at two positions. */
  ghost predicate Separate<N>(t: Tree<N>) {
    t.Leaf? ||
    (&& Separate(t.left) && Separate(t.right)
     && t.id !in Ids(t.left) && t.id !in Ids(t.right) && Ids(t.left) !! Ids(t.right))
  }

  /** The node objects in key order. */
  ghost function InOrder<N>(t: Tree<N>): seq<N> {
    if t.Leaf? then [] else InOrder(t.left) + [t.id] + InOrder(t.right)
  }

  lemma {:induction false} InOrderIds<N>(t: Tree<N>)
    ensures (set n | n in InOrder(t)) == Ids(t)
    ensures |InOrder(t)| == Size(t)
  {
    if t.Node? {
      InOrderIds(t.left);
      InOrderIds(t.right);
    }
  }

  /** A traversal of separate nodes meets no node twice. */
  lemma {:induction false} InOrderDistinct<N>(t: Tree<N>)
    requires Separate(t)
    ensures Distinct(InOrder(t))
  {
    if t.Node? {
      InOrderDistinct(t.left);
      InOrderDistinct(t.right);
      InOrderIds(t.left);
      InOrderIds(t.right);
      var a, b, s := InOrder(t.left), InOrder(t.right), InOrder(t);
      forall x | x in a ensures x !in b {
        assert x in Ids(t.left);
      }
      forall i, j | 0 <= i < j < |s| ensures s[i] != s[j] {
        DistinctConcat(a, t.id, b, i, j);
      }
    }
  }

  lemma DistinctConcat<N>(a: seq<N>, n: N, b: seq<N>, i: nat, j: nat)
    requires Distinct(a) && Distinct(b) && n !in a && n !in b && forall x :: x in a ==> x !in b
    requires i < j < |a + [n] + b|
    ensures (a + [n] + b)[i] != (a + [n] + b)[j]
  {
    var s := a + [n] + b;
    assert s[i] == if i < |a| then a[i] else if i == |a| then n else b[i - |a| - 1];
    assert s[j] == if j < |a| then a[j] else if j == |a| then n else b[j - |a| - 1];
    assert j > |a| ==> b[j - |a| - 1] in b;
    assert i < |a| ==> a[i] in a;
  }

  /* ---- the iterator of rb_begin and rb_next ---- */

  /**
   `stack` holds exactly the ancestors of the subtree `cur` at which the path from `t` goes left,
   the nearest first: those are the ones still to be visited.
   */
  ghost predicate Path<N>(t: Tree<N>, cur: Tree<N>, stack: seq<Tree<N>>) {
    || (cur == t && stack == [])
    || (&& t.Node?
        && (|| (stack != [] && stack[|stack| - 1] == t && Path(t.left, cur, stack[..|stack| - 1]))
            || Path(t.right, cur, stack)))
  }

  /** The nodes that an iterator still has to deliver. */
  ghost function Pending<N>(cur: Tree<N>, stack: seq<Tree<N>>): seq<N>
    requires forall s :: s in stack ==> s.Node?
  {
    InOrder(cur) + StackPending(stack)
  }

  ghost function StackPending<N>(stack: seq<Tree<N>>): seq<N>
    requires forall s :: s in stack ==> s.Node?
  {
    if stack == [] then [] else [stack[0].id] + InOrder(stack[0].right) + StackPending(stack[1..])
  }

  lemma {:induction false} PathNodes<N>(t: Tree<N>, cur: Tree<N>, stack: seq<Tree<N>>)
    requires Path(t, cur, stack)
    ensures forall s :: s in stack ==> s.Node? && s.id in Ids(t)
    ensures Ids(cur) <= Ids(t)
  {
    if !(cur == t && stack == []) {
      if stack != [] && stack[|stack| - 1] == t && Path(t.left, cur, stack[..|stack| - 1]) {
        PathNodes(t.left, cur, stack[..|stack| - 1]);
        forall s | s in stack ensures s.Node? && s.id in Ids(t) {
          assert s == t || s in stack[..|stack| - 1];
        }
      } else {
        PathNodes(t.right, cur, stack);
      }
    }
  }

  /** The ancestors on the stack are not inside the current subtree and no two are the same. */
  lemma {:induction false} PathSeparate<N>(t: Tree<N>, cur: Tree<N>, stack: seq<Tree<N>>)
    requires Path(t, cur, stack) && Separate(t)
    ensures forall s :: s in stack ==> s.Node? && s.id !in Ids(cur)
    ensures forall i, j :: 0 <= i < j < |stack| ==> stack[i].id != stack[j].id
  {
    PathNodes(t, cur, stack);
    if !(cur == t && stack == []) {
      if stack != [] && stack[|stack| - 1] == t && Path(t.left, cur, stack[..|stack| - 1]) {
        var rest := stack[..|stack| - 1];
        PathSeparate(t.left, cur, rest);
        PathNodes(t.left, cur, rest);
        forall s | s in stack ensures s.id !in Ids(cur) {
          assert s == t || s in rest;
        }
        forall i, j | 0 <= i < j < |stack| ensures stack[i].id != stack[j].id {
          assert stack[i] == rest[i] && rest[i] in rest;
          assert j < |rest| ==> stack[j] == rest[j];
        }
      } else {
        PathSeparate(t.right, cur, stack);
      }
    }
  }

  /** Pushing the current node and going left keeps to the path. */
  lemma {:induction false} PathPush<N>(t: Tree<N>, cur: Tree<N>, stack: seq<Tree<N>>)
    requires Path(t, cur, stack) && cur.Node?
    ensures Path(t, cur.left, [cur] + stack)
  {
    var pushed := [cur] + stack;
    if cur == t && stack == [] {
      assert pushed[..|pushed| - 1] == [];
      assert Path(t.left, cur.left, []);
    } else if stack != [] && stack[|stack| - 1] == t && Path(t.left, cur, stack[..|stack| - 1]) {
      PathPush(t.left, cur, stack[..|stack| - 1]);
      assert pushed[..|pushed| - 1] == [cur] + stack[..|stack| - 1];
    } else {
      PathPush(t.right, cur, stack);
    }
  }

  /** Popping the nearest ancestor and going to its right keeps to the path. */
  lemma {:induction false} PathPop<N>(t: Tree<N>, cur: Tree<N>, stack: seq<Tree<N>>)
    requires Path(t, cur, stack) && stack != [] && stack[0].Node?
    ensures Path(t, stack[0].right, stack[1..])
  {
    if stack[|stack| - 1] == t && Path(t.left, cur, stack[..|stack| - 1]) {
      if |stack| == 1 {
        assert Path(t.right, t.right, []);
      } else {
        PathPop(t.left, cur, stack[..|stack| - 1]);
        assert stack[..|stack| - 1][1..] == stack[1..][..|stack| - 2];
      }
    } else {
      PathPop(t.right, cur, stack);
    }
  }

  lemma PendingPush<N>(cur: Tree<N>, stack: seq<Tree<N>>)
    requires cur.Node? && forall s :: s in stack ==> s.Node?
    ensures forall s :: s in [cur] + stack ==> s.Node?
    ensures Pending(cur.left, [cur] + stack) == Pending(cur, stack)
  {
  }

  lemma PendingPop<N>(stack: seq<Tree<N>>)
    requires stack != [] && forall s :: s in stack ==> s.Node?
    ensures forall s :: s in stack[1..] ==> s.Node?
    ensures Pending(Leaf, stack) == [stack[0].id] + Pending(stack[0].right, stack[1..])
  {
  }
}
