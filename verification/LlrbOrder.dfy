/**
 Search order and contents: the entries of a tree in key order, and what every update does to them.
 */
module LlrbOrder {
  import opened Options
  import opened SortedEntries
  import opened LlrbTree
  import opened LlrbShape

  /** Keys and data in the order in which `traverse` meets them. */
  ghost function Entries<N>(t: Tree<N>): seq<Entry> {
    if t.Leaf? then [] else Entries(t.left) + [(t.key, t.data)] + Entries(t.right)
  }

  /** A search tree: its entries are in strictly ascending key order. */
  ghost predicate Ordered<N>(t: Tree<N>) {
    Sorted(Entries(t))
  }

  /** The map a tree stands for. */
  ghost function Map<N>(t: Tree<N>): map<int, int> {
    MapOf(Entries(t))
  }

  /** The invariant of `struct rbtree` between calls. */
  ghost predicate RbValid<N>(t: Tree<N>) {
    RbShape(t) && Ordered(t)
  }

  /* ---- rearrangements keep the entries ---- */

  lemma RotLeftEntries<N>(t: Tree<N>)
    requires t.Node? && t.right.Node?
    ensures Entries(RotLeft(t)) == Entries(t)
  {
  }

  lemma RotRightEntries<N>(t: Tree<N>)
    requires t.Node? && t.left.Node?
    ensures Entries(RotRight(t)) == Entries(t)
  {
  }

  lemma ColorFlipEntries<N>(t: Tree<N>)
    requires t.Node? && t.left.Node? && t.right.Node?
    ensures Entries(ColorFlip(t)) == Entries(t)
  {
  }

  lemma MoveRedLeftEntries<N>(t: Tree<N>)
    requires t.Node? && t.left.Node? && t.right.Node?
    ensures Entries(MoveRedLeft(t).value) == Entries(t)
  {
    var f := ColorFlip(t);
    ColorFlipEntries(t);
    if IsRed(f.right.left) {
      RotRightEntries(f.right);
      var g := f.(right := RotRight(f.right));
      assert Entries(g) == Entries(f);
      RotLeftEntries(g);
      ColorFlipEntries(RotLeft(g));
    }
  }

  lemma PrepareEntries<N>(t: Tree<N>)
    requires t.Node?
    ensures PrepareLeft(t).Some? ==> Entries(PrepareLeft(t).value) == Entries(t)
    ensures PrepareRight(t).Some? ==> Entries(PrepareRight(t).value) == Entries(t)
  {
    if t.left.Node? && t.right.Node? {
      MoveRedLeftEntries(t);
    }
  }

  lemma LeanRightEntries<N>(t: Tree<N>)
    requires t.Node?
    ensures Entries(LeanRight(t)) == Entries(t)
  {
  }

  lemma FixUpEntries<N>(t: Tree<N>)
    requires t.Node?
    ensures Entries(FixUp(t)) == Entries(t)
  {
    var t1 := if IsRed(t.right) then RotLeft(t) else t;
    if IsRed(t.right) { RotLeftEntries(t); }
    assert Entries(t1) == Entries(t);
    var t2 := if IsRed(t1.left) && IsRed(t1.left.left) then RotRight(t1) else t1;
    if IsRed(t1.left) && IsRed(t1.left.left) { RotRightEntries(t1); }
    assert Entries(t2) == Entries(t);
    if IsRed(t2.left) && IsRed(t2.right) { ColorFlipEntries(t2); }
  }

  /** The entries on either side of a node. */
  lemma OrderedParts<N>(t: Tree<N>)
    requires t.Node? && Ordered(t)
    ensures Ordered(t.left) && Below(Entries(t.left), t.key)
    ensures Ordered(t.right) && Above(Entries(t.right), t.key)
  {
    SortedParts(Entries(t.left), (t.key, t.data), Entries(t.right));
  }

  lemma KeyParts<N>(t: Tree<N>, key: int)
    requires t.Node? && Ordered(t)
    ensures HasKey(Entries(t), key) <==>
            if key < t.key then HasKey(Entries(t.left), key)
            else key == t.key || HasKey(Entries(t.right), key)
  {
    OrderedParts(t);
    HasKeyParts(Entries(t.left), (t.key, t.data), Entries(t.right), key);
  }

  /* ---- insertion ---- */

  lemma {:induction false} InsertEntries<N>(t: Tree<N>, key: int, data: int, newId: N)
    requires Ordered(t)
    ensures Entries(Insert(t, key, data, newId)) == With(Entries(t), key, data)
  {
    if t.Node? {
      OrderedParts(t);
      var a, e, b := Entries(t.left), (t.key, t.data), Entries(t.right);
      if key < t.key {
        InsertEntries(t.left, key, data, newId);
        WithInFirst(a, e, b, key, data);
        FixUpEntries(t.(left := Insert(t.left, key, data, newId)));
      } else if key > t.key {
        InsertEntries(t.right, key, data, newId);
        WithInSecond(a, e, b, key, data);
        FixUpEntries(t.(right := Insert(t.right, key, data, newId)));
      } else {
        WithMiddle(a, e, b, data);
        FixUpEntries(t.(data := data));
      }
    }
  }

  /** `rb_insert` keeps a tree valid and updates its map at the key; only a new key adds a node. */
  lemma RbInsertCorrect<N>(root: Tree<N>, key: int, data: int, newId: N)
    requires RbValid(root)
    ensures RbValid(RbInsert(root, key, data, newId))
    ensures Map(RbInsert(root, key, data, newId)) == Map(root)[key := data]
    ensures Size(RbInsert(root, key, data, newId)) == Size(root) + if key in Map(root) then 0 else 1
  {
    RbInsertShape(root, key, data, newId);
    InsertEntries(root, key, data, newId);
    assert Entries(RbInsert(root, key, data, newId)) == Entries(Insert(root, key, data, newId));
    WithSorted(Entries(root), key, data);
    WithMap(Entries(root), key, data);
    SizeIsMapSize(root);
    SizeIsMapSize(RbInsert(root, key, data, newId));
  }

  /** `count_nodes` counts the keys. */
  lemma SizeIsMapSize<N>(t: Tree<N>)
    requires Ordered(t)
    ensures Size(t) == |Map(t)|
  {
    SizeIsEntries(t);
    MapOfSize(Entries(t));
  }

  lemma {:induction false} SizeIsEntries<N>(t: Tree<N>)
    ensures Size(t) == |Entries(t)|
  {
    if t.Node? {
      SizeIsEntries(t.left);
      SizeIsEntries(t.right);
    }
  }

  /* ---- deletion ---- */

  lemma {:induction false} FindMinIsFirst<N>(t: Tree<N>)
    requires t.Node?
    ensures |Entries(t)| > 0 && Entries(t)[0] == (FindMin(t).key, FindMin(t).data)
  {
    if t.left.Node? {
      FindMinIsFirst(t.left);
    }
  }

  /** `del_min` cuts off the first entry. */
  lemma {:induction false} DelMinEntries<N>(t: Tree<N>)
    requires DeleteReady(t)
    ensures DelMin(t).Some? && |Entries(t)| > 0
    ensures Entries(DelMin(t).value) == Entries(t)[1..]
    decreases Size(t)
  {
    DelMinShape(t);
    if t.left.Leaf? {
      MinHasNoRight(t);
    } else {
      LeftDescent(t);
      PrepareSize(t);
      PrepareEntries(t);
      var t1 := PrepareLeft(t).value;
      DelMinEntries(t1.left);
      FixUpEntries(t1.(left := DelMin(t1.left).value));
    }
  }

  /** One subtree of `delete`: what it returns replaces the subtree and lacks just the key. */
  lemma {:induction false} DeleteReadyCorrect<N>(t: Tree<N>, key: int)
    requires DeleteReady(t) && Ordered(t) && HasKey(Entries(t), key)
    ensures Delete(t, key).Some? && Replaces(Delete(t, key).value, t)
    ensures Entries(Delete(t, key).value) == Without(Entries(t), key)
    decreases Size(t), 2
  {
    KeyParts(t, key);
    if key >= t.key && LeanRight(t).right.Leaf? {
      BottomHasNoLeft(t);
      assert Entries(t) == [(t.key, t.data)];
    } else {
      DeleteNodeCorrect(t, key);
    }
  }

  /** The same for any node above the bottom; the root of the whole tree need not be ready. */
  lemma {:induction false} DeleteNodeCorrect<N>(t: Tree<N>, key: int)
    requires Llrb(t) && t.Node? && Ordered(t) && HasKey(Entries(t), key)
    requires key >= t.key ==> LeanRight(t).right.Node?
    ensures Delete(t, key).Some? && NearlyLlrb(Delete(t, key).value)
    ensures DeleteReady(t) ==> Replaces(Delete(t, key).value, t)
    ensures Entries(Delete(t, key).value) == Without(Entries(t), key)
    decreases Size(t), 1
  {
    if key < t.key {
      DeleteLeftCorrect(t, key);
    } else {
      DeleteRightCorrect(t, key);
    }
  }

  /** Preparing the left descent leaves the wanted key on the left. */
  lemma LeftKeepsKey<N>(t: Tree<N>, key: int)
    requires t.Node? && Ordered(t) && key < t.key && PrepareLeft(t).Some? && PrepareLeft(t).value.Node?
    ensures key < PrepareLeft(t).value.key
  {
    var t1 := PrepareLeft(t).value;
    if t1 != t && IsRed(t.right.left) {
      OrderedParts(t);
      var c := t.right.left;
      assert Entries(c)[|Entries(c.left)|] == (c.key, c.data);
      assert Entries(t.right)[|Entries(c.left)|] == (c.key, c.data);
    }
  }

  lemma {:induction false} DeleteLeftCorrect<N>(t: Tree<N>, key: int)
    requires Llrb(t) && t.Node? && Ordered(t) && HasKey(Entries(t), key) && key < t.key
    ensures Delete(t, key).Some? && NearlyLlrb(Delete(t, key).value)
    ensures DeleteReady(t) ==> Replaces(Delete(t, key).value, t)
    ensures Entries(Delete(t, key).value) == Without(Entries(t), key)
    decreases Size(t), 0
  {
    KeyParts(t, key);
    LeftDescent(t);
    PrepareSize(t);
    var t1 := PrepareLeft(t).value;
    assert key < t1.key && Ordered(t1) by {
      PrepareEntries(t);
      LeftKeepsKey(t, key);
    }
    OrderedParts(t1);
    KeyParts(t1, key);
    assert HasKey(Entries(t1.left), key) by {
      PrepareEntries(t);
    }
    DeleteReadyCorrect(t1.left, key);
    var l := Delete(t1.left, key).value;
    var r := FixUp(t1.(left := l));
    assert Delete(t, key) == Some(r);
    LeftReturn(t, l);
    assert Entries(r) == Without(Entries(t), key) by {
      PrepareEntries(t);
      WithoutInFirst(Entries(t1.left), (t1.key, t1.data), Entries(t1.right), key);
      FixUpEntries(t1.(left := l));
    }
  }

  lemma {:induction false} DeleteRightCorrect<N>(t: Tree<N>, key: int)
    requires Llrb(t) && t.Node? && Ordered(t) && HasKey(Entries(t), key)
    requires key >= t.key && LeanRight(t).right.Node?
    ensures Delete(t, key).Some? && NearlyLlrb(Delete(t, key).value)
    ensures DeleteReady(t) ==> Replaces(Delete(t, key).value, t)
    ensures Entries(Delete(t, key).value) == Without(Entries(t), key)
    decreases Size(t), 0
  {
    RightDescent(t);
    LeanRightSize(t);
    PrepareSize(LeanRight(t));
    var t2 := PrepareRight(LeanRight(t)).value;
    RightPrepared(t, key);
    DeleteOnRight(t, key, t2);
    if key == t2.key {
      DelMinShape(t2.right);
      ReplaceByMin(t2);
      RightReturn(t, FindMin(t2.right).key, FindMin(t2.right).data, DelMin(t2.right).value);
    } else {
      DeleteReadyCorrect(t2.right, key);
      var r := Delete(t2.right, key).value;
      RemoveOnRight(t2, key, r);
      assert t2.(right := r) == t2.(key := t2.key, data := t2.data, right := r);
      RightReturn(t, t2.key, t2.data, r);
    }
  }

  /** Preparing the right descent leaves a wanted key that is not smaller on top or on the right. */
  lemma RightPrepared<N>(t: Tree<N>, key: int)
    requires Llrb(t) && t.Node? && Ordered(t) && HasKey(Entries(t), key) && key >= t.key
    requires PrepareRight(LeanRight(t)).Some? && PrepareRight(LeanRight(t)).value.Node?
    ensures var t2 := PrepareRight(LeanRight(t)).value;
            && Entries(t2) == Entries(t) && t2.key <= key
            && Ordered(t2.right) && (t2.key < key ==> HasKey(Entries(t2.right), key))
  {
    LeanRightEntries(t);
    PrepareEntries(LeanRight(t));
    RightKeyUp(t, key);
    var t2 := PrepareRight(LeanRight(t)).value;
    OrderedParts(t2);
    KeyParts(t2, key);
  }

  lemma RemoveOnRight<N>(t: Tree<N>, key: int, r: Tree<N>)
    requires t.Node? && Ordered(t) && t.key < key && Entries(r) == Without(Entries(t.right), key)
    ensures Entries(FixUp(t.(right := r))) == Without(Entries(t), key)
  {
    OrderedParts(t);
    WithoutInSecond(Entries(t.left), (t.key, t.data), Entries(t.right), key);
    FixUpEntries(t.(right := r));
  }

  /** Copying the successor into a node and cutting the successor removes the node's key. */
  lemma ReplaceByMin<N>(t: Tree<N>)
    requires t.Node? && Ordered(t) && DeleteReady(t.right)
    ensures DelMin(t.right).Some?
    ensures var m := FindMin(t.right);
            Entries(FixUp(t.(key := m.key, data := m.data, right := DelMin(t.right).value)))
            == Without(Entries(t), t.key)
  {
    DelMinEntries(t.right);
    FindMinIsFirst(t.right);
    OrderedParts(t);
    var m, r, b := FindMin(t.right), DelMin(t.right).value, Entries(t.right);
    WithoutMiddle(Entries(t.left), (t.key, t.data), b);
    HeadBetween(Entries(t.left), b);
    FixUpEntries(t.(key := m.key, data := m.data, right := r));
  }

  /** On the right descent the key of the node on top never passes the wanted key. */
  lemma RightKeyUp<N>(t: Tree<N>, key: int)
    requires Llrb(t) && t.Node? && Ordered(t) && key >= t.key
    requires PrepareRight(LeanRight(t)).Some? && PrepareRight(LeanRight(t)).value.Node?
    ensures PrepareRight(LeanRight(t)).value.key <= key
  {
    OrderedParts(t);
    if IsRed(t.left) {
      assert Entries(t.left)[|Entries(t.left.left)|] == (t.left.key, t.left.data);
    }
  }

  /**
   `rb_delete` of a present key from a tree with another key left: the tree stays valid and its
   map loses exactly that key.
   */
  lemma RbDeleteCorrect<N>(root: Tree<N>, key: int)
    requires RbValid(root) && key in Map(root) && Size(root) >= 2
    ensures RbDelete(root, key).Some? && RbValid(RbDelete(root, key).value)
    ensures Map(RbDelete(root, key).value) == Map(root) - {key}
  {
    HasKeyInMap(Entries(root), key);
    RootHasRight(root);
    DeleteNodeCorrect(root, key);
    var r := Delete(root, key).value;
    assert Entries(Blacken(r)) == Entries(r);
    WithoutSorted(Entries(root), key);
    WithoutMap(Entries(root), key);
  }

  lemma RootHasRight<N>(root: Tree<N>)
    requires RbShape(root) && Size(root) >= 2
    ensures LeanRight(root).right.Node?
  {
  }

  /* ---- when deletion succeeds ---- */

  lemma ChildrenLackKey<N>(t: Tree<N>, key: int)
    requires t.Node? && Ordered(t) && !HasKey(Entries(t), key)
    ensures key != t.key
    ensures Ordered(t.left) && !HasKey(Entries(t.left), key)
    ensures Ordered(t.right) && !HasKey(Entries(t.right), key)
  {
    OrderedParts(t);
    HasKeyParts(Entries(t.left), (t.key, t.data), Entries(t.right), key);
  }

  /** Looking for an absent key always ends in a null dereference. */
  lemma {:induction false} DeleteAbsent<N>(t: Tree<N>, key: int)
    requires t.Node? && Ordered(t) && !HasKey(Entries(t), key)
    ensures Delete(t, key).None?
    decreases Size(t)
  {
    ChildrenLackKey(t, key);
    if key < t.key {
      if PrepareLeft(t).Some? {
        PrepareSize(t);
        PrepareEntries(t);
        ChildrenLackKey(PrepareLeft(t).value, key);
        DeleteAbsent(PrepareLeft(t).value.left, key);
      }
    } else {
      var t1 := LeanRight(t);
      LeanRightSize(t);
      LeanRightEntries(t);
      PrepareSize(t1);
      PrepareEntries(t1);
      if t1.right.Node? && PrepareRight(t1).Some? {
        ChildrenLackKey(PrepareRight(t1).value, key);
        DeleteAbsent(PrepareRight(t1).value.right, key);
      }
    }
  }

  /** `rb_delete` works exactly for a present key that is not the only one. */
  lemma RbDeleteWorksIff<N>(root: Tree<N>, key: int)
    requires RbValid(root)
    ensures RbDelete(root, key).Some? <==> key in Map(root) && |Map(root)| >= 2
  {
    SizeIsMapSize(root);
    HasKeyInMap(Entries(root), key);
    if key !in Map(root) {
      if root.Node? { DeleteAbsent(root, key); }
    } else if Size(root) >= 2 {
      RbDeleteCorrect(root, key);
    } else {
      assert Size(root.left) == 0 && Size(root.right) == 0;
    }
  }

  /** The smallest failing inputs: the last key and an absent one. */
  lemma DeletesThatFail<N>(id: N, key: int, other: int)
    requires key != other
    ensures var root := Node(id, Leaf, key, 0, false, Leaf);
            RbValid(root) && RbDelete(root, key).None? && RbDelete(root, other).None?
  {
    var root := Node(id, Leaf, key, 0, false, Leaf);
    var e: Entry := (key, 0);
    assert Entries(root) == [e];
    assert [e][1..] == [] && MapOf([e][1..]) == map[];
    assert Map(root) == map[key := 0];
    var leaf: Tree<N> := Leaf;
    assert Llrb(leaf) && Sorted([e]);
    RbDeleteWorksIff(root, key);
    RbDeleteWorksIff(root, other);
    assert Map(root).Keys == {key} && |Map(root)| == |Map(root).Keys|;
  }
}
