/** Key-sorted lists of entries and the maps they stand for. */
module SortedEntries {
  type Entry = (int, int)

  ghost predicate Sorted(s: seq<Entry>) {
    forall i, j :: 0 <= i < j < |s| ==> s[i].0 < s[j].0
  }

  ghost predicate Below(s: seq<Entry>, key: int) {
    forall i :: 0 <= i < |s| ==> s[i].0 < key
  }

  ghost predicate Above(s: seq<Entry>, key: int) {
    forall i :: 0 <= i < |s| ==> key < s[i].0
  }

  ghost predicate HasKey(s: seq<Entry>, key: int) {
    exists i :: 0 <= i < |s| && s[i].0 == key
  }

  /** The list without the entries for a key. */
  ghost function Without(s: seq<Entry>, key: int): seq<Entry> {
    if s == [] then [] else (if s[0].0 == key then [] else [s[0]]) + Without(s[1..], key)
  }

  /** The sorted list with the entry for a key added or replaced. */
  ghost function With(s: seq<Entry>, key: int, data: int): seq<Entry> {
    if s == [] then [(key, data)]
    else if key < s[0].0 then [(key, data)] + s
    else if key == s[0].0 then [(key, data)] + s[1..]
    else [s[0]] + With(s[1..], key, data)
  }

  ghost function MapOf(s: seq<Entry>): map<int, int> {
    if s == [] then map[] else MapOf(s[1..])[s[0].0 := s[0].1]
  }

  lemma {:induction false} WithoutConcat(a: seq<Entry>, b: seq<Entry>, key: int)
    ensures Without(a + b, key) == Without(a, key) + Without(b, key)
  {
    if a == [] {
      assert a + b == b;
    } else {
      assert (a + b)[1..] == a[1..] + b;
      WithoutConcat(a[1..], b, key);
    }
  }

  lemma {:induction false} WithoutAbsent(s: seq<Entry>, key: int)
    requires forall i :: 0 <= i < |s| ==> s[i].0 != key
    ensures Without(s, key) == s
  {
    if s != [] {
      WithoutAbsent(s[1..], key);
    }
  }

  /** Removing from the first of two lists when the second has larger keys only. */
  lemma WithoutInFirst(a: seq<Entry>, e: Entry, b: seq<Entry>, key: int)
    requires key < e.0 && Above(b, e.0)
    ensures Without(a + [e] + b, key) == Without(a, key) + [e] + b
  {
    WithoutAbsent([e], key);
    WithoutAbsent(b, key);
    WithoutConcat(a, [e], key);
    WithoutConcat(a + [e], b, key);
  }

  /** Removing from the second of two lists when the first has smaller keys only. */
  lemma WithoutInSecond(a: seq<Entry>, e: Entry, b: seq<Entry>, key: int)
    requires Below(a, e.0) && e.0 < key
    ensures Without(a + [e] + b, key) == a + [e] + Without(b, key)
  {
    WithoutAbsent(a, key);
    WithoutAbsent([e], key);
    WithoutConcat(a, [e], key);
    WithoutConcat(a + [e], b, key);
  }

  lemma WithoutMiddle(a: seq<Entry>, e: Entry, b: seq<Entry>)
    requires Below(a, e.0) && Above(b, e.0)
    ensures Without(a + [e] + b, e.0) == a + b
  {
    WithoutAbsent(a, e.0);
    WithoutAbsent(b, e.0);
    WithoutConcat(a, [e], e.0);
    WithoutConcat(a + [e], b, e.0);
    assert Without([e], e.0) == [];
    assert a + [] == a;
  }

  /** What sortedness says around an entry. */
  lemma SortedParts(a: seq<Entry>, e: Entry, b: seq<Entry>)
    requires Sorted(a + [e] + b)
    ensures Sorted(a) && Sorted(b) && Below(a, e.0) && Above(b, e.0)
  {
    var s := a + [e] + b;
    assert s[|a|] == e;
    assert forall i :: 0 <= i < |a| ==> a[i] == s[i];
    assert forall i :: 0 <= i < |b| ==> b[i] == s[|a| + 1 + i];
  }

  lemma HasKeyParts(a: seq<Entry>, e: Entry, b: seq<Entry>, key: int)
    ensures HasKey(a + [e] + b, key) <==> HasKey(a, key) || key == e.0 || HasKey(b, key)
  {
    var s := a + [e] + b;
    if HasKey(s, key) {
      var i :| 0 <= i < |s| && s[i].0 == key;
      assert s[i] == if i < |a| then a[i] else if i == |a| then e else b[i - |a| - 1];
    }
    if HasKey(a, key) {
      var i :| 0 <= i < |a| && a[i].0 == key;
      assert s[i] == a[i];
    }
    if key == e.0 {
      assert s[|a|] == e;
    }
    if HasKey(b, key) {
      var i :| 0 <= i < |b| && b[i].0 == key;
      assert s[|a| + 1 + i] == b[i];
    }
  }

  /** Moving the head of the second list between the two changes nothing. */
  lemma HeadBetween(a: seq<Entry>, b: seq<Entry>)
    requires b != []
    ensures a + [b[0]] + b[1..] == a + b
  {
  }

  lemma {:induction false} WithInFirst(a: seq<Entry>, e: Entry, b: seq<Entry>, key: int, data: int)
    requires key < e.0
    ensures With(a + [e] + b, key, data) == With(a, key, data) + [e] + b
  {
    var s := a + [e] + b;
    if a != [] && a[0].0 < key {
      assert s[1..] == a[1..] + [e] + b;
      WithInFirst(a[1..], e, b, key, data);
    } else if a != [] {
      assert s[1..] == a[1..] + [e] + b;
    }
  }

  lemma {:induction false} WithInSecond(a: seq<Entry>, e: Entry, b: seq<Entry>, key: int, data: int)
    requires e.0 < key && Below(a, e.0)
    ensures With(a + [e] + b, key, data) == a + [e] + With(b, key, data)
  {
    var s := a + [e] + b;
    if a == [] {
      assert s[1..] == b;
    } else {
      assert s[1..] == a[1..] + [e] + b;
      assert s[0] == a[0];
      WithInSecond(a[1..], e, b, key, data);
    }
  }

  lemma {:induction false} WithMiddle(a: seq<Entry>, e: Entry, b: seq<Entry>, data: int)
    requires Below(a, e.0)
    ensures With(a + [e] + b, e.0, data) == a + [(e.0, data)] + b
  {
    var s := a + [e] + b;
    if a == [] {
      assert s[1..] == b;
    } else {
      assert s[1..] == a[1..] + [e] + b;
      assert s[0] == a[0];
      WithMiddle(a[1..], e, b, data);
    }
  }

  /* ---- sortedness and maps ---- */

  lemma {:induction false} WithoutSorted(s: seq<Entry>, key: int)
    requires Sorted(s)
    ensures Sorted(Without(s, key))
    ensures forall e :: e in Without(s, key) <==> e in s && e.0 != key
  {
    if s != [] {
      assert s == [s[0]] + s[1..];
      WithoutSorted(s[1..], key);
      var w := Without(s[1..], key);
      forall i | 0 <= i < |w| ensures s[0].0 < w[i].0 {
        assert w[i] in s[1..];
      }
    }
  }

  lemma {:induction false} WithSorted(s: seq<Entry>, key: int, data: int)
    requires Sorted(s)
    ensures Sorted(With(s, key, data))
    ensures forall e :: e in With(s, key, data) ==> e == (key, data) || e in s
  {
    if s != [] && s[0].0 < key {
      assert s == [s[0]] + s[1..];
      WithSorted(s[1..], key, data);
      var w := With(s[1..], key, data);
      forall i | 0 <= i < |w| ensures s[0].0 < w[i].0 {
        assert w[i] == (key, data) || w[i] in s[1..];
      }
    }
  }

  lemma SortedHead(s: seq<Entry>)
    requires Sorted(s) && s != []
    ensures Sorted(s[1..]) && Above(s[1..], s[0].0)
  {
  }

  /** A sorted list maps exactly its keys, each to the data in its entry. */
  lemma {:induction false} MapOfEntries(s: seq<Entry>)
    requires Sorted(s)
    ensures forall e :: e in s ==> e.0 in MapOf(s) && MapOf(s)[e.0] == e.1
    ensures forall k :: k in MapOf(s) ==> (k, MapOf(s)[k]) in s
  {
    if s != [] {
      var e, rest := s[0], s[1..];
      SortedHead(s);
      MapOfEntries(rest);
      assert forall x :: x in rest ==> e.0 < x.0;
      assert forall x :: x in s <==> x == e || x in rest by {
        assert s == [e] + rest;
      }
      assert MapOf(s) == MapOf(rest)[e.0 := e.1];
    }
  }

  lemma {:induction false} MapOfSize(s: seq<Entry>)
    requires Sorted(s)
    ensures |MapOf(s)| == |s|
  {
    if s != [] {
      SortedHead(s);
      MapOfSize(s[1..]);
      MapOfEntries(s[1..]);
      assert forall x :: x in s[1..] ==> s[0].0 < x.0;
    }
  }

  lemma {:induction false} HasKeyInMap(s: seq<Entry>, key: int)
    requires Sorted(s)
    ensures HasKey(s, key) <==> key in MapOf(s)
  {
    MapOfEntries(s);
    if HasKey(s, key) {
      var i :| 0 <= i < |s| && s[i].0 == key;
      assert s[i] in s;
    }
  }

  lemma {:induction false} WithoutMap(s: seq<Entry>, key: int)
    requires Sorted(s)
    ensures MapOf(Without(s, key)) == MapOf(s) - {key}
  {
    if s != [] {
      WithoutMap(s[1..], key);
      var w := Without(s[1..], key);
      if s[0].0 == key {
        assert Without(s, key) == w;
        assert MapOf(s) - {key} == MapOf(s[1..]) - {key};
      } else {
        assert Without(s, key)[1..] == w;
        assert MapOf(s) - {key} == (MapOf(s[1..]) - {key})[s[0].0 := s[0].1];
      }
    }
  }

  lemma {:induction false} WithMap(s: seq<Entry>, key: int, data: int)
    requires Sorted(s)
    ensures MapOf(With(s, key, data)) == MapOf(s)[key := data]
  {
    if s != [] && s[0].0 <= key {
      WithMap(s[1..], key, data);
    }
  }
}
