/** Sequences without repetition and ascending ones. */
module Sequences {
  ghost predicate Distinct<T>(s: seq<T>) {
    forall i, j :: 0 <= i < j < |s| ==> s[i] != s[j]
  }

  /** What is counted once does not stand at two places. */
  lemma NotTwice<T>(s: seq<T>, i: nat, j: nat)
    requires i < j < |s| && multiset(s)[s[j]] <= 1
    ensures s[i] != s[j]
  {
    assert s == s[..j] + s[j..];
    assert multiset(s)[s[j]] == multiset(s[..j])[s[j]] + multiset(s[j..])[s[j]];
    assert s[j..][0] in multiset(s[j..]) && s[..j][i] in multiset(s[..j]);
  }

  ghost predicate Ascending(s: seq<int>) {
    forall i, j :: 0 <= i < j < |s| ==> s[i] < s[j]
  }

  lemma AscendingCons(i: int, rest: seq<int>)
    requires Ascending(rest) && forall j :: j in rest ==> i < j
    ensures Ascending([i] + rest)
  {
    forall m, n | 0 <= m < n < |[i] + rest| ensures ([i] + rest)[m] < ([i] + rest)[n] {
      assert ([i] + rest)[n] == rest[n - 1] && rest[n - 1] in rest;
    }
  }
}
