/** Order-preserving selections from a list. */
module Subsequences {

  /** `s` picks some entries of `list`, in their order there. */
  ghost predicate IsSub<T>(s: seq<T>, list: seq<T>)
    decreases |s|
  {
    s == [] || exists j :: 0 <= j < |list| && PicksFirst(s, list, j)
  }

  /** The first pick is entry `j`, and the later picks come after it. */
  ghost predicate PicksFirst<T>(s: seq<T>, list: seq<T>, j: nat)
    requires j < |list|
    decreases |s|, 0
  {
    s != [] && s[0] == list[j] && IsSub(s[1..], list[j + 1..])
  }

  lemma {:induction false} SubOfItself<T>(s: seq<T>)
    ensures IsSub(s, s)
  {
    if s != [] {
      SubOfItself(s[1..]);
      assert PicksFirst(s, s, 0);
    }
  }

  lemma SubMembers<T>(s: seq<T>, list: seq<T>)
    requires IsSub(s, list)
    ensures |s| <= |list|
    ensures forall x <- s :: x in list
    ensures (set x <- s) <= set x <- list
  {
    if s != [] {
      var j :| 0 <= j < |list| && PicksFirst(s, list, j);
      SubMembers(s[1..], list[j + 1..]);
      forall x | x in s ensures x in list {
        assert x == s[0] || x in s[1..];
      }
    }
  }

  /** A selection from the rest of a list is one from the list, with or without its first entry. */
  lemma SubAmongMore<T>(s: seq<T>, list: seq<T>)
    requires list != [] && IsSub(s, list[1..])
    ensures IsSub(s, list) && IsSub([list[0]] + s, list)
  {
    assert ([list[0]] + s)[1..] == s;
    assert PicksFirst([list[0]] + s, list, 0);
    if s != [] {
      var j :| 0 <= j < |list[1..]| && PicksFirst(s, list[1..], j);
      assert list[1..][j + 1..] == list[j + 2..];
      assert PicksFirst(s, list, j + 1);
    }
  }

  /** No two entries have the same key. */
  ghost predicate DistinctBy<T, K>(s: seq<T>, key: T -> K) {
    forall i, j :: 0 <= i < j < |s| ==> key(s[i]) != key(s[j])
  }

  lemma DistinctCons<T, K>(x: T, s: seq<T>, key: T -> K)
    requires DistinctBy(s, key) && forall y <- s :: key(y) != key(x)
    ensures DistinctBy([x] + s, key)
  {
    var r := [x] + s;
    forall i, j | 0 <= i < j < |r| ensures key(r[i]) != key(r[j]) {
      assert r[j] == s[j - 1] && r[j] in s;
    }
  }

  lemma SubKeepsDistinct<T, K>(s: seq<T>, list: seq<T>, key: T -> K)
    requires IsSub(s, list) && DistinctBy(list, key)
    ensures DistinctBy(s, key)
  {
    if s != [] {
      var k :| 0 <= k < |list| && PicksFirst(s, list, k);
      var rest := list[k + 1..];
      SubKeepsDistinct(s[1..], rest, key);
      SubMembers(s[1..], rest);
      forall i, j | 0 <= i < j < |s| ensures key(s[i]) != key(s[j]) {
        assert s[j] == s[1..][j - 1];
        if i == 0 {
          assert s[1..][j - 1] in rest;
        } else {
          assert s[i] == s[1..][i - 1];
        }
      }
    }
  }

  /** A group made of the entries already chosen and of some candidates, in the candidates' order. */
  ghost predicate Extends<T>(chosen: seq<T>, candidates: seq<T>, group: seq<T>) {
    && chosen <= group
    && IsSub(group[|chosen|..], candidates)
  }

  /** Every proper extension continues with some candidate `i` and then with later candidates. */
  lemma ExtendsByFirst<T>(chosen: seq<T>, candidates: seq<T>, group: seq<T>) returns (i: nat)
    requires Extends(chosen, candidates, group) && group != chosen
    ensures i < |candidates| && Extends(chosen + [candidates[i]], candidates[i + 1..], group)
  {
    var s := group[|chosen|..];
    assert IsSub(s, candidates) && s != [] by { assert group == chosen + s; }
    i :| 0 <= i < |candidates| && PicksFirst(s, candidates, i);
    assert group[|chosen| + 1..] == s[1..];
    assert group[..|chosen| + 1] == chosen + [s[0]];
  }

  lemma ExtendsThroughCandidate<T>(chosen: seq<T>, candidates: seq<T>, i: nat, group: seq<T>)
    requires i < |candidates|
    requires Extends(chosen + [candidates[i]], candidates[i + 1..], group)
    ensures Extends(chosen, candidates, group) && |group| > |chosen|
  {
    var s := group[|chosen|..];
    assert s[0] == (chosen + [candidates[i]])[|chosen|];
    assert s[1..] == group[|chosen| + 1..];
    assert PicksFirst(s, candidates, i);
    assert chosen == (chosen + [candidates[i]])[..|chosen|] <= group;
  }

  lemma {:induction false} SubWithLast<T>(s: seq<T>, list: seq<T>)
    requires list != [] && IsSub(s, list[..|list| - 1])
    ensures IsSub(s + [list[|list| - 1]], list)
    decreases |s|
  {
    var front, last := list[..|list| - 1], list[|list| - 1];
    assert IsSub(s, front);
    if s == [] {
      assert s + [last] == [last];
      assert PicksFirst([last], list, |list| - 1);
    } else {
      var j :| 0 <= j < |front| && PicksFirst(s, front, j);
      var rest := list[j + 1..];
      assert front[j + 1..] == rest[..|rest| - 1];
      SubWithLast(s[1..], rest);
      assert (s + [last])[1..] == s[1..] + [last];
      assert PicksFirst(s + [last], list, j);
    }
  }

  lemma ExtendsByLast<T>(chosen: seq<T>, candidates: seq<T>, group: seq<T>)
    requires candidates != [] && Extends(chosen, candidates[..|candidates| - 1], group)
    ensures Extends(chosen, candidates, group + [candidates[|candidates| - 1]])
  {
    SubWithLast(group[|chosen|..], candidates);
    assert (group + [candidates[|candidates| - 1]])[|chosen|..] == group[|chosen|..] + [candidates[|candidates| - 1]];
  }
}
