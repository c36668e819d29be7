/** Ordering a query result by an integer key, as the repositories' `ORDER BY`
    clauses do (`findTop20ByOrderByUseCountDesc`,
    `findByPostIdOrderByCreatedAtAsc`, `...OrderByPositionAsc`). The order of
    rows with equal keys is left to the database, so only sortedness and
    "same rows" are promised. */
module Sorting {

  predicate SortedBy<T>(s: seq<T>, key: T -> int)
  {
    forall i, j :: 0 <= i < j < |s| ==> key(s[i]) <= key(s[j])
  }

  /** Insert x before the first row with a key not below its own. */
  function Insert<T>(x: T, s: seq<T>, key: T -> int): seq<T>
  {
    if s == [] || key(x) <= key(s[0]) then [x] + s
    else [s[0]] + Insert(x, s[1..], key)
  }

  /** A row no greater than the head of a sorted sequence can go in front. */
  lemma ConsSorted<T>(y: T, s: seq<T>, key: T -> int)
    requires SortedBy(s, key) && (s == [] || key(y) <= key(s[0]))
    ensures SortedBy([y] + s, key)
  {
    var r := [y] + s;
    forall i, j | 0 <= i < j < |r| ensures key(r[i]) <= key(r[j]) {
      if i == 0 {
        assert r[j] == s[j - 1];
      } else {
        assert r[i] == s[i - 1] && r[j] == s[j - 1];
      }
    }
  }

  /** Inserting into a sorted sequence keeps it sorted and adds exactly
      the one row. */
  lemma {:induction false} InsertSpec<T>(x: T, s: seq<T>, key: T -> int)
    requires SortedBy(s, key)
    ensures SortedBy(Insert(x, s, key), key)
    ensures multiset(Insert(x, s, key)) == multiset(s) + multiset{x}
    ensures |Insert(x, s, key)| == |s| + 1
    ensures Insert(x, s, key)[0] == x || (s != [] && Insert(x, s, key)[0] == s[0])
  {
    if s == [] || key(x) <= key(s[0]) {
      ConsSorted(x, s, key);
    } else {
      var tail := Insert(x, s[1..], key);
      assert SortedBy(s[1..], key);
      InsertSpec(x, s[1..], key);
      assert s == [s[0]] + s[1..];
      ConsSorted(s[0], tail, key);
    }
  }

  /** An insertion sort. */
  function SortBy<T>(s: seq<T>, key: T -> int): seq<T>
  {
    if s == [] then [] else Insert(s[0], SortBy(s[1..], key), key)
  }

  /** Sorting gives the same rows, in key order. */
  lemma {:induction false} SortBySpec<T>(s: seq<T>, key: T -> int)
    ensures SortedBy(SortBy(s, key), key)
    ensures multiset(SortBy(s, key)) == multiset(s)
    ensures |SortBy(s, key)| == |s|
  {
    if s != [] {
      SortBySpec(s[1..], key);
      InsertSpec(s[0], SortBy(s[1..], key), key);
      assert s == [s[0]] + s[1..];
    }
  }

  /** The last row of a non-empty sorted result carries the largest key. */
  lemma LastIsMax<T>(s: seq<T>, key: T -> int)
    requires s != []
    ensures var r := SortBy(s, key);
      |r| == |s| && r[|r| - 1] in s && forall x :: x in s ==> key(x) <= key(r[|r| - 1])
  {
    var r := SortBy(s, key);
    SortBySpec(s, key);
    var last := r[|r| - 1];
    assert last in multiset(s) by {
      assert last in multiset(r);
    }
    forall x | x in s ensures key(x) <= key(last) {
      assert x in multiset(r) by {
        assert x in multiset(s);
      }
      var m :| 0 <= m < |r| && r[m] == x;
      if m < |r| - 1 {
        assert key(r[m]) <= key(r[|r| - 1]);
      }
    }
  }
}
