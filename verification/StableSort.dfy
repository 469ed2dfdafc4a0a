/** A stable sort by a key, as the runtime's list sort does it. */
module StableSort {
  import opened Prelude

  // After all elements whose key is not larger.
  function Insert<T>(sorted: seq<T>, x: T, key: T -> int): seq<T> {
    if sorted == [] then [x]
    else
      var init, last := sorted[..|sorted| - 1], sorted[|sorted| - 1];
      if key(x) < key(last) then Insert(init, x, key) + [last] else sorted + [x]
  }

  function SortBy<T>(s: seq<T>, key: T -> int): seq<T> {
    if s == [] then [] else Insert(SortBy(s[..|s| - 1], key), s[|s| - 1], key)
  }

  ghost predicate SortedBy<T>(s: seq<T>, key: T -> int) {
    forall i, j :: 0 <= i < j < |s| ==> key(s[i]) <= key(s[j])
  }

  lemma {:induction false} InsertMultiset<T>(sorted: seq<T>, x: T, key: T -> int)
    ensures multiset(Insert(sorted, x, key)) == multiset(sorted) + multiset{x}
  {
    if sorted != [] {
      var init, last := sorted[..|sorted| - 1], sorted[|sorted| - 1];
      assert sorted == init + [last];
      InsertMultiset(init, x, key);
    }
  }

  lemma {:induction false} InsertSorts<T>(sorted: seq<T>, x: T, key: T -> int)
    requires SortedBy(sorted, key)
    ensures SortedBy(Insert(sorted, x, key), key)
  {
    if sorted != [] {
      var init, last := sorted[..|sorted| - 1], sorted[|sorted| - 1];
      if key(x) < key(last) {
        InsertSorts(init, x, key);
        InsertMultiset(init, x, key);
        BoundedSnoc(Insert(init, x, key), init, x, last, key);
      }
    }
  }

  lemma {:induction false} BoundedSnoc<T>(s: seq<T>, init: seq<T>, x: T, last: T, key: T -> int)
    requires SortedBy(s, key) && multiset(s) == multiset(init) + multiset{x}
    requires SortedBy(init + [last], key) && key(x) < key(last)
    ensures SortedBy(s + [last], key)
  {
    forall i | 0 <= i < |s| ensures key(s[i]) <= key(last) {
      assert s[i] in multiset(s);
      if s[i] != x {
        assert s[i] in multiset(init);
        var j :| 0 <= j < |init| && init[j] == s[i];
        assert (init + [last])[j] == s[i] && (init + [last])[|init|] == last;
      }
    }
  }

  /** Sorting orders by the key and keeps the elements with their multiplicities. */
  lemma {:induction false} SortBySorts<T>(s: seq<T>, key: T -> int)
    ensures SortedBy(SortBy(s, key), key)
    ensures multiset(SortBy(s, key)) == multiset(s)
    ensures |SortBy(s, key)| == |s|
  {
    if s != [] {
      var init, last := s[..|s| - 1], s[|s| - 1];
      assert s == init + [last];
      SortBySorts(init, key);
      InsertSorts(SortBy(init, key), last, key);
      InsertMultiset(SortBy(init, key), last, key);
    }
    assert |multiset(SortBy(s, key))| == |SortBy(s, key)| && |multiset(s)| == |s|;
  }

  // The elements with one key, in their order.
  function WithKey<T>(s: seq<T>, key: T -> int, k: int): seq<T> {
    if s == [] then []
    else WithKey(s[..|s| - 1], key, k) + (if key(s[|s| - 1]) == k then [s[|s| - 1]] else [])
  }

  lemma {:induction false} InsertKeepsOrder<T>(sorted: seq<T>, x: T, key: T -> int, k: int)
    ensures WithKey(Insert(sorted, x, key), key, k) == WithKey(sorted, key, k) + (if key(x) == k then [x] else [])
  {
    if sorted == [] {
      assert [x][..0] == [];
    } else {
      var init, last := sorted[..|sorted| - 1], sorted[|sorted| - 1];
      if key(x) < key(last) {
        InsertKeepsOrder(init, x, key, k);
        assert (Insert(init, x, key) + [last])[..|Insert(init, x, key)|] == Insert(init, x, key);
      } else {
        assert (sorted + [x])[..|sorted|] == sorted;
      }
    }
  }

  /** Elements with the same key keep their order. */
  lemma {:induction false} SortByIsStable<T>(s: seq<T>, key: T -> int, k: int)
    ensures WithKey(SortBy(s, key), key, k) == WithKey(s, key, k)
  {
    if s != [] {
      SortByIsStable(s[..|s| - 1], key, k);
      InsertKeepsOrder(SortBy(s[..|s| - 1], key), s[|s| - 1], key, k);
    }
  }

  lemma {:induction false} DistinctCounts<T>(s: seq<T>, x: T)
    requires Distinct(s)
    ensures multiset(s)[x] <= 1
  {
    if s != [] {
      var init, last := s[..|s| - 1], s[|s| - 1];
      assert s == init + [last];
      DistinctCounts(init, x);
      if x == last {
        assert x !in init;
      }
    }
  }

  lemma {:induction false} RepeatCounts<T>(s: seq<T>, i: nat, j: nat)
    requires i < j < |s| && s[i] == s[j]
    ensures multiset(s)[s[i]] >= 2
  {
    assert s == s[..j] + ([s[j]] + s[j + 1..]);
    assert s[..j][i] == s[i];
    assert multiset(s) == multiset(s[..j]) + multiset([s[j]]) + multiset(s[j + 1..]);
    assert s[i] in multiset(s[..j]);
  }

  lemma {:induction false} PermutedDistinct<T>(a: seq<T>, b: seq<T>)
    requires Distinct(a) && multiset(a) == multiset(b)
    ensures Distinct(b)
  {
    forall i, j | 0 <= i < j < |b| ensures b[i] != b[j] {
      if b[i] == b[j] {
        RepeatCounts(b, i, j);
        DistinctCounts(a, b[i]);
        assert false;
      }
    }
  }
}
