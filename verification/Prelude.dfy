/** Option, Result and the few facts about sequences that several modules share. */
module Prelude {

  datatype Option<+T> = None | Some(value: T)

  datatype Result<+T, +E> = Ok(value: T) | Err(error: E)

  ghost predicate Distinct<T>(s: seq<T>) {
    forall i, j :: 0 <= i < j < |s| ==> s[i] != s[j]
  }

  // The elements of a sequence without repetitions are as many as its length.
  lemma {:induction false} DistinctCardinality<T>(s: seq<T>)
    requires Distinct(s)
    ensures |set x | x in s| == |s|
  {
    if s == [] {
      assert (set x | x in s) == {};
    } else {
      var init := s[..|s| - 1];
      DistinctCardinality(init);
      assert (set x | x in s) == (set x | x in init) + {s[|s| - 1]};
    }
  }

  lemma {:induction false} SubsetCardinality<T>(a: set<T>, b: set<T>)
    requires a <= b
    ensures |a| <= |b|
    ensures |a| == |b| ==> a == b
  {
    assert b == a + (b - a);
  }

  // A sequence longer than the set its elements come from repeats one of them.
  lemma {:induction false} Pigeonhole<T>(s: seq<T>, pool: set<T>)
    requires forall x :: x in s ==> x in pool
    requires |s| > |pool|
    ensures exists i, j :: 0 <= i < j < |s| && s[i] == s[j]
  {
    if forall i, j :: 0 <= i < j < |s| ==> s[i] != s[j] {
      DistinctCardinality(s);
      SubsetCardinality((set x | x in s), pool);
    }
  }

  function Map<T, U>(s: seq<T>, f: T -> U): seq<U> {
    seq(|s|, i requires 0 <= i < |s| => f(s[i]))
  }

  function RemoveAt<T>(s: seq<T>, k: nat): seq<T>
    requires k < |s|
  {
    s[..k] + s[k + 1..]
  }

  lemma {:induction false} RemoveAtMultiset<T>(s: seq<T>, k: nat)
    requires k < |s|
    ensures multiset(s) == multiset(RemoveAt(s, k)) + multiset{s[k]}
  {
    assert s == s[..k] + [s[k]] + s[k + 1..];
  }

  lemma {:induction false} MapRemoveAt<T, U>(s: seq<T>, k: nat, f: T -> U)
    requires k < |s|
    ensures Map(RemoveAt(s, k), f) == RemoveAt(Map(s, f), k)
  {
  }

  lemma {:induction false} MapPermutation<T, U>(a: seq<T>, b: seq<T>, f: T -> U)
    requires multiset(a) == multiset(b)
    ensures multiset(Map(a, f)) == multiset(Map(b, f))
    decreases |a|
  {
    assert |multiset(a)| == |a| && |multiset(b)| == |b|;
    if a != [] {
      assert a[0] in multiset(b);
      var k :| 0 <= k < |b| && b[k] == a[0];
      RemoveAtMultiset(a, 0);
      RemoveAtMultiset(b, k);
      assert multiset(RemoveAt(a, 0)) == multiset(a) - multiset{a[0]} == multiset(RemoveAt(b, k));
      MapPermutation(RemoveAt(a, 0), RemoveAt(b, k), f);
      MapRemoveAt(a, 0, f);
      MapRemoveAt(b, k, f);
      RemoveAtMultiset(Map(a, f), 0);
      RemoveAtMultiset(Map(b, f), k);
    }
  }

  ghost predicate Ascends(s: seq<int>) {
    forall i, j :: 0 <= i < j < |s| ==> s[i] <= s[j]
  }

  lemma {:induction false} LeastFirst(a: seq<int>, b: seq<int>)
    requires multiset(a) == multiset(b) && Ascends(a) && Ascends(b) && a != [] && b != []
    ensures a[0] == b[0]
  {
    assert a[0] in multiset(b) && b[0] in multiset(a);
    var i :| 0 <= i < |b| && b[i] == a[0];
    var j :| 0 <= j < |a| && a[j] == b[0];
  }

  // Sorted sequences of the same numbers are the same.
  lemma {:induction false} SortedUnique(a: seq<int>, b: seq<int>)
    requires multiset(a) == multiset(b) && Ascends(a) && Ascends(b)
    ensures a == b
  {
    assert |multiset(a)| == |a| && |multiset(b)| == |b|;
    if a != [] {
      LeastFirst(a, b);
      RestOfMultiset(a);
      RestOfMultiset(b);
      SortedUnique(a[1..], b[1..]);
      assert a == [a[0]] + a[1..] && b == [b[0]] + b[1..];
    }
  }

  lemma {:induction false} RestOfMultiset(a: seq<int>)
    requires a != []
    ensures multiset(a[1..]) == multiset(a) - multiset{a[0]}
  {
    assert a == [a[0]] + a[1..];
  }

  // Python's text[start:end] and text[start:], where a negative index counts from the end.
  function Clamp(i: int, n: nat): nat {
    if i < 0 then (if n + i < 0 then 0 else n + i) else if i > n then n else i
  }

  function Slice(text: string, start: int, end: int): string {
    var lo, hi := Clamp(start, |text|), Clamp(end, |text|);
    if lo <= hi then text[lo..hi] else ""
  }

  function Tail(text: string, start: int): string {
    text[Clamp(start, |text|)..]
  }
}
