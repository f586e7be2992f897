/** A stable sort by an integer key. The sources sort with `Array.prototype.sort`
    and a numeric comparator; the language guarantees that sort to be stable,
    so the result is determined: ascending by key, and elements with equal keys
    in their original order. Insertion sort produces exactly that order. */
module Sorting {

  /** The keys of `s` never decrease. */
  ghost predicate SortedBy<T>(s: seq<T>, key: T -> int) {
    forall i, j :: 0 <= i < j < |s| ==> key(s[i]) <= key(s[j])
  }

  /** The elements of `s` whose key is `v`, in their order in `s`. */
  function WithKey<T>(s: seq<T>, key: T -> int, v: int): (r: seq<T>)
    ensures |r| <= |s|
  {
    if s == [] then []
    else WithKey(s[..|s| - 1], key, v) + (if key(s[|s| - 1]) == v then [s[|s| - 1]] else [])
  }

  /** Put `x` after the trailing elements of `s` whose keys exceed `key(x)`
      are moved past it: `x` lands after the last element with key at most `key(x)`. */
  function Insert<T>(s: seq<T>, x: T, key: T -> int): (r: seq<T>)
    ensures multiset(r) == multiset(s) + multiset{x}
    ensures |r| == |s| + 1
  {
    if s == [] || key(s[|s| - 1]) <= key(x) then s + [x]
    else
      assert s == s[..|s| - 1] + [s[|s| - 1]];
      Insert(s[..|s| - 1], x, key) + [s[|s| - 1]]
  }

  /** Inserting into a sorted sequence keeps it sorted. */
  lemma {:induction false} InsertSorted<T>(s: seq<T>, x: T, key: T -> int)
    requires SortedBy(s, key)
    ensures SortedBy(Insert(s, x, key), key)
    decreases |s|
  {
    if s != [] && key(s[|s| - 1]) > key(x) {
      var init := s[..|s| - 1];
      var last := s[|s| - 1];
      assert SortedBy(init, key);
      InsertSorted(init, x, key);
      var r' := Insert(init, x, key);
      forall y | y in r' ensures key(y) <= key(last) {
        assert y in multiset(r');
        if y != x {
          assert y in multiset(init);
          var i :| 0 <= i < |init| && init[i] == y;
          assert s[i] == y;
        }
      }
      assert Insert(s, x, key) == r' + [last];
    }
  }

  /** The stable ascending sort of `s` by `key`. */
  function SortBy<T>(s: seq<T>, key: T -> int): (r: seq<T>)
    ensures SortedBy(r, key)
    ensures multiset(r) == multiset(s)
    ensures |r| == |s|
  {
    if s == [] then []
    else
      assert s == s[..|s| - 1] + [s[|s| - 1]];
      var r := SortBy(s[..|s| - 1], key);
      assert SortedBy(Insert(r, s[|s| - 1], key), key) by {
        InsertSorted(r, s[|s| - 1], key);
      }
      Insert(r, s[|s| - 1], key)
  }

  /** Appending one element extends the `v`-keyed elements by it when its key is `v`. */
  lemma WithKeySnoc<T>(a: seq<T>, y: T, key: T -> int, v: int)
    ensures WithKey(a + [y], key, v) == WithKey(a, key, v) + (if key(y) == v then [y] else [])
  {
    assert (a + [y])[..|a + [y]| - 1] == a;
  }

  /** Inserting an element with key `v` appends it to the elements with key `v`. */
  lemma {:induction false} InsertWithKey<T>(s: seq<T>, x: T, key: T -> int, v: int)
    ensures WithKey(Insert(s, x, key), key, v)
         == WithKey(s, key, v) + (if key(x) == v then [x] else [])
    decreases |s|
  {
    if s == [] || key(s[|s| - 1]) <= key(x) {
      WithKeySnoc(s, x, key, v);
    } else {
      var init := s[..|s| - 1];
      var last := s[|s| - 1];
      var r' := Insert(init, x, key);
      assert Insert(s, x, key) == r' + [last];
      assert s == init + [last];
      InsertWithKey(init, x, key, v);
      WithKeySnoc(r', last, key, v);
      WithKeySnoc(init, last, key, v);
      // last's key is above key(x), so at most one of the two has key v
      if key(x) == v {
        assert key(last) != v;
      }
    }
  }

  /** Stability: for every key value, the elements with that key keep their
      relative order. */
  lemma {:induction false} SortByStable<T>(s: seq<T>, key: T -> int, v: int)
    ensures WithKey(SortBy(s, key), key, v) == WithKey(s, key, v)
    decreases |s|
  {
    if s != [] {
      var init := s[..|s| - 1];
      SortByStable(init, key, v);
      InsertWithKey(SortBy(init, key), s[|s| - 1], key, v);
    }
  }

  /** An already sorted sequence is left as it is. */
  lemma {:induction false} SortBySorted<T>(s: seq<T>, key: T -> int)
    requires SortedBy(s, key)
    ensures SortBy(s, key) == s
    decreases |s|
  {
    if s != [] {
      var init := s[..|s| - 1];
      var last := s[|s| - 1];
      assert SortedBy(init, key);
      SortBySorted(init, key);
      assert SortBy(s, key) == Insert(init, last, key);
      if init != [] {
        assert key(s[|init| - 1]) <= key(last);
      }
      assert s == init + [last];
    }
  }

  /** No element occurs twice. */
  predicate Distinct<T(==)>(s: seq<T>) {
    forall i, j :: 0 <= i < j < |s| ==> s[i] != s[j]
  }

  /** An element found at two positions occurs at least twice. */
  lemma TwoIndices<T>(s: seq<T>, i: nat, j: nat)
    requires i < j < |s| && s[i] == s[j]
    ensures multiset(s)[s[i]] >= 2
  {
    assert s == s[..i] + [s[i]] + s[i + 1..j] + [s[j]] + s[j + 1..];
  }

  /** An element of a sequence has a place in every permutation of it. */
  lemma IndexOfPermuted<T>(a: seq<T>, b: seq<T>, x: T) returns (p: nat)
    requires multiset(a) == multiset(b) && x in a
    ensures p < |b| && b[p] == x
  {
    assert x in multiset(b);
    p :| p < |b| && b[p] == x;
  }

  /** In a sequence without repeats every element occurs once. */
  lemma {:induction false} DistinctOnce<T>(s: seq<T>, x: T)
    requires Distinct(s)
    ensures multiset(s)[x] <= 1
  {
    if s != [] {
      var n := |s| - 1;
      DistinctOnce(s[..n], x);
      assert s == s[..n] + [s[n]];
      if s[n] == x {
        assert x !in s[..n];
      }
    }
  }

  /** Reordering a sequence without repeats (sorting it, say) adds none. */
  lemma DistinctPermutation<T>(a: seq<T>, b: seq<T>)
    requires Distinct(a) && multiset(a) == multiset(b)
    ensures Distinct(b)
  {
    forall i, j | 0 <= i < j < |b| ensures b[i] != b[j] {
      if b[i] == b[j] {
        TwoIndices(b, i, j);
        DistinctOnce(a, b[i]);
        assert false;
      }
    }
  }
}
