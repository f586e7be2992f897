/** Frequency counting into a plain JavaScript object:
    `table[k] = (table[k] || 0) + 1`. Such an object remembers the order in
    which its keys were first set (`Object.keys`, `Object.entries`), so it is
    modelled as a sequence of entries in that order. */
module Counting {

  datatype Entry = Entry(key: string, count: nat)

  type Table = seq<Entry>

  /** The keys of a table, in insertion order. */
  function Keys(t: Table): (r: seq<string>)
    ensures |r| == |t|
    ensures forall i :: 0 <= i < |t| ==> r[i] == t[i].key
  {
    if t == [] then [] else Keys(t[..|t| - 1]) + [t[|t| - 1].key]
  }

  /** No key appears twice. */
  predicate DistinctKeys(t: Table) {
    forall i, j :: 0 <= i < j < |t| ==> t[i].key != t[j].key
  }

  /** Where key `k` sits in the table, or -1 when it is not there. */
  function IndexOf(t: Table, k: string): (i: int)
    ensures -1 <= i < |t|
    ensures i >= 0 ==> t[i].key == k
    ensures i == -1 ==> forall j :: 0 <= j < |t| ==> t[j].key != k
  {
    if t == [] then -1
    else if t[|t| - 1].key == k then |t| - 1
    else IndexOf(t[..|t| - 1], k)
  }

  /** `table[k] || 0`. */
  function Get(t: Table, k: string): nat {
    var i := IndexOf(t, k);
    if i < 0 then 0 else t[i].count
  }

  /** In a table with distinct keys, looking up the key of entry `j` finds entry `j`. */
  lemma GetAt(t: Table, j: int)
    requires DistinctKeys(t) && 0 <= j < |t|
    ensures Get(t, t[j].key) == t[j].count
  {
  }

  /** `table[k] = (table[k] || 0) + 1`: bump an existing key in place, or add
      the key at the end with count 1. */
  function Bump(t: Table, k: string): (r: Table)
    requires DistinctKeys(t)
    ensures DistinctKeys(r)
    ensures k in Keys(t) ==> Keys(r) == Keys(t)
    ensures k !in Keys(t) ==> Keys(r) == Keys(t) + [k]
  {
    var i := IndexOf(t, k);
    if i < 0 then t + [Entry(k, 1)] else t[i := Entry(k, t[i].count + 1)]
  }

  /** Bumping adds one to the bumped key and changes no other count. */
  lemma BumpGet(t: Table, k: string, k': string)
    requires DistinctKeys(t)
    ensures Get(Bump(t, k), k') == Get(t, k') + (if k' == k then 1 else 0)
  {
    var r := Bump(t, k);
    var i, j := IndexOf(t, k), IndexOf(t, k');
    if k' == k {
      if i < 0 {
        GetAt(r, |t|);
      } else {
        GetAt(r, i);
        GetAt(t, i);
      }
    } else if j >= 0 {
      assert r[j] == t[j];
      GetAt(r, j);
      GetAt(t, j);
    } else {
      forall m | 0 <= m < |r| ensures r[m].key != k' {
        if m < |t| {
          assert r[m].key == t[m].key;
        }
      }
      Absent(r, k');
    }
  }

  /** A key no entry holds reads as 0. */
  lemma Absent(t: Table, k: string)
    requires forall m :: 0 <= m < |t| ==> t[m].key != k
    ensures Get(t, k) == 0
  {
  }

  /** Count every element of `s`, in order, into a fresh table. */
  function Tally(s: seq<string>): (r: Table)
    ensures DistinctKeys(r)
  {
    if s == [] then [] else Bump(Tally(s[..|s| - 1]), s[|s| - 1])
  }

  /** Counting one more element bumps it. */
  lemma TallySnoc(s: seq<string>, x: string)
    ensures Tally(s + [x]) == Bump(Tally(s), x)
  {
    assert (s + [x])[..|s|] == s;
  }

  /** Each key's count is the number of times it occurs in `s`. */
  lemma {:induction false} TallyCounts(s: seq<string>, k: string)
    ensures Get(Tally(s), k) == multiset(s)[k]
  {
    if s != [] {
      var init := s[..|s| - 1];
      var x := s[|s| - 1];
      TallyCounts(init, k);
      BumpGet(Tally(init), x, k);
      MultisetSnoc(s, k);
    }
  }

  /** The last element of a non-empty sequence adds one to its own count. */
  lemma MultisetSnoc<T>(s: seq<T>, k: T)
    requires s != []
    ensures multiset(s)[k] == multiset(s[..|s| - 1])[k] + (if k == s[|s| - 1] then 1 else 0)
  {
    assert s == s[..|s| - 1] + [s[|s| - 1]];
  }

  /** The keys are exactly the distinct elements of `s`. */
  lemma {:induction false} TallyKeys(s: seq<string>, k: string)
    ensures k in Keys(Tally(s)) <==> k in s
  {
    if s != [] {
      var init := s[..|s| - 1];
      var x := s[|s| - 1];
      TallyKeys(init, k);
      KeysBump(Tally(init), x, k);
      InSnoc(s, k);
    }
  }

  /** An element of a non-empty sequence is in its front part or is its last. */
  lemma InSnoc(s: seq<string>, k: string)
    requires s != []
    ensures k in s <==> k in s[..|s| - 1] || k == s[|s| - 1]
  {
    assert s == s[..|s| - 1] + [s[|s| - 1]];
  }

  /** After a bump the keys are the old ones and the bumped one. */
  lemma KeysBump(t: Table, x: string, k: string)
    requires DistinctKeys(t)
    ensures k in Keys(Bump(t, x)) <==> k in Keys(t) || k == x
  {
    if x !in Keys(t) {
      assert k in Keys(t) + [x] <==> k in Keys(t) || k == x;
    }
  }

  /** The sum of all counts of a table. */
  function Total(t: Table): nat {
    if t == [] then 0 else Total(t[..|t| - 1]) + t[|t| - 1].count
  }

  lemma BumpTotal(t: Table, k: string)
    requires DistinctKeys(t)
    ensures Total(Bump(t, k)) == Total(t) + 1
  {
    var i := IndexOf(t, k);
    if i < 0 {
      var r := t + [Entry(k, 1)];
      assert Bump(t, k) == r;
      assert r[..|r| - 1] == t;
      assert Total(r) == Total(t) + 1;
    } else {
      assert Bump(t, k) == t[i := Entry(t[i].key, t[i].count + 1)];
      TotalUpdate(t, i, t[i].count + 1);
    }
  }

  /** Changing one count changes the total by the difference. */
  lemma {:induction false} TotalUpdate(t: Table, i: int, c: nat)
    requires 0 <= i < |t|
    ensures Total(t[i := Entry(t[i].key, c)]) == Total(t) - t[i].count + c
    decreases |t|
  {
    var u := t[i := Entry(t[i].key, c)];
    if i < |t| - 1 {
      assert u[..|u| - 1] == t[..|t| - 1][i := Entry(t[i].key, c)];
      TotalUpdate(t[..|t| - 1], i, c);
    } else {
      assert u[..|u| - 1] == t[..|t| - 1];
    }
  }

  /** The counts sum to the number of elements counted. */
  lemma {:induction false} TallyTotal(s: seq<string>)
    ensures Total(Tally(s)) == |s|
  {
    if s != [] {
      TallyTotal(s[..|s| - 1]);
      BumpTotal(Tally(s[..|s| - 1]), s[|s| - 1]);
    }
  }

  /** The number of keys is the number of distinct elements. */
  lemma {:induction false} TallySize(s: seq<string>)
    ensures |Tally(s)| == |set x | x in s|
  {
    var t := Tally(s);
    var ks := set x | x in s;
    var held := set i | 0 <= i < |t| :: t[i].key;
    forall x | x in held ensures x in ks {
      var i :| 0 <= i < |t| && t[i].key == x;
      assert Keys(t)[i] == x;
      TallyKeys(s, x);
    }
    forall x | x in ks ensures x in held {
      TallyKeys(s, x);
      var i :| 0 <= i < |t| && Keys(t)[i] == x;
      assert t[i].key == x;
    }
    assert held == ks;
    DistinctSize(t);
  }

  /** A table with distinct keys has as many entries as keys. */
  lemma {:induction false} DistinctSize(t: Table)
    requires DistinctKeys(t)
    ensures |set i | 0 <= i < |t| :: t[i].key| == |t|
  {
    if t != [] {
      var init := t[..|t| - 1];
      DistinctSize(init);
      var a := set i | 0 <= i < |init| :: init[i].key;
      var b := set i | 0 <= i < |t| :: t[i].key;
      assert b == a + {t[|t| - 1].key};
      assert t[|t| - 1].key !in a;
    }
  }
}
