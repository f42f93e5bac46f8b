/**
 * The stripped-down `Counter` of markov.py: a dictionary of integer counts in
 * which a missing key reads as 0, together with a running total that every
 * assignment adjusts by the difference between the new and the old count.
 *
 * The dictionary is modelled as its entries in iteration order, a sequence of
 * (key, count) pairs with pairwise distinct keys; a key assigned for the first
 * time joins at the end of that order.
 */
module Counters {

  /** The entries of a counter in iteration order. */
  type Entries<K> = seq<(K, int)>

  /** No key is stored twice: the entries form a dictionary. */
  predicate DistinctKeys<K(==)>(e: Entries<K>) {
    forall i, j | 0 <= i < j < |e| :: e[i].0 != e[j].0
  }

  /** Every stored count is positive. */
  predicate Positive<K>(e: Entries<K>) {
    forall i | 0 <= i < |e| :: e[i].1 > 0
  }

  /** `k` is stored. */
  predicate HasKey<K(==)>(e: Entries<K>, k: K) {
    exists i | 0 <= i < |e| :: e[i].0 == k
  }

  /** `k` is stored with a positive count. */
  predicate Holds<K(==)>(e: Entries<K>, k: K) {
    exists i | 0 <= i < |e| :: e[i].0 == k && e[i].1 > 0
  }

  /** `c[k]`: the stored count of `k`, or 0 (`__missing__`) when it is absent. */
  function Lookup<K(==)>(e: Entries<K>, k: K): int {
    if e == [] then 0
    else if e[0].0 == k then e[0].1
    else Lookup(e[1..], k)
  }

  /** The sum of all stored counts. */
  function Sum<K>(e: Entries<K>): int {
    if e == [] then 0 else e[0].1 + Sum(e[1..])
  }

  /** The dictionary store of `c[k] = v`: overwrite in place, or append a new key. */
  function SetEntry<K(==)>(e: Entries<K>, k: K, v: int): Entries<K> {
    if e == [] then [(k, v)]
    else if e[0].0 == k then [(k, v)] + e[1..]
    else [e[0]] + SetEntry(e[1..], k, v)
  }

  lemma {:induction false} LookupMissing<K>(e: Entries<K>, k: K)
    ensures !HasKey(e, k) ==> Lookup(e, k) == 0
    ensures HasKey(e, k) && DistinctKeys(e) ==> exists i | 0 <= i < |e| :: e[i] == (k, Lookup(e, k))
  {
    if e != [] {
      LookupMissing(e[1..], k);
      if e[0].0 != k {
        if HasKey(e, k) {
          var i :| 0 <= i < |e| && e[i].0 == k;
          assert e[1..][i - 1].0 == k;
        }
        if HasKey(e[1..], k) && DistinctKeys(e) {
          assert DistinctKeys(e[1..]) by {
            forall i, j | 0 <= i < j < |e[1..]| ensures e[1..][i].0 != e[1..][j].0 {
              assert e[1..][i] == e[i + 1] && e[1..][j] == e[j + 1];
            }
          }
          var i :| 0 <= i < |e[1..]| && e[1..][i] == (k, Lookup(e[1..], k));
          assert e[i + 1] == (k, Lookup(e, k));
        }
      } else {
        assert e[0] == (k, Lookup(e, k));
      }
    }
  }

  /** In a dictionary, looking up a stored key yields the count stored with it. */
  lemma {:induction false} LookupAt<K>(e: Entries<K>, i: nat)
    requires DistinctKeys(e) && i < |e|
    ensures Lookup(e, e[i].0) == e[i].1
  {
    if i > 0 {
      assert DistinctKeys(e[1..]) by {
        forall a, b | 0 <= a < b < |e[1..]| ensures e[1..][a].0 != e[1..][b].0 {
          assert e[1..][a] == e[a + 1] && e[1..][b] == e[b + 1];
        }
      }
      assert e[0].0 != e[i].0;
      LookupAt(e[1..], i - 1);
    }
  }

  /** With only positive counts, no lookup is negative. */
  lemma {:induction false} LookupPositive<K>(e: Entries<K>, k: K)
    requires Positive(e)
    ensures Lookup(e, k) >= 0
    ensures Holds(e, k) <==> Lookup(e, k) > 0
  {
    if e != [] {
      assert Positive(e[1..]) by {
        forall i | 0 <= i < |e[1..]| ensures e[1..][i].1 > 0 { assert e[1..][i] == e[i + 1]; }
      }
      LookupPositive(e[1..], k);
      if e[0].0 != k {
        if Holds(e, k) {
          var i :| 0 <= i < |e| && e[i].0 == k && e[i].1 > 0;
          assert e[1..][i - 1] == e[i];
        }
        if Holds(e[1..], k) {
          var i :| 0 <= i < |e[1..]| && e[1..][i].0 == k && e[1..][i].1 > 0;
          assert e[i + 1] == e[1..][i];
        }
      } else {
        assert e[0].1 > 0;
      }
    }
  }

  /** With only positive counts, a non-empty counter has a positive total. */
  lemma {:induction false} SumPositive<K>(e: Entries<K>)
    requires Positive(e)
    ensures Sum(e) >= 0
    ensures e != [] ==> Sum(e) > 0
  {
    if e != [] {
      assert Positive(e[1..]) by {
        forall i | 0 <= i < |e[1..]| ensures e[1..][i].1 > 0 { assert e[1..][i] == e[i + 1]; }
      }
      SumPositive(e[1..]);
    }
  }

  /** After `c[k] = v`, `c[k]` reads `v` and every other key reads as before. */
  lemma {:induction false} SetEntryLookup<K>(e: Entries<K>, k: K, v: int, k': K)
    ensures Lookup(SetEntry(e, k, v), k') == if k' == k then v else Lookup(e, k')
  {
    if e != [] && e[0].0 != k {
      SetEntryLookup(e[1..], k, v, k');
      assert SetEntry(e, k, v)[1..] == SetEntry(e[1..], k, v);
    }
  }

  /** `c[k] = v` changes the sum of the counts by exactly `v - c[k]`. */
  lemma {:induction false} SetEntrySum<K>(e: Entries<K>, k: K, v: int)
    ensures Sum(SetEntry(e, k, v)) == Sum(e) + v - Lookup(e, k)
  {
    if e == [] {
      assert Sum([(k, v)]) == v + Sum([(k, v)][1..]);
    } else if e[0].0 == k {
      assert ([(k, v)] + e[1..])[1..] == e[1..];
    } else {
      SetEntrySum(e[1..], k, v);
      assert SetEntry(e, k, v)[1..] == SetEntry(e[1..], k, v);
    }
  }

  /** `c[k] = v` on a key that is not stored appends it at the end of the iteration order. */
  lemma {:induction false} SetEntryAppends<K>(e: Entries<K>, k: K, v: int)
    requires !HasKey(e, k)
    ensures SetEntry(e, k, v) == e + [(k, v)]
  {
    if e != [] {
      forall i | 0 <= i < |e[1..]| ensures e[1..][i].0 != k {
        assert e[1..][i] == e[i + 1];
      }
      SetEntryAppends(e[1..], k, v);
      assert e == [e[0]] + e[1..];
    }
  }

  /**
   * `c[k] = v` keeps every stored key in its place: a stored key is
   * overwritten where it stands and the length grows only for a new key.
   */
  lemma {:induction false} SetEntryKeepsKeys<K>(e: Entries<K>, k: K, v: int)
    ensures |SetEntry(e, k, v)| == if HasKey(e, k) then |e| else |e| + 1
    ensures forall i | 0 <= i < |e| :: SetEntry(e, k, v)[i].0 == e[i].0
    ensures HasKey(SetEntry(e, k, v), k)
  {
    var r := SetEntry(e, k, v);
    if e == [] {
      assert r[0].0 == k;
    } else if e[0].0 == k {
      assert r[0].0 == k;
      assert HasKey(e, k) by { assert e[0].0 == k; }
      assert forall i | 1 <= i < |e| :: r[i] == e[i];
    } else {
      var r' := SetEntry(e[1..], k, v);
      SetEntryKeepsKeys(e[1..], k, v);
      assert r == [e[0]] + r';
      assert HasKey(e, k) == HasKey(e[1..], k) by {
        if HasKey(e, k) {
          var i :| 0 <= i < |e| && e[i].0 == k;
          assert e[1..][i - 1].0 == k;
        }
        if HasKey(e[1..], k) {
          var i :| 0 <= i < |e[1..]| && e[1..][i].0 == k;
          assert e[i + 1].0 == k;
        }
      }
      forall i | 0 <= i < |e| ensures r[i].0 == e[i].0 {
        if i > 0 { assert r[i] == r'[i - 1]; assert e[i] == e[1..][i - 1]; }
      }
      var j :| 0 <= j < |r'| && r'[j].0 == k;
      assert r[j + 1].0 == k;
    }
  }

  /** After `c[k] = v` the stored keys are the old ones and `k`, whatever `v` is. */
  lemma {:induction false} SetEntryHasKey<K>(e: Entries<K>, k: K, v: int, k': K)
    ensures HasKey(SetEntry(e, k, v), k') <==> HasKey(e, k') || k' == k
  {
    var r := SetEntry(e, k, v);
    if e == [] {
      assert r[0].0 == k;
    } else if e[0].0 == k {
      assert r[0].0 == k && e[0].0 == k;
      assert forall i | 1 <= i < |e| :: r[i] == e[i];
      if HasKey(e, k') {
        var i :| 0 <= i < |e| && e[i].0 == k';
        assert r[i].0 == k';
      }
      if HasKey(r, k') {
        var i :| 0 <= i < |r| && r[i].0 == k';
        assert i == 0 || e[i].0 == k';
      }
    } else {
      var r' := SetEntry(e[1..], k, v);
      SetEntryHasKey(e[1..], k, v, k');
      assert r == [e[0]] + r';
      if HasKey(e, k') {
        var i :| 0 <= i < |e| && e[i].0 == k';
        if i > 0 { assert e[1..][i - 1].0 == k'; } else { assert r[0].0 == k'; }
      }
      if HasKey(e[1..], k') {
        var i :| 0 <= i < |e[1..]| && e[1..][i].0 == k';
        assert e[i + 1].0 == k';
      }
      if HasKey(r', k') {
        var i :| 0 <= i < |r'| && r'[i].0 == k';
        assert r[i + 1].0 == k';
      }
      if HasKey(r, k') {
        var i :| 0 <= i < |r| && r[i].0 == k';
        if i > 0 { assert r'[i - 1].0 == k'; } else { assert e[0].0 == k'; }
      }
    }
  }

  /** `c[k] = v` keeps the keys pairwise distinct. */
  lemma {:induction false} SetEntryDistinct<K>(e: Entries<K>, k: K, v: int)
    requires DistinctKeys(e)
    ensures DistinctKeys(SetEntry(e, k, v))
  {
    var r := SetEntry(e, k, v);
    SetEntryKeepsKeys(e, k, v);
    if !HasKey(e, k) {
      SetEntryAppends(e, k, v);
      forall a, b | 0 <= a < b < |r| ensures r[a].0 != r[b].0 {
        if b == |e| {
          assert r[b].0 == k;
          assert e[a].0 != k;
        }
      }
    }
  }

  /** `c[k] = v` with a positive `v` keeps every count positive. */
  lemma {:induction false} SetEntryPositive<K>(e: Entries<K>, k: K, v: int)
    requires Positive(e) && v > 0
    ensures Positive(SetEntry(e, k, v)) && SetEntry(e, k, v) != []
  {
    if e != [] && e[0].0 != k {
      assert Positive(e[1..]) by {
        forall i | 0 <= i < |e[1..]| ensures e[1..][i].1 > 0 { assert e[1..][i] == e[i + 1]; }
      }
      SetEntryPositive(e[1..], k, v);
    }
  }

  /**
   * The counter object. `totalCount` is the running total that
   * `__setitem__` maintains; `Valid` states the invariant that it equals the
   * sum of the stored counts.
   */
  class Counter<K(==,!new)> {
    var entries: Entries<K>
    var totalCount: int

    ghost predicate Valid()
      reads this
    {
      DistinctKeys(entries) && totalCount == Sum(entries)
    }

    /** `Counter()`: no entries and a total of 0. */
    constructor ()
      ensures Valid() && entries == [] && totalCount == 0
    {
      entries := [];
      totalCount := 0;
    }

    /** `c[k]`: the stored count, or 0 for a missing key, which is not inserted. */
    method Get(k: K) returns (v: int)
      requires Valid()
      ensures v == Lookup(entries, k)
      ensures !HasKey(entries, k) ==> v == 0
    {
      LookupMissing(entries, k);
      v := Lookup(entries, k);
    }

    /** `c[k] = v`: the total moves by `v` minus the old count, then the store is updated. */
    method Set(k: K, v: int)
      requires Valid()
      modifies this
      ensures Valid()
      ensures entries == SetEntry(old(entries), k, v)
      ensures totalCount == old(totalCount) + v - Lookup(old(entries), k)
    {
      var current := Get(k);
      totalCount := totalCount + v - current;
      SetEntrySum(entries, k, v);
      SetEntryDistinct(entries, k, v);
      entries := SetEntry(entries, k, v);
    }

    /** `total()`: the running total, which is the sum of the stored counts. */
    method Total() returns (t: int)
      requires Valid()
      ensures t == Sum(entries)
    {
      t := totalCount;
    }

    /**
     * `update(m)`: assign every pair of `m`, in the dictionary's (unspecified)
     * iteration order. Keys of `m` read their new count, the other keys keep
     * theirs, and the stored keys keep their places in the iteration order.
     */
    method Update(m: map<K, int>)
      requires Valid()
      modifies this
      ensures Valid()
      ensures forall k :: Lookup(entries, k) == if k in m then m[k] else Lookup(old(entries), k)
      ensures forall k :: HasKey(entries, k) <==> HasKey(old(entries), k) || k in m
      ensures |entries| >= |old(entries)|
      ensures forall i | 0 <= i < |old(entries)| :: entries[i].0 == old(entries)[i].0
    {
      var rest := m.Keys;
      while rest != {}
        invariant Valid() && rest <= m.Keys
        invariant forall k :: Lookup(entries, k) == if k in m && k !in rest then m[k] else Lookup(old(entries), k)
        invariant forall k :: HasKey(entries, k) <==> HasKey(old(entries), k) || (k in m && k !in rest)
        invariant |entries| >= |old(entries)|
        invariant forall i | 0 <= i < |old(entries)| :: entries[i].0 == old(entries)[i].0
        decreases |rest|
      {
        var k :| k in rest;
        ghost var before, restBefore := entries, rest;
        SetEntryKeepsKeys(entries, k, m[k]);
        Set(k, m[k]);
        rest := rest - {k};
        forall k' ensures Lookup(entries, k') == if k' in m && k' !in rest then m[k'] else Lookup(old(entries), k') {
          SetEntryLookup(before, k, m[k], k');
          assert Lookup(before, k') == if k' in m && k' !in restBefore then m[k'] else Lookup(old(entries), k');
        }
        forall k' ensures HasKey(entries, k') <==> HasKey(old(entries), k') || (k' in m && k' !in rest) {
          SetEntryHasKey(before, k, m[k], k');
        }
      }
    }
  }
}
