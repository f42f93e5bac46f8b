/**
 * The weighted draw of `random_select`: an index drawn uniformly from
 * `[0, total - 1]` is walked through the counter's entries in iteration
 * order, subtracting each count, until an entry's count exceeds what is left.
 */
module Draws {
  import opened Counters

  /**
   * The entry the scan stops at for `index`; `missing` is what the scan
   * returns when it runs off the end (Python's implicit `None`).
   */
  function Pick<K>(e: Entries<K>, index: int, missing: K): K {
    if e == [] then missing
    else if e[0].1 > index then e[0].0
    else Pick(e[1..], index - e[0].1, missing)
  }

  /** Adding one more entry at the end adds its count to the sum of a prefix. */
  lemma {:induction false} SumPrefixStep<K>(e: Entries<K>, j: nat)
    requires j < |e|
    ensures Sum(e[..j + 1]) == Sum(e[..j]) + e[j].1
  {
    if j > 0 {
      SumPrefixStep(e[1..], j - 1);
      assert e[..j + 1][1..] == e[1..][..j];
      assert e[..j][1..] == e[1..][..j - 1];
    } else {
      assert e[..1][1..] == [];
    }
  }

  /**
   * The position the scan stops at: with positive counts and an index in
   * `[0, Sum(e) - 1]`, the scan returns the entry `j` whose cumulative
   * interval `[Sum(e[..j]), Sum(e[..j]) + e[j].1)` contains the index, and it
   * never runs off the end.
   */
  function Slot<K(!new)>(e: Entries<K>, index: int): (j: nat)
    requires Positive(e) && 0 <= index < Sum(e)
    ensures j < |e|
    ensures Sum(e[..j]) <= index < Sum(e[..j]) + e[j].1
    ensures forall missing: K :: Pick(e, index, missing) == e[j].0
  {
    assert e != [];
    if e[0].1 > index then
      assert e[..0] == [];
      0
    else
      assert Positive(e[1..]) by {
        forall i | 0 <= i < |e[1..]| ensures e[1..][i].1 > 0 { assert e[1..][i] == e[i + 1]; }
      }
      var j := Slot(e[1..], index - e[0].1);
      assert e[..j + 1][1..] == e[1..][..j];
      SumPrefixStep(e, j + 1);
      SumPrefixStep(e[1..], j);
      j + 1
  }

  /** How many indices in `[lo, hi)` the scan maps to `k`. */
  function Hits<K(==)>(e: Entries<K>, k: K, lo: int, hi: int, missing: K): nat
    decreases hi - lo
  {
    if lo >= hi then 0
    else Hits(e, k, lo, hi - 1, missing) + (if Pick(e, hi - 1, missing) == k then 1 else 0)
  }

  lemma {:induction false} HitsSplit<K>(e: Entries<K>, k: K, lo: int, mid: int, hi: int, missing: K)
    requires lo <= mid <= hi
    ensures Hits(e, k, lo, hi, missing) == Hits(e, k, lo, mid, missing) + Hits(e, k, mid, hi, missing)
    decreases hi - mid
  {
    if mid < hi {
      HitsSplit(e, k, lo, mid, hi - 1, missing);
    }
  }

  /** Indices below the first count all land on the first entry. */
  lemma {:induction false} HitsFirst<K>(e: Entries<K>, k: K, lo: int, hi: int, missing: K)
    requires e != [] && 0 <= lo <= hi <= e[0].1
    ensures Hits(e, k, lo, hi, missing) == if e[0].0 == k then hi - lo else 0
    decreases hi - lo
  {
    if lo < hi {
      HitsFirst(e, k, lo, hi - 1, missing);
    }
  }

  /** Indices past the first count are scanned as in the remaining entries. */
  lemma {:induction false} HitsRest<K>(e: Entries<K>, k: K, lo: int, hi: int, missing: K)
    requires e != [] && 0 <= lo <= hi
    ensures Hits(e, k, e[0].1 + lo, e[0].1 + hi, missing) == Hits(e[1..], k, lo, hi, missing)
    decreases hi - lo
  {
    if lo < hi {
      HitsRest(e, k, lo, hi - 1, missing);
    }
  }

  /**
   * The draw is weighted by the counts: of the `Sum(e)` equally likely
   * indices, exactly `Lookup(e, k)` make the scan return `k`.
   */
  lemma {:induction false} HitsAreWeights<K>(e: Entries<K>, k: K, missing: K)
    requires Positive(e) && DistinctKeys(e)
    ensures Hits(e, k, 0, Sum(e), missing) == Lookup(e, k)
  {
    if e != [] {
      var r := e[1..];
      assert Positive(r) by {
        forall i | 0 <= i < |r| ensures r[i].1 > 0 { assert r[i] == e[i + 1]; }
      }
      assert DistinctKeys(r) by {
        forall a, b | 0 <= a < b < |r| ensures r[a].0 != r[b].0 {
          assert r[a] == e[a + 1] && r[b] == e[b + 1];
        }
      }
      SumPositive(r);
      HitsSplit(e, k, 0, e[0].1, Sum(e), missing);
      HitsFirst(e, k, 0, e[0].1, missing);
      HitsRest(e, k, 0, Sum(r), missing);
      HitsAreWeights(r, k, missing);
      if e[0].0 == k {
        forall i | 0 <= i < |r| ensures r[i].0 != k { assert r[i] == e[i + 1]; }
        LookupMissing(r, k);
      }
    }
  }
}
