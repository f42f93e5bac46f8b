/**
 * What `Markov.learn` does to the chain: exact count increments, the growth
 * of the total weight, which contexts appear, and the invariants it keeps.
 */
module LearnProps {
  import opened Wrappers
  import opened Tokens
  import opened Counters
  import opened ChainSpec

  /** How many of the first `n` positions of `xs` have context `k` and successor `s`. */
  function Transitions(xs: seq<Token>, n: nat, k: Key, s: Succ): nat
    requires n <= Steps(xs)
  {
    if n == 0 then 0
    else Transitions(xs, n - 1, k, s) + (if Pair(xs, n - 1) == k && Next(xs, n - 1) == s then 1 else 0)
  }

  /** The weight of all counts in the contexts `ks` of a table. */
  ghost function SumOver(t: Table, ks: set<Key>): int
    requires ks <= t.Keys
    decreases ks
  {
    if ks == {} then 0
    else
      var k :| k in ks;
      Sum(t[k]) + SumOver(t, ks - {k})
  }

  /** The weight of all counts in a table, summed over its contexts. */
  ghost function TotalWeight(t: Table): int {
    SumOver(t, t.Keys)
  }

  // ------------------------------------------------------------ one step

  /** One step adds exactly 1 to `model[k][s]` and changes no other count. */
  lemma BumpWeight(c: Chain, k: Key, s: Succ, k': Key, s': Succ)
    ensures Weight(Bump(c, k, s), k', s') == Weight(c, k', s') + (if k' == k && s' == s then 1 else 0)
  {
    var e := if k in c.table then c.table[k] else [];
    SetEntryLookup(e, s, Lookup(e, s) + 1, s');
  }

  /** The weight of a set of contexts, split at any one of them. */
  lemma {:induction false} SumOverRemove(t: Table, ks: set<Key>, k: Key)
    requires ks <= t.Keys && k in ks
    ensures SumOver(t, ks) == Sum(t[k]) + SumOver(t, ks - {k})
    decreases ks
  {
    var k' :| k' in ks && SumOver(t, ks) == Sum(t[k']) + SumOver(t, ks - {k'});
    if k' != k {
      SumOverRemove(t, ks - {k'}, k);
      SumOverRemove(t, ks - {k}, k');
      assert ks - {k'} - {k} == ks - {k} - {k'};
    }
  }

  /** The weight of `ks` depends only on the counters of `ks`. */
  lemma {:induction false} SumOverAgree(t: Table, t': Table, ks: set<Key>)
    requires ks <= t.Keys && ks <= t'.Keys
    requires forall k | k in ks :: t[k] == t'[k]
    ensures SumOver(t, ks) == SumOver(t', ks)
    decreases ks
  {
    if ks != {} {
      var k :| k in ks && SumOver(t, ks) == Sum(t[k]) + SumOver(t, ks - {k});
      SumOverAgree(t, t', ks - {k});
      SumOverRemove(t', ks, k);
    }
  }

  /** One step adds exactly 1 to the total weight. */
  lemma BumpTotal(c: Chain, k: Key, s: Succ)
    ensures TotalWeight(Bump(c, k, s).table) == TotalWeight(c.table) + 1
  {
    var t := c.table;
    var e := if k in t then t[k] else [];
    var t' := Bump(c, k, s).table;
    SetEntrySum(e, s, Lookup(e, s) + 1);
    SumOverRemove(t', t'.Keys, k);
    SumOverAgree(t, t', t.Keys - {k});
    if k in t {
      SumOverRemove(t, t.Keys, k);
      assert t'.Keys - {k} == t.Keys - {k};
    } else {
      assert t'.Keys - {k} == t.Keys - {k} == t.Keys;
    }
  }

  /** One step keeps a context non-empty with positive counts, and makes its own context so. */
  lemma BumpLive(c: Chain, k: Key, s: Succ, k': Key)
    requires k' in Bump(c, k, s).table
    requires k' in c.table ==> c.table[k'] != [] && Positive(c.table[k'])
    ensures Bump(c, k, s).table[k'] != [] && Positive(Bump(c, k, s).table[k'])
  {
    if k' == k {
      var e := if k in c.table then c.table[k] else [];
      LookupPositive(e, s);
      SetEntryPositive(e, s, Lookup(e, s) + 1);
    }
  }

  /** One step keeps the key order and the counters well formed. */
  lemma BumpWellFormed(c: Chain, k: Key, s: Succ)
    requires WellFormed(c)
    ensures WellFormed(Bump(c, k, s))
  {
    var e := if k in c.table then c.table[k] else [];
    SetEntryDistinct(e, s, Lookup(e, s) + 1);
  }

  // ------------------------------------------------------------ the whole of learn

  lemma {:induction false} LearnUpToWeight(c: Chain, xs: seq<Token>, n: nat, k: Key, s: Succ)
    requires n <= Steps(xs)
    ensures Weight(LearnUpTo(c, xs, n), k, s) == Weight(c, k, s) + Transitions(xs, n, k, s)
  {
    if n > 0 {
      LearnUpToWeight(c, xs, n - 1, k, s);
      BumpWeight(LearnUpTo(c, xs, n - 1), Pair(xs, n - 1), Next(xs, n - 1), k, s);
    }
  }

  /**
   * `learn(xs)` adds to `model[k][s]` exactly the number of positions `i`
   * with `(xs[i], xs[i+1]) == k` whose successor (`xs[i+2]`, or `None` at the
   * last pair) is `s`; every other count stays as it was.
   */
  lemma LearnWeight(c: Chain, xs: seq<Token>, k: Key, s: Succ)
    ensures Weight(Learn(c, xs), k, s) == Weight(c, k, s) + Transitions(xs, Steps(xs), k, s)
  {
    LearnUpToWeight(c, xs, Steps(xs), k, s);
  }

  lemma {:induction false} TransitionsAt(xs: seq<Token>, n: nat, i: nat)
    requires n <= Steps(xs) && i < n
    ensures Transitions(xs, n, Pair(xs, i), Next(xs, i)) >= 1
    ensures (forall j | 0 <= j < n && j != i :: Pair(xs, j) != Pair(xs, i) || Next(xs, j) != Next(xs, i))
            ==> Transitions(xs, n, Pair(xs, i), Next(xs, i)) == 1
  {
    if i < n - 1 {
      TransitionsAt(xs, n - 1, i);
    } else {
      TransitionsNone(xs, n - 1, Pair(xs, i), Next(xs, i));
    }
  }

  lemma {:induction false} TransitionsNone(xs: seq<Token>, n: nat, k: Key, s: Succ)
    requires n <= Steps(xs)
    ensures (forall j | 0 <= j < n :: Pair(xs, j) != k || Next(xs, j) != s) ==> Transitions(xs, n, k, s) == 0
  {
    if n > 0 {
      TransitionsNone(xs, n - 1, k, s);
    }
  }

  /**
   * Every position `i` counts: after `learn(xs)` the count under
   * `(xs[i], xs[i+1])` for its successor has grown by at least 1, and by
   * exactly 1 when no other position has the same context and successor.
   */
  lemma LearnEveryPair(c: Chain, xs: seq<Token>, i: nat)
    requires i < Steps(xs)
    ensures Pair(xs, i) in Learn(c, xs).table
    ensures Weight(Learn(c, xs), Pair(xs, i), Next(xs, i)) >= Weight(c, Pair(xs, i), Next(xs, i)) + 1
    ensures (forall j | 0 <= j < Steps(xs) && j != i :: Pair(xs, j) != Pair(xs, i) || Next(xs, j) != Next(xs, i))
            ==> Weight(Learn(c, xs), Pair(xs, i), Next(xs, i)) == Weight(c, Pair(xs, i), Next(xs, i)) + 1
  {
    LearnWeight(c, xs, Pair(xs, i), Next(xs, i));
    TransitionsAt(xs, Steps(xs), i);
    LearnUpToKeys(c, xs, Steps(xs));
  }

  lemma {:induction false} LearnUpToKeys(c: Chain, xs: seq<Token>, n: nat)
    requires n <= Steps(xs)
    ensures forall k :: k in LearnUpTo(c, xs, n).table <==> k in c.table || exists i | 0 <= i < n :: Pair(xs, i) == k
    ensures forall k | k in c.table && (forall i | 0 <= i < n :: Pair(xs, i) != k) :: LearnUpTo(c, xs, n).table[k] == c.table[k]
    ensures |LearnUpTo(c, xs, n).order| >= |c.order| && LearnUpTo(c, xs, n).order[..|c.order|] == c.order
  {
    if n > 0 {
      LearnUpToKeys(c, xs, n - 1);
      var prev := LearnUpTo(c, xs, n - 1);
      assert prev.order[..|c.order|] == c.order;
      if Pair(xs, n - 1) !in prev.table {
        assert (prev.order + [Pair(xs, n - 1)])[..|c.order|] == prev.order[..|c.order|];
      }
    }
  }

  /**
   * The contexts after `learn(xs)` are the old ones plus the adjacent pairs
   * of `xs`; a context that is not a pair of `xs` keeps its counter exactly,
   * and the old key order is kept with new contexts appended after it.
   */
  lemma LearnKeys(c: Chain, xs: seq<Token>)
    ensures forall k :: k in Learn(c, xs).table <==> k in c.table || exists i | 0 <= i < Steps(xs) :: Pair(xs, i) == k
    ensures forall k | k in c.table && (forall i | 0 <= i < Steps(xs) :: Pair(xs, i) != k) :: Learn(c, xs).table[k] == c.table[k]
    ensures |Learn(c, xs).order| >= |c.order| && Learn(c, xs).order[..|c.order|] == c.order
  {
    LearnUpToKeys(c, xs, Steps(xs));
  }

  /** A message of fewer than two tokens teaches nothing. */
  lemma LearnShort(c: Chain, xs: seq<Token>)
    requires |xs| < 2
    ensures Learn(c, xs) == c
  {
  }

  lemma {:induction false} LearnUpToTotal(c: Chain, xs: seq<Token>, n: nat)
    requires n <= Steps(xs)
    ensures TotalWeight(LearnUpTo(c, xs, n).table) == TotalWeight(c.table) + n
  {
    if n > 0 {
      LearnUpToTotal(c, xs, n - 1);
      BumpTotal(LearnUpTo(c, xs, n - 1), Pair(xs, n - 1), Next(xs, n - 1));
    }
  }

  /** The total weight of the model grows by exactly `len(xs) - 1` (by nothing for `len(xs) < 2`). */
  lemma LearnTotal(c: Chain, xs: seq<Token>)
    ensures TotalWeight(Learn(c, xs).table) == TotalWeight(c.table) + (if |xs| < 2 then 0 else |xs| - 1)
  {
    LearnUpToTotal(c, xs, Steps(xs));
  }

  lemma {:induction false} LearnUpToLive(c: Chain, xs: seq<Token>, n: nat)
    requires n <= Steps(xs)
    ensures forall k | k in LearnUpTo(c, xs, n).table && (k in c.table ==> c.table[k] != [] && Positive(c.table[k])) ::
              LearnUpTo(c, xs, n).table[k] != [] && Positive(LearnUpTo(c, xs, n).table[k])
  {
    if n > 0 {
      LearnUpToLive(c, xs, n - 1);
      LearnUpToKeys(c, xs, n - 1);
      var prev := LearnUpTo(c, xs, n - 1);
      forall k | k in LearnUpTo(c, xs, n).table && (k in c.table ==> c.table[k] != [] && Positive(c.table[k]))
        ensures LearnUpTo(c, xs, n).table[k] != [] && Positive(LearnUpTo(c, xs, n).table[k])
      {
        BumpLive(prev, Pair(xs, n - 1), Next(xs, n - 1), k);
      }
    }
  }

  /**
   * Every context `learn` creates ends with at least one successor, every
   * count positive and so a positive total; and a model in which every
   * context is so stays so.
   */
  lemma LearnLive(c: Chain, xs: seq<Token>)
    ensures forall k | k in Learn(c, xs).table && k !in c.table ::
              Learn(c, xs).table[k] != [] && Positive(Learn(c, xs).table[k]) && Sum(Learn(c, xs).table[k]) > 0
    ensures Live(c.table) ==> Live(Learn(c, xs).table)
  {
    LearnUpToLive(c, xs, Steps(xs));
    forall k | k in Learn(c, xs).table && k !in c.table ensures Sum(Learn(c, xs).table[k]) > 0 {
      SumPositive(Learn(c, xs).table[k]);
    }
  }

  lemma {:induction false} LearnUpToWellFormed(c: Chain, xs: seq<Token>, n: nat)
    requires n <= Steps(xs) && WellFormed(c)
    ensures WellFormed(LearnUpTo(c, xs, n))
  {
    if n > 0 {
      LearnUpToWellFormed(c, xs, n - 1);
      BumpWellFormed(LearnUpTo(c, xs, n - 1), Pair(xs, n - 1), Next(xs, n - 1));
    }
  }

  /** `learn` keeps every key listed once in the key order and every counter a dictionary. */
  lemma LearnWellFormed(c: Chain, xs: seq<Token>)
    requires WellFormed(c)
    ensures WellFormed(Learn(c, xs))
  {
    LearnUpToWellFormed(c, xs, Steps(xs));
  }

  /** Learning the same message twice doubles what it adds and touches nothing else. */
  lemma LearnTwice(c: Chain, xs: seq<Token>, k: Key, s: Succ)
    ensures Weight(Learn(Learn(c, xs), xs), k, s) == Weight(c, k, s) + 2 * Transitions(xs, Steps(xs), k, s)
  {
    LearnWeight(c, xs, k, s);
    LearnWeight(Learn(c, xs), xs, k, s);
  }

  /** Training on "a b c": one `c` after `(a, b)`, the end after `(b, c)`, and no other context. */
  lemma LearnABC()
    ensures var c := Learn(Empty, ["a", "b", "c"]);
      && c.order == [("a", "b"), ("b", "c")]
      && c.table == map[("a", "b") := [(Some("c"), 1)], ("b", "c") := [(None, 1)]]
      && Weight(c, ("a", "b"), Some("c")) == 1
      && Weight(c, ("b", "c"), None) == 1
  {
    var xs := ["a", "b", "c"];
    var c1 := Bump(Empty, Pair(xs, 0), Next(xs, 0));
    assert c1 == Chain([("a", "b")], map[("a", "b") := [(Some("c"), 1)]]);
    assert LearnUpTo(Empty, xs, 1) == c1;
    assert Learn(Empty, xs) == Bump(c1, Pair(xs, 1), Next(xs, 1));
  }
}
