/**
 * The `Markov` class of markov.py: a dictionary from a context pair to a
 * `Counter` object of successors, changed in place by `learn` and read by
 * `seed`, `random_select` and `emit`. `order` is the dictionary's key
 * iteration order, which `model.keys()` exposes.
 */
module Chains {
  import opened Wrappers
  import opened Tokens
  import opened Counters
  import opened Draws
  import opened ChainSpec
  import WalkProps

  /** The entries of every counter of a model dictionary. */
  ghost function TableOf(m: map<Key, Counter<Succ>>): Table
    reads m.Values
  {
    map k | k in m :: m[k].entries
  }

  lemma TableOfUpdate(m: map<Key, Counter<Succ>>, k: Key, c: Counter<Succ>)
    ensures TableOf(m[k := c]) == TableOf(m)[k := c.entries]
  {
  }

  /** Counting in a context just added with an empty counter is one step of `learn`. */
  lemma BumpNew(c: Chain, k: Key, s: Succ)
    requires k !in c.table
    ensures ChainSpec.Bump(Chain(c.order + [k], c.table[k := []]), k, s) == ChainSpec.Bump(c, k, s)
  {
    assert c.table[k := []][k := SetEntry([], s, Lookup([], s) + 1)] == c.table[k := SetEntry([], s, Lookup([], s) + 1)];
  }

  /** The table after only the counter of `k` changed. */
  lemma TableStep(m: map<Key, Counter<Succ>>, k: Key, t0: Table)
    requires k in m && m.Keys == t0.Keys
    requires forall x | x in m && x != k :: m[x].entries == t0[x]
    ensures TableOf(m) == t0[k := m[k].entries]
  {
  }

  lemma DistinctAppend<T>(s: seq<T>, x: T)
    requires Distinct(s) && x !in s
    ensures Distinct(s + [x])
  {
  }

  class Markov {
    var order: seq<Key>
    var model: map<Key, Counter<Succ>>

    /**
     * Every counter keeps its total, no two contexts share a counter object,
     * and the key order lists each context once.
     */
    ghost predicate Valid()
      reads this, model.Values
    {
      && CountersValid()
      && (forall k, k' | k in model && k' in model && k != k' :: model[k] != model[k'])
      && Distinct(order)
      && (forall k :: k in order <==> k in model)
    }

    /** Every counter's total is the sum of its counts. */
    ghost predicate CountersValid()
      reads this, model.Values
    {
      forall k {:trigger model[k].Valid()} | k in model :: model[k].Valid()
    }

    /** The chain the object holds, as a value. */
    ghost function Abs(): Chain
      reads this, model.Values
    {
      Chain(order, TableOf(model))
    }

    lemma AbsWellFormed()
      requires Valid()
      ensures WellFormed(Abs())
    {
      forall k | k in model ensures DistinctKeys(Abs().table[k]) {
        assert model[k].Valid();
      }
    }

    /** A model with nothing learned (no model file could be loaded). */
    constructor ()
      ensures Valid() && Abs() == Empty
    {
      order := [];
      model := map[];
    }

    /** `self.model[pair] = Counter()` for a context not yet in the model: it joins the end of the key order. */
    method AddContext(k: Key, c: Counter<Succ>)
      requires Valid() && k !in model && c.Valid() && c.entries == [] && c !in model.Values
      modifies this
      ensures Valid() && model == old(model)[k := c]
      ensures Abs() == Chain(old(order) + [k], old(Abs()).table[k := []])
    {
      TableOfUpdate(model, k, c);
      DistinctAppend(order, k);
      model := model[k := c];
      order := order + [k];
    }

    /** `self.model[pair][next] += 1` on a context of the model. */
    method Increment(k: Key, next: Succ)
      requires Valid() && k in model
      modifies model[k]
      ensures Valid()
      ensures Abs() == ChainSpec.Bump(old(Abs()), k, next)
    {
      ghost var t0 := Abs().table;
      var c := model[k];
      var count := c.Get(next);
      c.Set(next, count + 1);
      assert forall x | x in model && x != k :: unchanged(model[x]);
      TableStep(model, k, t0);
    }

    /** One step of `learn`: make the context's counter if it is missing, then count the successor. */
    method Bump(k: Key, next: Succ)
      requires Valid()
      modifies this, model.Values
      ensures Valid()
      ensures Abs() == ChainSpec.Bump(old(Abs()), k, next)
      ensures forall k' | k' in model :: (k' in old(model) && model[k'] == old(model[k'])) || fresh(model[k'])
    {
      ghost var a0 := Abs();
      if k !in model {
        var c := new Counter<Succ>();
        AddContext(k, c);
        BumpNew(a0, k, next);
      }
      ghost var a1 := Abs();
      assert ChainSpec.Bump(a1, k, next) == ChainSpec.Bump(a0, k, next);
      Increment(k, next);
    }

    /**
     * `learn(xs)`: for each adjacent pair, create its counter if needed and
     * add 1 to the token two ahead, or to `None` at the last pair. Counters
     * are changed in place; the counters of new contexts are fresh objects.
     */
    method Learn(xs: seq<Token>)
      requires Valid()
      modifies this, model.Values
      ensures Valid()
      ensures Abs() == ChainSpec.Learn(old(Abs()), xs)
      ensures forall k | k in model :: (k in old(model) && model[k] == old(model[k])) || fresh(model[k])
    {
      ghost var start := Abs();
      var i := 0;
      while i < |xs| - 1
        invariant 0 <= i <= Steps(xs)
        invariant Valid()
        invariant Abs() == LearnUpTo(start, xs, i)
        invariant forall k | k in model :: (k in old(model) && model[k] == old(model[k])) || fresh(model[k])
      {
        var next: Succ := if i < |xs| - 2 then Some(xs[i + 2]) else None;
        assert (xs[i], xs[i + 1]) == Pair(xs, i) && next == Next(xs, i);
        Bump((xs[i], xs[i + 1]), next);
        assert Abs() == LearnUpTo(start, xs, i + 1);
        i := i + 1;
      }
    }

    /**
     * `seed(ys)`: a context of the model whose first token is among `ys`,
     * picked with `random.choice` by `choice`; `None` where `random.choice`
     * raises on an empty list.
     */
    function Seed(ys: Priority, choice: nat): (r: Option<Key>)
      requires Valid()
      reads this, model.Values
      ensures r == SeedOf(Abs(), ys, choice)
      ensures r.Some? ==> r.value in model && Contains(ys, r.value.0)
      ensures r.None? <==> forall k | k in model :: !Contains(ys, k.0)
    {
      AbsWellFormed();
      WalkProps.SeedSound(Abs(), ys, choice);
      Choose(Candidates(order, ys), choice)
    }

    /**
     * `random_select(key)`: the random integer `draw % total` is run down the
     * counter's entries in iteration order until an entry's count exceeds
     * what is left of it.
     */
    method RandomSelect(key: Key, draw: nat) returns (r: Result<Succ, Fault>)
      requires CountersValid()
      ensures r == Select(Abs().table, key, draw)
    {
      if key !in model {
        return Err(UnknownKey);
      }
      var c := model[key];
      var total := c.Total();
      if total < 1 {
        return Err(EmptyRange);
      }
      var index := draw % total;
      var entries := c.entries;
      var j := 0;
      while j < |entries|
        invariant 0 <= j <= |entries|
        invariant Pick(entries, draw % total, None) == Pick(entries[j..], index, None)
      {
        if entries[j].1 > index {
          return Ok(entries[j].0);
        }
        index := index - entries[j].1;
        j := j + 1;
      }
      return Ok(None);
    }

    /**
     * `emit(s)`: while the context is in the model and its counter is not
     * empty, draw a successor, stop on a falsy one, else append it and move
     * to `(s[1], t)`. One draw is used per step; when the draws run out the
     * walk stops with what it has.
     */
    method Emit(start: Key, draws: seq<nat>) returns (r: Result<seq<Token>, Fault>)
      requires CountersValid()
      ensures r == Walk(Abs().table, start, draws)
    {
      ghost var t := Abs().table;
      var s := start;
      var resp: seq<Token> := [];
      var n := 0;
      assert draws[0..] == draws;
      assert Then([], Walk(t, s, draws)) == Walk(t, s, draws) by {
        if Walk(t, s, draws).Ok? { assert [] + Walk(t, s, draws).value == Walk(t, s, draws).value; }
      }
      while s in model
        invariant 0 <= n <= |draws|
        invariant Walk(t, start, draws) == Then(resp, Walk(t, s, draws[n..]))
        decreases |draws| - n
      {
        var ts := model[s];
        if |ts.entries| == 0 {
          break;
        }
        if n == |draws| {
          break;
        }
        var next := RandomSelect(s, draws[n]);
        if next.Err? {
          return Err(next.error);
        }
        if Falsy(next.value) {
          break;
        }
        assert draws[n..][1..] == draws[n + 1..];
        ThenThen(resp, [next.value.value], Walk(t, (s.1, next.value.value), draws[n + 1..]));
        resp := resp + [next.value.value];
        s := (s.1, next.value.value);
        n := n + 1;
      }
      assert resp + [] == resp;
      return Ok(resp);
    }
  }
}
