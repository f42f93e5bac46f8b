/**
 * What `random_select`, `emit` and `seed` promise about a model that
 * `learn` has built.
 */
module WalkProps {
  import opened Wrappers
  import opened Tokens
  import opened Counters
  import opened Draws
  import opened ChainSpec
  import LearnProps

  // ------------------------------------------------------------ the weighted draw

  /**
   * On a live context, `random_select` never raises and returns the stored
   * successor whose cumulative interval holds the drawn index: a successor
   * with a positive count.
   */
  lemma SelectStored(t: Table, key: Key, draw: nat)
    requires Live(t) && key in t
    ensures Select(t, key, draw).Ok?
    ensures Holds(t[key], Select(t, key, draw).value)
    ensures var e, index := t[key], draw % Sum(t[key]);
      exists j | 0 <= j < |e| :: && e[j].0 == Select(t, key, draw).value
                                 && Sum(e[..j]) <= index < Sum(e[..j]) + e[j].1
  {
    var e := t[key];
    SumPositive(e);
    var j := Slot(e, draw % Sum(e));
    assert Pick(e, draw % Sum(e), None) == e[j].0;
  }

  /**
   * The draw is proportional to the counts: of the `total` equally likely
   * random integers `0 .. total - 1`, exactly `model[key][s]` select `s`.
   */
  lemma SelectWeighted(c: Chain, key: Key, s: Succ)
    requires WellFormed(c) && Live(c.table) && key in c.table
    ensures forall d: nat | d < Sum(c.table[key]) :: Select(c.table, key, d) == Ok(Pick(c.table[key], d, None))
    ensures Hits(c.table[key], s, 0, Sum(c.table[key]), None) == Weight(c, key, s)
  {
    var e := c.table[key];
    assert Positive(e) && e != [] && DistinctKeys(e);
    SumPositive(e);
    forall d: nat | d < Sum(e) ensures Select(c.table, key, d) == Ok(Pick(e, d, None)) {
      assert d % Sum(e) == d;
    }
    HitsAreWeights(e, s, None);
  }

  // ------------------------------------------------------------ the walk

  /** `emit(s)` returns `[]` at once when `s` is not a context of the model. */
  lemma WalkUnknown(t: Table, s: Key, draws: seq<nat>)
    requires s !in t
    ensures Walk(t, s, draws) == Ok([])
  {
  }

  /** On a live model the walk never raises. */
  lemma {:induction false} WalkNeverFails(t: Table, s: Key, draws: seq<nat>)
    requires Live(t)
    ensures Walk(t, s, draws).Ok?
    decreases |draws|
  {
    if s in t && |t[s]| != 0 && draws != [] {
      SelectStored(t, s, draws[0]);
      var next := Select(t, s, draws[0]).value;
      if !Falsy(next) {
        WalkNeverFails(t, (s.1, next.value), draws[1..]);
      }
    }
  }

  /**
   * Every token of a walk on a live model was learned: token `j` is stored
   * with a positive count under the context the walk was at, which starts at
   * `s` and moves to `(s[1], t)` after each token `t`. No token is falsy,
   * and there are never more tokens than draws.
   */
  lemma {:induction false} WalkSound(t: Table, s: Key, draws: seq<nat>)
    requires Live(t) && Walk(t, s, draws).Ok?
    ensures var ts := Walk(t, s, draws).value;
      && |ts| <= |draws|
      && forall j | 0 <= j < |ts| :: && KeyAt(s, ts, j) in t
                                     && Holds(t[KeyAt(s, ts, j)], Some(ts[j]))
                                     && ts[j] != ""
    decreases |draws|
  {
    if s in t && |t[s]| != 0 && draws != [] {
      SelectStored(t, s, draws[0]);
      var next := Select(t, s, draws[0]).value;
      if !Falsy(next) {
        var s' := (s.1, next.value);
        WalkSound(t, s', draws[1..]);
        var rest := Walk(t, s', draws[1..]).value;
        var ts := Walk(t, s, draws).value;
        assert ts == [next.value] + rest;
        forall j | 0 <= j < |ts|
          ensures KeyAt(s, ts, j) in t && Holds(t[KeyAt(s, ts, j)], Some(ts[j])) && ts[j] != ""
        {
          if j > 0 {
            KeyAtShift(s, next.value, rest, j);
            assert ts[j] == rest[j - 1];
          }
        }
      }
    }
  }

  /** After its first token `x`, a walk from `s` goes on as a walk from `(s[1], x)`. */
  lemma KeyAtShift(s: Key, x: Token, rest: seq<Token>, j: nat)
    requires 1 <= j <= |rest| + 1
    ensures KeyAt(s, [x] + rest, j) == KeyAt((s.1, x), rest, j - 1)
  {
  }

  /**
   * A walk on a live model stops only at an unknown context, when its draws
   * are used up, or on a falsy draw.
   */
  lemma {:induction false} WalkStops(t: Table, s: Key, draws: seq<nat>)
    requires Live(t) && Walk(t, s, draws).Ok?
    ensures var ts := Walk(t, s, draws).value;
      var last := KeyAt(s, ts, |ts|);
      || last !in t
      || |ts| == |draws|
      || (|ts| < |draws| && Select(t, last, draws[|ts|]).Ok? && Falsy(Select(t, last, draws[|ts|]).value))
    decreases |draws|
  {
    if s in t && |t[s]| != 0 && draws != [] {
      SelectStored(t, s, draws[0]);
      var next := Select(t, s, draws[0]).value;
      if !Falsy(next) {
        var s' := (s.1, next.value);
        WalkStops(t, s', draws[1..]);
        var rest := Walk(t, s', draws[1..]).value;
        var ts := Walk(t, s, draws).value;
        assert ts == [next.value] + rest;
        assert KeyAt(s, ts, |ts|) == KeyAt(s', rest, |rest|);
        assert |ts| == |rest| + 1 && |draws| == |draws[1..]| + 1;
        if |rest| < |draws[1..]| {
          assert draws[|ts|] == draws[1..][|rest|];
        }
      }
    }
  }

  /**
   * After training on "a b c", the walk from `(a, b)` is `[c]` whatever the
   * draws, as long as there is one; with no draws the walk has no fuel and
   * is `[]`.
   */
  lemma WalkABC(draws: seq<nat>)
    ensures draws != [] ==> Walk(Learn(Empty, ["a", "b", "c"]).table, ("a", "b"), draws) == Ok(["c"])
    ensures draws == [] ==> Walk(Learn(Empty, ["a", "b", "c"]).table, ("a", "b"), draws) == Ok([])
  {
    if draws == [] { return; }
    LearnProps.LearnABC();
    var t := Learn(Empty, ["a", "b", "c"]).table;
    var d, more := draws[0], draws[1..];
    assert t == map[("a", "b") := [(Some("c"), 1)], ("b", "c") := [(None, 1)]];
    var ab, bc := t[("a", "b")], t[("b", "c")];
    assert Sum(ab) == 1 && Sum(bc) == 1;
    assert Pick(ab, 0, None) == Some("c");
    assert d % 1 == 0;
    assert Select(t, ("a", "b"), d) == Ok(Some("c"));
    assert !Falsy(Some("c"));
    assert Walk(t, ("b", "c"), more) == Ok([]) by {
      if more != [] {
        assert more[0] % 1 == 0;
        assert Pick(bc, 0, None) == None;
        assert Select(t, ("b", "c"), more[0]) == Ok(None);
      }
    }
    assert Walk(t, ("a", "b"), draws) == Then(["c"], Walk(t, ("b", "c"), more));
    assert ["c"] + [] == ["c"];
  }

  // ------------------------------------------------------------ seeding

  lemma {:induction false} CandidatesMembers(order: seq<Key>, ys: Priority)
    ensures forall k :: k in Candidates(order, ys) <==> k in order && Contains(ys, k.0)
    ensures Distinct(order) ==> Distinct(Candidates(order, ys))
  {
    if order != [] {
      CandidatesMembers(order[1..], ys);
      var head := if Contains(ys, order[0].0) then [order[0]] else [];
      var rest := Candidates(order[1..], ys);
      assert Candidates(order, ys) == head + rest;
      forall k ensures k in order <==> k == order[0] || k in order[1..] {
        assert order == [order[0]] + order[1..];
      }
      if Distinct(order) {
        assert Distinct(order[1..]) by {
          forall i, j | 0 <= i < j < |order[1..]| ensures order[1..][i] != order[1..][j] {
            assert order[1..][i] == order[i + 1] && order[1..][j] == order[j + 1];
          }
        }
        assert order[0] !in order[1..] by {
          forall i | 0 <= i < |order[1..]| ensures order[1..][i] != order[0] {
            assert order[1..][i] == order[i + 1];
          }
        }
        forall i, j | 0 <= i < j < |head + rest| ensures (head + rest)[i] != (head + rest)[j] {
          if i < |head| {
            assert (head + rest)[j] == rest[j - |head|];
          }
        }
      }
    }
  }

  /**
   * `seed(ys)` returns a context of the model whose first token is a
   * priority word, and raises (here `None`) exactly when the model has no
   * such context.
   */
  lemma SeedSound(c: Chain, ys: Priority, choice: nat)
    requires WellFormed(c)
    ensures SeedOf(c, ys, choice).Some? ==>
      SeedOf(c, ys, choice).value in c.table && Contains(ys, SeedOf(c, ys, choice).value.0)
    ensures SeedOf(c, ys, choice).None? <==> forall k | k in c.table :: !Contains(ys, k.0)
  {
    var xs := Candidates(c.order, ys);
    CandidatesMembers(c.order, ys);
    if xs != [] {
      assert xs[choice % |xs|] in xs;
    } else {
      forall k | k in c.table ensures !Contains(ys, k.0) {
        assert k in c.order;
      }
    }
  }

  /**
   * The choice is uniform over the qualifying contexts: each stands exactly
   * once in the list `random.choice` picks from, so exactly one choice in
   * `0 .. len - 1` yields it.
   */
  lemma SeedUniform(c: Chain, ys: Priority, k: Key)
    requires WellFormed(c) && k in c.table && Contains(ys, k.0)
    ensures Distinct(Candidates(c.order, ys))
    ensures exists i | 0 <= i < |Candidates(c.order, ys)| :: SeedOf(c, ys, i) == Some(k)
    ensures forall i, j | 0 <= i < j < |Candidates(c.order, ys)| :: SeedOf(c, ys, i) != SeedOf(c, ys, j)
  {
    var xs := Candidates(c.order, ys);
    CandidatesMembers(c.order, ys);
    assert k in xs;
    var i :| 0 <= i < |xs| && xs[i] == k;
    SeedAt(c, ys, i);
    forall a, b | 0 <= a < b < |xs| ensures SeedOf(c, ys, a) != SeedOf(c, ys, b) {
      SeedAt(c, ys, a);
      SeedAt(c, ys, b);
    }
  }

  /** A choice below the number of candidates picks the candidate at that position. */
  lemma SeedAt(c: Chain, ys: Priority, i: nat)
    requires i < |Candidates(c.order, ys)|
    ensures SeedOf(c, ys, i) == Some(Candidates(c.order, ys)[i])
  {
    var n := |Candidates(c.order, ys)|;
    assert i % n == i;
  }
}
