/**
 * The order-2 Markov chain of markov.py as a value: the table from a context
 * pair `(t1, t2)` to the counter of its successors, together with the
 * iteration order of the table's keys. A successor is a token or `None`,
 * which marks the end of a message.
 *
 * Randomness is an input: `random.randint(0, n - 1)` is `draw % n` for a
 * draw supplied by the caller, and `random.choice(xs)` is
 * `xs[choice % |xs|]`; every value either call can produce is reached this
 * way. A walk consumes one draw per step, so its draw sequence also bounds
 * the number of steps.
 */
module ChainSpec {
  import opened Wrappers
  import opened Tokens
  import opened Counters
  import opened Draws

  /** A context: two consecutive tokens. */
  type Key = (Token, Token)

  /** A successor: `Some(t)` for a token, `None` for the end of a message. */
  type Succ = Option<Token>

  /** The chain's table: the entries of each context's counter. */
  type Table = map<Key, Entries<Succ>>

  /** The table with the iteration order of its keys (`model.keys()`). */
  datatype Chain = Chain(order: seq<Key>, table: Table)

  /** The exceptions a draw can raise. */
  datatype Fault =
    | UnknownKey   // `self.model[key]` on a missing key: KeyError
    | EmptyRange   // `random.randint(0, total - 1)` with `total < 1`: ValueError

  /** A model before anything is learned. */
  const Empty: Chain := Chain([], map[])

  predicate Distinct<T(==)>(s: seq<T>) {
    forall i, j | 0 <= i < j < |s| :: s[i] != s[j]
  }

  /** The key order lists each key of the table once, and every counter is a dictionary. */
  ghost predicate WellFormed(c: Chain) {
    && Distinct(c.order)
    && (forall k :: k in c.order <==> k in c.table)
    && (forall k | k in c.table :: DistinctKeys(c.table[k]))
  }

  /** Every context has at least one successor, each with a positive count. */
  predicate Live(t: Table) {
    forall k | k in t :: t[k] != [] && Positive(t[k])
  }

  /** Python's `not t` on a successor: `None` or the empty string. */
  predicate Falsy(t: Succ) {
    t.None? || t.value == ""
  }

  /** `model[k][s]`, reading 0 for a missing context or successor. */
  function Weight(c: Chain, k: Key, s: Succ): int {
    if k in c.table then Lookup(c.table[k], s) else 0
  }

  // ---------------------------------------------------------------- learning

  /** The number of adjacent pairs `learn` visits: `len(xs) - 1`, or none. */
  function Steps(xs: seq<Token>): nat {
    if |xs| < 2 then 0 else |xs| - 1
  }

  /** The context at position `i`. */
  function Pair(xs: seq<Token>, i: nat): Key
    requires i + 1 < |xs|
  {
    (xs[i], xs[i + 1])
  }

  /** The successor learned at position `i`: the token two ahead, or `None` at the last pair. */
  function Next(xs: seq<Token>, i: nat): Succ
    requires i + 1 < |xs|
  {
    if i + 2 < |xs| then Some(xs[i + 2]) else None
  }

  /**
   * One step of `learn`: create the context's counter if it is missing (the
   * key then joins the end of the key order) and add 1 to the successor.
   */
  function Bump(c: Chain, k: Key, s: Succ): Chain {
    var e := if k in c.table then c.table[k] else [];
    Chain(if k in c.table then c.order else c.order + [k],
          c.table[k := SetEntry(e, s, Lookup(e, s) + 1)])
  }

  /** The first `n` steps of `learn(xs)`. */
  function LearnUpTo(c: Chain, xs: seq<Token>, n: nat): Chain
    requires n <= Steps(xs)
  {
    if n == 0 then c
    else Bump(LearnUpTo(c, xs, n - 1), Pair(xs, n - 1), Next(xs, n - 1))
  }

  /** The whole of `learn`: one step for each adjacent pair of the message. */
  function Learn(c: Chain, xs: seq<Token>): Chain {
    LearnUpTo(c, xs, Steps(xs))
  }

  // ------------------------------------------------------ drawing and walking

  /** `random_select(key)` with the random integer `draw`. */
  function Select(t: Table, key: Key, draw: nat): Result<Succ, Fault> {
    if key !in t then Err(UnknownKey)
    else if Sum(t[key]) < 1 then Err(EmptyRange)
    else Ok(Pick(t[key], draw % Sum(t[key]), None))
  }

  /** Put `prefix` in front of the tokens of a walk that did not raise. */
  function Then(prefix: seq<Token>, r: Result<seq<Token>, Fault>): Result<seq<Token>, Fault> {
    match r
    case Ok(rest) => Ok(prefix + rest)
    case Err(f) => Err(f)
  }

  lemma ThenThen(a: seq<Token>, b: seq<Token>, r: Result<seq<Token>, Fault>)
    ensures Then(a, Then(b, r)) == Then(a + b, r)
  {
    if r.Ok? {
      assert a + (b + r.value) == (a + b) + r.value;
    }
  }

  /**
   * `emit(s)`: stop at a missing context or an empty counter; otherwise draw
   * a successor, stop on a falsy one, and else append it and move to the
   * context `(s[1], t)`. A walk whose draws run out stops where it is.
   */
  function Walk(t: Table, s: Key, draws: seq<nat>): Result<seq<Token>, Fault>
    decreases |draws|
  {
    if s !in t then Ok([])
    else if |t[s]| == 0 then Ok([])
    else if draws == [] then Ok([])
    else match Select(t, s, draws[0])
      case Err(f) => Err(f)
      case Ok(next) =>
        if Falsy(next) then Ok([])
        else Then([next.value], Walk(t, (s.1, next.value), draws[1..]))
  }

  /** The context a walk from `s` is at when it draws its `j`-th token. */
  function KeyAt(s: Key, ts: seq<Token>, j: nat): Key
    requires j <= |ts|
  {
    if j == 0 then s
    else if j == 1 then (s.1, ts[0])
    else (ts[j - 2], ts[j - 1])
  }

  // ------------------------------------------------------------------ seeding

  /** The contexts whose first token is a priority word, in the key order of the model. */
  function Candidates(order: seq<Key>, ys: Priority): seq<Key> {
    if order == [] then []
    else (if Contains(ys, order[0].0) then [order[0]] else []) + Candidates(order[1..], ys)
  }

  /** `random.choice(xs)` with the random integer `choice`; `None` where it raises on an empty list. */
  function Choose(xs: seq<Key>, choice: nat): Option<Key> {
    if xs == [] then None else Some(xs[choice % |xs|])
  }

  /** `seed(ys)`: a random choice among the candidates. */
  function SeedOf(c: Chain, ys: Priority, choice: nat): Option<Key> {
    Choose(Candidates(c.order, ys), choice)
  }
}
