/**
 * The `Bot` of markov.py as far as it speaks: a forward and a reverse
 * `Markov` model trained together, the set of known nouns, the assembly of
 * one response and the choice of the best of fourteen.
 */
module Bots {
  import opened Wrappers
  import opened Tokens
  import opened ChainSpec
  import opened Chains
  import opened Lists
  import opened Scoring
  import opened Responses
  import LearnProps

  /**
   * `m.learn(xs)` for one of two models that share no counter: the other
   * model, its counters included, is left as it was.
   */
  method LearnBeside(m: Markov, other: Markov, xs: seq<Token>)
    requires m != other && m.Valid() && other.Valid() && m.model.Values !! other.model.Values
    modifies m, m.model.Values
    ensures m.Valid() && other.Valid() && m.model.Values !! other.model.Values
    ensures m.Abs() == ChainSpec.Learn(old(m.Abs()), xs)
    ensures other.Abs() == old(other.Abs())
  {
    m.Learn(xs);
  }

  class Bot {
    var forward: Markov
    var reverse: Markov
    var nouns: set<Token>

    /**
     * Both models are valid and live, they are two objects that share no
     * counter, and every forward context has its turned-round pair in the
     * reverse model.
     */
    ghost predicate Valid()
      reads this, forward, reverse, forward.model.Values, reverse.model.Values
    {
      && forward != reverse
      && forward.Valid() && reverse.Valid()
      && Disjoint()
      && Live(forward.Abs().table) && Live(reverse.Abs().table)
      && Mirrored(forward.Abs(), reverse.Abs())
    }

    /** No counter object belongs to both models. */
    ghost predicate Disjoint()
      reads this, forward, reverse
    {
      forward.model.Values !! reverse.model.Values
    }

    /** A bot with the given nouns and nothing learned (no model file and no seed text were read). */
    constructor (nouns: set<Token>)
      ensures Valid()
      ensures forward.Abs() == Empty && reverse.Abs() == Empty && this.nouns == nouns
    {
      forward := new Markov();
      reverse := new Markov();
      this.nouns := nouns;
    }

    /** `learn(words)`: the forward model learns the words, the reverse model the reversed words. */
    method Learn(words: seq<Token>)
      requires Valid()
      modifies forward, reverse, forward.model.Values, reverse.model.Values
      ensures Valid()
      ensures forward.Abs() == ChainSpec.Learn(old(forward.Abs()), words)
      ensures reverse.Abs() == ChainSpec.Learn(old(reverse.Abs()), Reverse(words))
    {
      ghost var f0, r0 := forward.Abs(), reverse.Abs();
      LearnBeside(forward, reverse, words);
      LearnBeside(reverse, forward, Reverse(words));
      LearnMirrored(f0, r0, words);
      LearnProps.LearnLive(f0, words);
      LearnProps.LearnLive(r0, Reverse(words));
    }

    /**
     * `make_response(words)`: seed the forward model, walk the reverse model
     * from the turned-round seed and reverse that walk in place, then walk
     * the forward model from the seed; `None` where the source's `try`
     * catches an exception.
     */
    method MakeResponse(pri: Priority, roll: Roll) returns (r: Option<seq<Token>>)
      requires forward.Valid() && reverse.Valid()
      ensures r == Respond(forward.Abs(), reverse.Abs(), pri, roll)
    {
      ghost var f, b := forward.Abs(), reverse.Abs();
      var seed := forward.Seed(pri, roll.choice);
      assert seed == SeedOf(f, pri, roll.choice);
      if seed.None? {
        assert Respond(f, b, pri, roll) == None;
        return None;
      }
      var s := seed.value;
      var back := reverse.Emit((s.1, s.0), roll.back);
      assert forward.Abs() == f && reverse.Abs() == b;
      assert back == Walk(b.table, (s.1, s.0), roll.back);
      if back.Err? {
        assert Respond(f, b, pri, roll) == None;
        return None;
      }
      var rev := ReversedList(back.value);
      assert forward.Abs() == f;
      var ahead := forward.Emit(s, roll.ahead);
      assert ahead == Walk(f.table, s, roll.ahead);
      if ahead.Err? {
        assert Respond(f, b, pri, roll) == None;
        return None;
      }
      assert forward.Abs() == f && reverse.Abs() == b;
      RespondMade(f, b, pri, roll, s, back.value, ahead.value);
      return Some(rev + [s.0, s.1] + ahead.value);
    }

    /** The attempts of `privmsg`: one call of `make_response` per roll, kept in order. */
    method MakeResponses(pri: Priority, rolls: seq<Roll>) returns (attempts: seq<Option<seq<Token>>>)
      requires forward.Valid() && reverse.Valid()
      ensures attempts == Tries(forward.Abs(), reverse.Abs(), pri, rolls)
    {
      attempts := [];
      var i := 0;
      while i < |rolls|
        invariant 0 <= i <= |rolls|
        invariant |attempts| == i
        invariant forall j | 0 <= j < i :: attempts[j] == Respond(forward.Abs(), reverse.Abs(), pri, rolls[j])
      {
        var resp := MakeResponse(pri, rolls[i]);
        attempts := attempts + [resp];
        i := i + 1;
      }
    }

    /**
     * The speaking part of `privmsg(user, channel, msg)`, for the words of
     * the message and one roll per attempt: learn the words, prioritise
     * them, make fourteen responses, drop the failed and empty ones and
     * answer with the one `min` picks by score, or with nothing.
     */
    method Privmsg(words: seq<Token>, rolls: seq<Roll>) returns (r: Option<seq<Token>>)
      requires Valid() && |rolls| == Attempts
      modifies forward, reverse, forward.model.Values, reverse.model.Values
      ensures Valid()
      ensures forward.Abs() == ChainSpec.Learn(old(forward.Abs()), words)
      ensures reverse.Abs() == ChainSpec.Learn(old(reverse.Abs()), Reverse(words))
      ensures r == Reply(forward.Abs(), reverse.Abs(), Prioritise(words, nouns), nouns, rolls)
      ensures r.None? <==> forall k | k in forward.Abs().table :: !Contains(Prioritise(words, nouns), k.0)
    {
      Learn(words);
      ghost var f, b := forward.Abs(), reverse.Abs();
      var pri := Prioritise(words, nouns);
      assert WellFormed(f) && Live(f.table) && Live(b.table) by {
        forward.AbsWellFormed();
      }
      ReplySilentIff(f, b, pri, nouns, rolls);
      var attempts := MakeResponses(pri, rolls);
      var resps := Successful(attempts);
      if |resps| == 0 {
        return None;
      }
      return Best(resps, pri, nouns);
    }
  }
}
