/**
 * How the bot answers, as values: `make_response` seeds the forward model,
 * walks the reverse model backwards from the seed and the forward model
 * onwards, and `privmsg` keeps the best of fourteen such attempts.
 */
module Responses {
  import opened Wrappers
  import opened Tokens
  import opened Counters
  import opened ChainSpec
  import opened Lists
  import opened Scoring
  import WalkProps
  import LearnProps

  /**
   * The random numbers one `make_response` consumes: the `random.choice`
   * of the seed, then the draws of the backward walk and of the forward walk.
   */
  datatype Roll = Roll(choice: nat, back: seq<nat>, ahead: seq<nat>)

  /**
   * `make_response(words)`: `rev + [s[0], s[1]] + fwd` for the seed `s`, the
   * reversed walk `rev` of the reverse model from `(s[1], s[0])` and the
   * walk `fwd` of the forward model from `s`; `None` when seeding or a walk
   * raises.
   */
  function Respond(fwd: Chain, rev: Chain, pri: Priority, roll: Roll): Option<seq<Token>> {
    match SeedOf(fwd, pri, roll.choice)
    case None => None
    case Some(s) =>
      match Walk(rev.table, (s.1, s.0), roll.back)
      case Err(_) => None
      case Ok(back) =>
        match Walk(fwd.table, s, roll.ahead)
        case Err(_) => None
        case Ok(ahead) => Some(Reverse(back) + [s.0, s.1] + ahead)
  }

  /** The response made from a seed and two finished walks. */
  lemma RespondMade(fwd: Chain, rev: Chain, pri: Priority, roll: Roll, s: Key, back: seq<Token>, ahead: seq<Token>)
    requires SeedOf(fwd, pri, roll.choice) == Some(s)
    requires Walk(rev.table, (s.1, s.0), roll.back) == Ok(back)
    requires Walk(fwd.table, s, roll.ahead) == Ok(ahead)
    ensures Respond(fwd, rev, pri, roll) == Some(Reverse(back) + [s.0, s.1] + ahead)
  {
  }

  /**
   * A response is the reversed backward walk, the seed pair, then the forward
   * walk: its length is `len(rev) + 2 + len(fwd)`, with the seed at index
   * `len(rev)`. It is never empty.
   */
  lemma CandidateShape(fwd: Chain, rev: Chain, pri: Priority, roll: Roll)
    requires Respond(fwd, rev, pri, roll).Some?
    ensures SeedOf(fwd, pri, roll.choice).Some?
    ensures var s := SeedOf(fwd, pri, roll.choice).value;
      && Walk(rev.table, (s.1, s.0), roll.back).Ok?
      && Walk(fwd.table, s, roll.ahead).Ok?
      && var back, ahead, c := Walk(rev.table, (s.1, s.0), roll.back).value,
                               Walk(fwd.table, s, roll.ahead).value,
                               Respond(fwd, rev, pri, roll).value;
         && |c| == |back| + 2 + |ahead|
         && c[..|back|] == Reverse(back)
         && c[|back|] == s.0 && c[|back| + 1] == s.1
         && c[|back| + 2..] == ahead
  {
    var s := SeedOf(fwd, pri, roll.choice).value;
    var back := Walk(rev.table, (s.1, s.0), roll.back).value;
    var ahead := Walk(fwd.table, s, roll.ahead).value;
    var c := Respond(fwd, rev, pri, roll).value;
    assert c == Reverse(back) + [s.0, s.1] + ahead;
    assert c[..|back|] == Reverse(back);
    assert c[|back| + 2..] == ahead;
  }

  /**
   * On live models every part of a response was learned: the seed is a
   * context of the forward model that starts with a priority word, each
   * forward token is a stored successor of the forward context it was drawn
   * at, and each backward token a stored successor of the reverse context.
   */
  lemma CandidateLearned(fwd: Chain, rev: Chain, pri: Priority, roll: Roll)
    requires WellFormed(fwd) && Live(fwd.table) && Live(rev.table)
    requires Respond(fwd, rev, pri, roll).Some?
    ensures var s := SeedOf(fwd, pri, roll.choice).value;
      && s in fwd.table && Contains(pri, s.0)
      && var back, ahead := Walk(rev.table, (s.1, s.0), roll.back).value, Walk(fwd.table, s, roll.ahead).value;
         && (forall j | 0 <= j < |ahead| :: KeyAt(s, ahead, j) in fwd.table && Holds(fwd.table[KeyAt(s, ahead, j)], Some(ahead[j])))
         && (forall j | 0 <= j < |back| ::
               KeyAt((s.1, s.0), back, j) in rev.table && Holds(rev.table[KeyAt((s.1, s.0), back, j)], Some(back[j])))
  {
    CandidateShape(fwd, rev, pri, roll);
    var s := SeedOf(fwd, pri, roll.choice).value;
    WalkProps.SeedSound(fwd, pri, roll.choice);
    WalkProps.WalkSound(fwd.table, s, roll.ahead);
    WalkProps.WalkSound(rev.table, (s.1, s.0), roll.back);
  }

  /**
   * On live models `make_response` fails exactly when no context of the
   * forward model starts with a priority word.
   */
  lemma RespondFailsIff(fwd: Chain, rev: Chain, pri: Priority, roll: Roll)
    requires WellFormed(fwd) && Live(fwd.table) && Live(rev.table)
    ensures Respond(fwd, rev, pri, roll).None? <==> forall k | k in fwd.table :: !Contains(pri, k.0)
  {
    WalkProps.SeedSound(fwd, pri, roll.choice);
    if SeedOf(fwd, pri, roll.choice).Some? {
      var s := SeedOf(fwd, pri, roll.choice).value;
      WalkProps.WalkNeverFails(rev.table, (s.1, s.0), roll.back);
      WalkProps.WalkNeverFails(fwd.table, s, roll.ahead);
    }
  }

  // ------------------------------------------------------------ the two models

  /** Every context `(a, b)` of the forward model has `(b, a)` in the reverse model. */
  ghost predicate Mirrored(fwd: Chain, rev: Chain) {
    forall k | k in fwd.table :: (k.1, k.0) in rev.table
  }

  /**
   * `Bot.learn` keeps the models mirrored: the reverse model learns the
   * reversed words, so each pair it learns is a forward pair turned round.
   */
  lemma LearnMirrored(fwd: Chain, rev: Chain, xs: seq<Token>)
    requires Mirrored(fwd, rev)
    ensures Mirrored(Learn(fwd, xs), Learn(rev, Reverse(xs)))
  {
    var ys := Reverse(xs);
    LearnProps.LearnKeys(fwd, xs);
    LearnProps.LearnKeys(rev, ys);
    forall k | k in Learn(fwd, xs).table ensures (k.1, k.0) in Learn(rev, ys).table {
      if k !in fwd.table {
        var i :| 0 <= i < Steps(xs) && Pair(xs, i) == k;
        var j := |xs| - 2 - i;
        assert Pair(ys, j) == (k.1, k.0);
      }
    }
  }

  /** On mirrored models, the backward walk of a response starts at a context of the reverse model. */
  lemma MirroredSeed(fwd: Chain, rev: Chain, pri: Priority, choice: nat)
    requires WellFormed(fwd) && Mirrored(fwd, rev) && SeedOf(fwd, pri, choice).Some?
    ensures var s := SeedOf(fwd, pri, choice).value; (s.1, s.0) in rev.table
  {
    WalkProps.SeedSound(fwd, pri, choice);
  }

  // ------------------------------------------------------------------ replying

  /** The attempts of `privmsg`: one response made per roll, in order. */
  function Tries(fwd: Chain, rev: Chain, pri: Priority, rolls: seq<Roll>): (r: seq<Option<seq<Token>>>)
    ensures |r| == |rolls|
    ensures forall i | 0 <= i < |rolls| :: r[i] == Respond(fwd, rev, pri, rolls[i])
  {
    seq(|rolls|, i requires 0 <= i < |rolls| => Respond(fwd, rev, pri, rolls[i]))
  }

  /** What `privmsg` says: the best successful attempt, or nothing. */
  function Reply(fwd: Chain, rev: Chain, pri: Priority, nouns: set<Token>, rolls: seq<Roll>): Option<seq<Token>> {
    Best(Successful(Tries(fwd, rev, pri, rolls)), pri, nouns)
  }

  /**
   * The reply is the response of one of the attempts, no successful attempt
   * scores better, and every successful attempt before it scores strictly
   * worse: `min` keeps the first of the best.
   */
  lemma ReplyIsBestAttempt(fwd: Chain, rev: Chain, pri: Priority, nouns: set<Token>, rolls: seq<Roll>)
    requires Reply(fwd, rev, pri, nouns, rolls).Some?
    ensures exists i | 0 <= i < |rolls| ::
      && Respond(fwd, rev, pri, rolls[i]) == Reply(fwd, rev, pri, nouns, rolls)
      && forall j | 0 <= j < i && Respond(fwd, rev, pri, rolls[j]).Some? ::
           Score(Respond(fwd, rev, pri, rolls[j]).value, pri, nouns) > Score(Reply(fwd, rev, pri, nouns, rolls).value, pri, nouns)
    ensures forall i | 0 <= i < |rolls| && Respond(fwd, rev, pri, rolls[i]).Some? ::
      Score(Reply(fwd, rev, pri, nouns, rolls).value, pri, nouns) <= Score(Respond(fwd, rev, pri, rolls[i]).value, pri, nouns)
  {
    var tries := Tries(fwd, rev, pri, rolls);
    BestAttempt(tries, pri, nouns);
    BestBeatsAttempts(tries, pri, nouns);
    var b := Reply(fwd, rev, pri, nouns, rolls).value;
    var i :| 0 <= i < |tries| && tries[i] == Some(b)
      && forall j | 0 <= j < i && Made(tries[j]) :: Score(tries[j].value, pri, nouns) > Score(b, pri, nouns);
    forall j | 0 <= j < i && tries[j].Some? ensures Score(tries[j].value, pri, nouns) > Score(b, pri, nouns) {
      CandidateShape(fwd, rev, pri, rolls[j]);
      assert Made(tries[j]);
    }
    forall a | 0 <= a < |rolls| && tries[a].Some? ensures Score(b, pri, nouns) <= Score(tries[a].value, pri, nouns) {
      CandidateShape(fwd, rev, pri, rolls[a]);
      assert Made(tries[a]);
    }
  }

  /**
   * On live models the bot stays silent exactly when no context of the
   * forward model starts with a priority word: each attempt then fails, and
   * otherwise every attempt succeeds with a non-empty response.
   */
  lemma ReplySilentIff(fwd: Chain, rev: Chain, pri: Priority, nouns: set<Token>, rolls: seq<Roll>)
    requires WellFormed(fwd) && Live(fwd.table) && Live(rev.table) && rolls != []
    ensures Reply(fwd, rev, pri, nouns, rolls).None? <==> forall k | k in fwd.table :: !Contains(pri, k.0)
  {
    var tries := Tries(fwd, rev, pri, rolls);
    var resps := Successful(tries);
    BestIsFirstMinimum(resps, pri, nouns);
    RespondFailsIff(fwd, rev, pri, rolls[0]);
    if tries[0].Some? {
      CandidateShape(fwd, rev, pri, rolls[0]);
      assert tries[0].value in resps;
    } else {
      forall i | 0 <= i < |rolls| ensures tries[i].None? {
        RespondFailsIff(fwd, rev, pri, rolls[i]);
      }
      assert resps == [];
    }
  }
}
