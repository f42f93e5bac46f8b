/**
 * Choosing what to say: `prioritise_words`, the noun-overlap `score` of a
 * candidate response and the `min` that picks the best of the candidates in
 * `privmsg`. The score is computed in exact `real` arithmetic.
 */
module Scoring {
  import opened Wrappers
  import opened Tokens

  /** The target ratio of priority nouns to nouns; a candidate scores its distance from it. */
  const IdealScore: real := 0.8

  /** Added to the noun count so that a response without nouns does not divide by zero. */
  const Offset: real := 0.1

  /** How many responses `privmsg` asks `make_response` for (`xrange(1, 15)`). */
  const Attempts: nat := 14

  /**
   * `prioritise_words(words)`: the distinct words that are nouns, when there
   * are any; otherwise the list of words itself.
   */
  function Prioritise(words: seq<Token>, nouns: set<Token>): (p: Priority)
    ensures forall t :: Contains(p, t) ==> t in words
    ensures (exists w | w in words :: w in nouns) ==>
      p.Nouns? && forall t :: Contains(p, t) <==> t in words && t in nouns
    ensures (forall w | w in words :: w !in nouns) ==> p == Words(words)
  {
    var common := set w | w in words && w in nouns;
    if |common| > 0 then Nouns(common)
    else
      assert forall w | w in words :: w !in nouns by {
        forall w | w in words ensures w !in nouns {
          assert w in nouns ==> w in common;
        }
      }
      Words(words)
  }

  /** The distinct tokens of a response that are known nouns. */
  function NounsIn(resp: seq<Token>, nouns: set<Token>): set<Token> {
    set t | t in resp && t in nouns
  }

  /** The nouns of a response that are also priority words. */
  function Matching(resp: seq<Token>, pri: Priority, nouns: set<Token>): set<Token> {
    set t | t in NounsIn(resp, nouns) && Contains(pri, t)
  }

  /** The absolute value of a real. */
  function Magnitude(x: real): real {
    if x < 0.0 then -x else x
  }

  /**
   * The score of a candidate: how far the share of its nouns that are priority
   * words (with 0.1 added to the noun count) lies from the target ratio.
   */
  function Score(resp: seq<Token>, pri: Priority, nouns: set<Token>): real {
    Magnitude((|Matching(resp, pri, nouns)| as real) / (|NounsIn(resp, nouns)| as real + Offset) - IdealScore)
  }

  lemma SubsetSize<T>(a: set<T>, b: set<T>)
    requires a <= b
    ensures |a| <= |b|
  {
    assert b == a + (b - a);
  }

  /** With `m <= n` matching nouns, the ratio `m / (n + 0.1)` lies in `[0, 1)`. */
  lemma RatioBelowOne(m: nat, n: nat)
    requires m <= n
    ensures 0.0 <= (m as real) / (n as real + Offset) < 1.0
  {
    var d := n as real + Offset;
    var q := (m as real) / d;
    assert q * d == m as real;
    assert m as real < d;
    if q >= 1.0 {
      MulMono(q, 1.0, d);
      assert false;
    }
    if q < 0.0 {
      MulMono(0.0, q, d);
      assert false;
    }
  }

  lemma MulMono(x: real, y: real, d: real)
    requires x >= y && d > 0.0
    ensures x * d >= y * d
  {
    assert x * d - y * d == (x - y) * d;
  }

  /** `25 m - 20 n` is a multiple of 5, so it is never 2. */
  lemma NoWholeSolution(m: nat, n: nat)
    ensures 25 * m != 20 * n + 2
  {
    var d := 5 * m - 4 * n;
    assert 25 * m - 20 * n == 5 * d;
  }

  /** No whole numbers make `m / (n + 0.1)` equal to 0.8: that needs `25 m == 20 n + 2`. */
  lemma RatioNotIdeal(m: nat, n: nat)
    ensures (m as real) / (n as real + Offset) != IdealScore
  {
    var d := n as real + Offset;
    var q := (m as real) / d;
    assert q * d == m as real;
    NoWholeSolution(m, n);
    assert q == IdealScore ==> (25 * m) as real == (20 * n + 2) as real;
  }

  /**
   * Every score lies in `(0, 0.8]`. It is 0.8, the worst, exactly when no
   * noun of the response is a priority word, and it is never 0: no whole
   * numbers `m <= n` make `m / (n + 0.1)` equal to 0.8.
   */
  lemma ScoreRange(resp: seq<Token>, pri: Priority, nouns: set<Token>)
    ensures 0.0 < Score(resp, pri, nouns) <= IdealScore
    ensures Score(resp, pri, nouns) == IdealScore <==> Matching(resp, pri, nouns) == {}
  {
    var m, n := |Matching(resp, pri, nouns)|, |NounsIn(resp, nouns)|;
    SubsetSize(Matching(resp, pri, nouns), NounsIn(resp, nouns));
    RatioBelowOne(m, n);
    RatioNotIdeal(m, n);
    var q := (m as real) / (n as real + Offset);
    if Matching(resp, pri, nouns) != {} {
      assert m >= 1;
      assert q > 0.0;
    }
  }

  /** A response whose one noun is the priority word scores `|1 / 1.1 - 0.8| = 6 / 55`. */
  lemma ScoreOneNoun()
    ensures Score(["the", "dog", "barks"], Nouns({"dog"}), {"dog", "cat"}) == 6.0 / 55.0
  {
    var resp := ["the", "dog", "barks"];
    assert NounsIn(resp, {"dog", "cat"}) == {"dog"} by {
      assert resp[1] == "dog";
      forall t | t in NounsIn(resp, {"dog", "cat"}) ensures t == "dog" {
        assert t in resp;
      }
    }
    assert Matching(resp, Nouns({"dog"}), {"dog", "cat"}) == {"dog"};
    assert |{"dog"}| == 1;
    assert 1.0 / (1.0 + Offset) - IdealScore == 6.0 / 55.0;
  }

  // ---------------------------------------------------------------- selection

  /** The responses that were made and are not empty, in attempt order (a Python `None` or `[]` is dropped). */
  function Successful(attempts: seq<Option<seq<Token>>>): (r: seq<seq<Token>>)
    ensures |r| <= |attempts|
    ensures forall x | x in r :: x != [] && Some(x) in attempts
    ensures forall i | 0 <= i < |attempts| && attempts[i].Some? && attempts[i].value != [] :: attempts[i].value in r
  {
    if attempts == [] then []
    else
      var init := attempts[..|attempts| - 1];
      var last := attempts[|attempts| - 1];
      var rest := Successful(init);
      assert forall i | 0 <= i < |init| :: init[i] == attempts[i];
      assert forall x | Some(x) in init :: Some(x) in attempts;
      if last.Some? && last.value != [] then rest + [last.value] else rest
  }

  /** A response that counts as true in Python: it was made and is not empty. */
  predicate Made(a: Option<seq<Token>>) {
    a.Some? && a.value != []
  }

  /** The reference filter: scan the attempts from the first and keep each made response. */
  function Filter(attempts: seq<Option<seq<Token>>>): seq<seq<Token>> {
    if attempts == [] then []
    else (if Made(attempts[0]) then [attempts[0].value] else []) + Filter(attempts[1..])
  }

  lemma {:induction false} FilterAppend(a: seq<Option<seq<Token>>>, x: Option<seq<Token>>)
    ensures Filter(a + [x]) == Filter(a) + (if Made(x) then [x.value] else [])
    decreases |a|
  {
    if a == [] {
      assert [x][1..] == [];
    } else {
      assert (a + [x])[1..] == a[1..] + [x];
      FilterAppend(a[1..], x);
    }
  }

  /** `Successful` keeps the made responses in order and with their repetitions: it is the reference filter. */
  lemma {:induction false} SuccessfulIsFilter(attempts: seq<Option<seq<Token>>>)
    ensures Successful(attempts) == Filter(attempts)
    decreases |attempts|
  {
    if attempts != [] {
      var init, last := attempts[..|attempts| - 1], attempts[|attempts| - 1];
      SuccessfulIsFilter(init);
      FilterAppend(init, last);
      assert init + [last] == attempts;
    }
  }

  /**
   * Each kept response comes from an attempt, and every made response of an
   * earlier attempt was kept at an earlier position.
   */
  lemma {:induction false} SuccessfulOrigin(attempts: seq<Option<seq<Token>>>, p: nat)
    requires p < |Successful(attempts)|
    ensures exists i | 0 <= i < |attempts| ::
      && attempts[i] == Some(Successful(attempts)[p])
      && forall j | 0 <= j < i && Made(attempts[j]) ::
           exists q | 0 <= q < p :: Successful(attempts)[q] == attempts[j].value
    decreases |attempts|
  {
    var r := Successful(attempts);
    var init, last := attempts[..|attempts| - 1], attempts[|attempts| - 1];
    var rest := Successful(init);
    assert forall i | 0 <= i < |init| :: init[i] == attempts[i];
    if p < |rest| {
      SuccessfulOrigin(init, p);
      var i :| 0 <= i < |init| && init[i] == Some(rest[p])
        && forall j | 0 <= j < i && Made(init[j]) :: exists q | 0 <= q < p :: rest[q] == init[j].value;
      assert r[p] == rest[p];
      forall j | 0 <= j < i && Made(attempts[j]) ensures exists q | 0 <= q < p :: r[q] == attempts[j].value {
        var q :| 0 <= q < p && rest[q] == init[j].value;
        assert r[q] == rest[q];
      }
    } else {
      var i := |attempts| - 1;
      assert r == rest + [last.value] && p == |rest|;
      forall j | 0 <= j < i && Made(attempts[j]) ensures exists q | 0 <= q < p :: r[q] == attempts[j].value {
        assert init[j].Some? && init[j].value != [];
        var q :| 0 <= q < |rest| && rest[q] == init[j].value;
        assert r[q] == rest[q];
      }
    }
  }

  /**
   * The position `min` returns: it keeps the first score and moves on only
   * to a strictly smaller one, so it lands on the first minimum.
   */
  function FirstMin(s: seq<real>): (i: nat)
    requires s != []
    ensures i < |s|
    ensures forall j | 0 <= j < |s| :: s[i] <= s[j]
    ensures forall j | 0 <= j < i :: s[j] > s[i]
  {
    if |s| == 1 then 0
    else
      var j := FirstMin(s[..|s| - 1]);
      assert forall k | 0 <= k < |s| - 1 :: s[..|s| - 1][k] == s[k];
      if s[|s| - 1] < s[j] then |s| - 1 else j
  }

  /** The score of each candidate, in order. */
  function Scores(resps: seq<seq<Token>>, pri: Priority, nouns: set<Token>): (s: seq<real>)
    ensures |s| == |resps|
    ensures forall i | 0 <= i < |resps| :: s[i] == Score(resps[i], pri, nouns)
  {
    seq(|resps|, i requires 0 <= i < |resps| => Score(resps[i], pri, nouns))
  }

  /** The candidate `min` picks by score, or nothing to say when there is no candidate. */
  function Best(resps: seq<seq<Token>>, pri: Priority, nouns: set<Token>): Option<seq<Token>> {
    if resps == [] then None else Some(resps[FirstMin(Scores(resps, pri, nouns))])
  }

  /**
   * The chosen response is a candidate whose score no candidate beats, and
   * every candidate before it scores strictly worse; there is a choice
   * exactly when there is a candidate.
   */
  lemma BestIsFirstMinimum(resps: seq<seq<Token>>, pri: Priority, nouns: set<Token>)
    ensures Best(resps, pri, nouns).None? <==> resps == []
    ensures Best(resps, pri, nouns).Some? ==>
      exists i | 0 <= i < |resps| ::
        && resps[i] == Best(resps, pri, nouns).value
        && (forall j | 0 <= j < |resps| :: Score(resps[i], pri, nouns) <= Score(resps[j], pri, nouns))
        && (forall j | 0 <= j < i :: Score(resps[j], pri, nouns) > Score(resps[i], pri, nouns))
  {
    if resps != [] {
      var i := FirstMin(Scores(resps, pri, nouns));
      assert resps[i] == Best(resps, pri, nouns).value;
    }
  }

  /** The position of the chosen candidate: every candidate before it scores strictly worse. */
  lemma BestAt(resps: seq<seq<Token>>, pri: Priority, nouns: set<Token>) returns (p: nat)
    requires resps != []
    ensures p < |resps| && Best(resps, pri, nouns) == Some(resps[p])
    ensures forall j | 0 <= j < p :: Score(resps[j], pri, nouns) > Score(resps[p], pri, nouns)
    ensures forall j | 0 <= j < |resps| :: Score(resps[p], pri, nouns) <= Score(resps[j], pri, nouns)
  {
    p := FirstMin(Scores(resps, pri, nouns));
  }

  /**
   * `min` over the made responses, seen from the attempts: the choice is the
   * response of one attempt, and every made response of an earlier attempt
   * scores strictly worse.
   */
  lemma BestAttempt(attempts: seq<Option<seq<Token>>>, pri: Priority, nouns: set<Token>)
    requires Best(Successful(attempts), pri, nouns).Some?
    ensures var b := Best(Successful(attempts), pri, nouns).value;
      exists i | 0 <= i < |attempts| ::
        && attempts[i] == Some(b)
        && forall j | 0 <= j < i && Made(attempts[j]) :: Score(attempts[j].value, pri, nouns) > Score(b, pri, nouns)
  {
    var resps := Successful(attempts);
    var p := BestAt(resps, pri, nouns);
    var b := resps[p];
    SuccessfulOrigin(attempts, p);
    var i :| 0 <= i < |attempts| && attempts[i] == Some(b)
      && forall j | 0 <= j < i && Made(attempts[j]) :: exists q | 0 <= q < p :: resps[q] == attempts[j].value;
    forall j | 0 <= j < i && Made(attempts[j]) ensures Score(attempts[j].value, pri, nouns) > Score(b, pri, nouns) {
      var q :| 0 <= q < p && resps[q] == attempts[j].value;
    }
  }

  /** No made response of any attempt scores better than the choice. */
  lemma BestBeatsAttempts(attempts: seq<Option<seq<Token>>>, pri: Priority, nouns: set<Token>)
    requires Best(Successful(attempts), pri, nouns).Some?
    ensures var b := Best(Successful(attempts), pri, nouns).value;
      forall i | 0 <= i < |attempts| && Made(attempts[i]) :: Score(b, pri, nouns) <= Score(attempts[i].value, pri, nouns)
  {
    var resps := Successful(attempts);
    var p := BestAt(resps, pri, nouns);
    forall a | 0 <= a < |attempts| && Made(attempts[a]) ensures Score(resps[p], pri, nouns) <= Score(attempts[a].value, pri, nouns) {
      assert attempts[a].value in resps;
    }
  }

  /** Of two candidates that score the same, the earlier one is chosen. */
  lemma BestTie(a: seq<Token>, b: seq<Token>, pri: Priority, nouns: set<Token>)
    requires Score(a, pri, nouns) == Score(b, pri, nouns)
    ensures Best([a, b], pri, nouns) == Some(a)
  {
    var s := Scores([a, b], pri, nouns);
    assert s[0] == s[1];
  }
}
