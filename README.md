# A verified model of the markov.py IRC bot

markov.py is a small IRC bot that talks back using order-2 Markov chains. It
does four things:

- It learns every message in two models: a forward one, and a reverse one fed
  the reversed words. Each model maps a context pair `(t1, t2)` to a `Counter`
  of the tokens that followed it, with `None` marking the end of a message.
- It seeds a reply at a context whose first word is a priority word. Priority
  words are the nouns of the message or, when it has none, all of its words.
- It walks the reverse model backwards from the seed and the forward model
  onwards.
- It makes fourteen such attempts and says the one whose noun-overlap score
  comes out smallest.

The model covers that core. Each part follows the shape of the code:

- **Classes with methods that change them.** `Counter` (counter.dfy), `Markov`
  (markov.dfy) and `Bot` (bot.dfy) update their fields in place:
  - dictionaries become `seq`/`map` fields;
  - the loops of `learn`, `random_select`, `emit`, `update` and `list.reverse()`
    become `while` loops with invariants.
- **Functions and lemmas for the pure parts.** The pure parts are prioritising,
  scoring, the `min` selection and the text helpers (scoring.dfy,
  irc_text.dfy).
- **A value-level specification.** Every method is proved against functions on
  values: `Learn`, `Select`, `Walk`, `SeedOf` (chain_spec.dfy), `Respond` and
  `Reply` (responses.dfy). The lemmas prove the program's properties about
  those functions (learn_props.dfy, walk_props.dfy, draws.dfy, responses.dfy).

Randomness is an input:

- `random.randint(0, n - 1)` is `draw % n` for a natural number `draw` the
  caller supplies.
- `random.choice(xs)` is `xs[choice % len(xs)]`.

Every outcome either call can produce is reached this way. One attempt at a
response consumes a `Roll`: a choice for the seed, plus one draw sequence for
each of the two walks.

A dictionary's iteration order matters in two places: `random_select` scans
counts in it, and `seed` filters `model.keys()` in it. The model therefore
keeps each dictionary's entries in an explicit order, and a key assigned for
the first time joins the end. A Python 2 dictionary neither promises that
order nor keeps keys in place when it grows. The content properties do not
depend on the order: counts, totals, the weighted draw, which contexts exist,
seeds, walks and replies. The clauses about positions describe only the
insertion order this model chose:
- `SetEntryAppends`, `SetEntryKeepsKeys`, and the order clause of
  `Counter.Update`;
- the order clauses of `AddContext`, `LearnKeys` and `LearnABC`.

Exceptions become values:

- `random_select` raising `KeyError` or `ValueError` is a `Fault`.
- `make_response` catching an exception returns `None`.

## Model

| member | source | states |
|---|---|---|
| Counters.Counter.constructor | markov.py:14-17 | `Counter()` has no entries and a total of 0, and keeps the total invariant |
| Counters.Counter.Get | markov.py:19-21 | `c[k]` is the stored count, and 0 for a key that is not stored |
| Counters.Counter.Set | markov.py:23-25 | `c[k] = v` stores `v` in the dictionary and moves the running total by `v - c[k]`; the total stays the sum of the counts |
| Counters.Counter.Total | markov.py:27-28 | `total()` is the sum of all stored counts |
| Counters.Counter.Update | markov.py:30-32 | after `update(m)`, the stored keys are the old ones plus every key of `m`, a count of 0 included; each key of `m` reads its new count and every other key reads as before; stored keys keep their place in the model's order; the total stays the sum |
| Counters.LookupMissing | markov.py:19-21 | a key that is not stored reads 0; a stored key reads the count stored with it |
| Counters.SetEntryLookup | markov.py:23-25 | after `c[k] = v`, `c[k]` reads `v` and every other key reads as before |
| Counters.SetEntrySum | markov.py:23-25 | `c[k] = v` changes the sum of the counts by exactly `v - c[k]`, which is what `__setitem__` adds to `total_count` |
| Counters.SetEntryAppends | markov.py:23-25 | assigning a key that is not stored appends it at the end of the model's insertion order |
| Counters.SetEntryKeepsKeys | markov.py:23-25 | assignment keeps every stored key in its place; the length grows only for a new key |
| Counters.SetEntryHasKey | markov.py:23-25 | after `c[k] = v`, the stored keys are the old ones and `k`, whatever `v` is |
| Counters.SetEntryDistinct | markov.py:23-25 | assignment keeps the keys pairwise distinct |
| Counters.SetEntryPositive | markov.py:52-54 | assigning a positive count keeps every count positive and the counter non-empty |
| Counters.LookupPositive | markov.py:19-21 | with positive counts, no key reads negative, and a key reads positive exactly when it is stored |
| Counters.SumPositive | markov.py:27-28 | with positive counts, the total is non-negative, and positive for a non-empty counter |
| Draws.Slot | markov.py:59-64 | for a counter whose counts are all positive and an index in `[0, total - 1]`, the scan of `random_select` returns the entry whose cumulative interval holds the index, and never runs off the end |
| Draws.HitsAreWeights | markov.py:59-64 | of the `total` possible indices, exactly `c[k]` make the scan return `k`: the draw is weighted by the counts |
| ChainSpec.Learn | markov.py:46-54 | definition of `learn` on values: one `Bump` per adjacent pair, the last pair counting `None`; its properties are the `LearnProps` rows |
| ChainSpec.Select | markov.py:59-64 | definition of `random_select` on values: `KeyError` for a missing context, `ValueError` for a total below 1, and otherwise the scan at `draw % total`; its properties are `SelectStored` and `SelectWeighted` |
| ChainSpec.Walk | markov.py:66-78 | definition of `emit` on values, one draw per step; its properties are the `WalkProps` rows |
| ChainSpec.Choose | markov.py:57 | definition of `random.choice`: the element at `choice % len`, or `None` on an empty list |
| ChainSpec.SeedOf | markov.py:56-57 | definition of `seed` on values: a random choice among the contexts whose first word is a priority word; its properties are `SeedSound`, `SeedUniform` and `SeedAt` |
| Chains.Markov.constructor | markov.py:35-41 | a model with nothing learned (the path where no pickle loads): empty chain, invariant established |
| Chains.Markov.AddContext | markov.py:49-50 | a missing context gets a new empty counter and joins the end of the key order; all else is unchanged |
| Chains.Markov.Increment | markov.py:51-54 | `self.model[k][s] += 1` on a stored context is one `Bump` of the chain; the other counters are unchanged |
| Chains.Markov.Bump | markov.py:48-54 | one loop step of `learn` (create the counter if missing, add 1) equals `ChainSpec.Bump` of the old chain |
| Chains.Markov.Learn | markov.py:46-54 | after `learn(xs)` the object holds `ChainSpec.Learn(old, xs)`; the invariant is kept, old contexts keep their counter objects, and new ones are fresh |
| Chains.Markov.Seed | markov.py:56-57 | `seed(ys)` is `SeedOf` of the held chain: a stored context whose first word is in `ys`, and `None` exactly when there is none |
| Chains.Markov.RandomSelect | markov.py:59-64 | the subtract-and-compare loop returns `Select` of the held table: the weighted scan, `KeyError` for a missing key, `ValueError` for a zero total |
| Chains.Markov.Emit | markov.py:66-78 | the `while` loop returns `Walk` of the held table from the start context with the given draws |
| LearnProps.BumpWeight | markov.py:49-54 | one step adds exactly 1 to `model[k][s]` and changes no other count |
| LearnProps.BumpTotal | markov.py:49-54 | one step adds exactly 1 to the weight of the whole table |
| LearnProps.BumpLive | markov.py:49-54 | one step keeps every context non-empty with positive counts |
| LearnProps.BumpWellFormed | markov.py:49-54 | one step keeps the key order duplicate-free and in step with the table, and every counter a dictionary |
| LearnProps.LearnWeight | markov.py:46-54 | `learn(xs)` adds to `model[k][s]` exactly the number of positions with context `k` and successor `s`, where the last pair's successor is `None` |
| LearnProps.LearnEveryPair | markov.py:46-54 | every adjacent pair becomes a context; its count for the following token grows by at least 1, and by exactly 1 when no other position repeats it |
| LearnProps.LearnKeys | markov.py:46-54 | the contexts afterwards are the old ones plus the adjacent pairs of `xs`; untouched contexts keep their counters, and the old key order is a prefix of the new one |
| LearnProps.LearnShort | markov.py:46-47 | a message of fewer than two tokens teaches nothing |
| LearnProps.LearnTotal | markov.py:46-54 | the table's total weight grows by exactly `len(xs) - 1`, or by 0 when `len(xs) < 2` |
| LearnProps.LearnLive | markov.py:46-54 | every context `learn` creates has a successor and a positive total, and a live model stays live |
| LearnProps.LearnWellFormed | markov.py:46-54 | `learn` keeps the key order and the counters well formed |
| LearnProps.LearnTwice | markov.py:46-54 | learning a message twice adds twice its transitions to every count |
| LearnProps.LearnABC | markov.py:46-54 | learning "a b c" from empty gives `{(a,b): {c: 1}, (b,c): {None: 1}}`, with the keys in that order |
| WalkProps.SelectStored | markov.py:59-64 | on a live table (every context non-empty with positive counts) and a stored context, `random_select` never raises and returns a stored successor whose cumulative interval holds the drawn index |
| WalkProps.SelectWeighted | markov.py:59-64 | of the `total` equally likely integers, exactly `model[key][s]` select `s` |
| WalkProps.WalkUnknown | markov.py:66-68 | `emit` from a context that is not in the model returns `[]` |
| WalkProps.WalkNeverFails | markov.py:66-78 | on a live model `emit` never raises |
| WalkProps.WalkSound | markov.py:66-78 | each emitted token is a stored successor of the context the walk was at, which moves to `(s[1], t)` after each token `t`; no token is falsy; there are at most as many tokens as draws |
| WalkProps.WalkStops | markov.py:66-78 | a walk on a live model ends only at an unknown context, on a falsy draw, or when the draws run out |
| WalkProps.WalkABC | markov.py:66-78 | after learning "a b c", the walk from `(a, b)` is `[c]` for any non-empty draw sequence; with no draws the fuel is spent and the walk is `[]` |
| WalkProps.CandidatesMembers | markov.py:57 | the filtered key list holds exactly the keys whose first word is a priority word, each once |
| WalkProps.SeedSound | markov.py:56-57 | a seed is a context of the model starting with a priority word, and seeding fails exactly when no such context exists |
| WalkProps.SeedUniform | markov.py:56-57 | every qualifying context is picked by exactly one choice below the list's length |
| WalkProps.SeedAt | markov.py:57 | a choice below the list's length picks the candidate at that position |
| Lists.Reverse | markov.py:176 | `reversed(words)` has the same length, with element `i` equal to element `len - 1 - i` of the input |
| Lists.ReverseReverse | markov.py:176 | reversing twice gives the list back |
| Lists.ReverseInPlace | markov.py:182 | `list.reverse()` leaves the array holding `Reverse` of its old contents |
| Lists.ReversedList | markov.py:181-182 | the list built from a walk and reversed in place is `Reverse` of the walk |
| Responses.Respond | markov.py:178-187 | definition of `make_response` on values: seed, walk back, reverse, walk on, and `None` where an exception is caught; its properties are the rows below |
| Responses.RespondMade | markov.py:178-184 | with a seed and two finished walks, the response is `reversed back walk + [s0, s1] + forward walk` |
| Responses.CandidateShape | markov.py:184 | a response has length `len(rev) + 2 + len(fwd)`, with the reversed back walk, the seed pair at index `len(rev)`, then the forward walk |
| Responses.CandidateLearned | markov.py:178-184 | on live models every part of a response was learned: the seed is a forward context starting with a priority word, and each walked token a stored successor of its context |
| Responses.RespondFailsIff | markov.py:179-187 | on live models `make_response` returns `None` exactly when no forward context starts with a priority word |
| Responses.LearnMirrored | markov.py:173-176 | after `Bot.learn`, every forward context `(a, b)` has `(b, a)` in the reverse model |
| Responses.MirroredSeed | markov.py:180-181 | on mirrored models the backward walk starts at a context of the reverse model |
| Responses.Tries | markov.py:147 | attempt `i` is the response made with roll `i`, one per roll |
| Responses.Reply | markov.py:147-159 | definition of the reply on values: `min` by score over the successful attempts; its properties are the next two rows |
| Responses.ReplyIsBestAttempt | markov.py:147-159 | the reply is the response of some attempt `i`; every successful attempt before `i` scores strictly higher, and no successful attempt scores lower |
| Responses.ReplySilentIff | markov.py:147-151 | on live models the bot stays silent exactly when no forward context starts with a priority word |
| Scoring.Prioritise | markov.py:206-211 | the priority words come from the message; they are the message's nouns when it has any, and all its words otherwise |
| Scoring.RatioBelowOne | markov.py:155-156 | with `m <= n`, the ratio `m / (n + 0.1)` lies in `[0, 1)` |
| Scoring.RatioNotIdeal | markov.py:153-156 | no whole numbers make `m / (n + 0.1)` equal to 0.8 |
| Scoring.Score | markov.py:154-158 | definition of `score`: the absolute value of `m / (n + 0.1) - 0.8`, where `n` counts the response's distinct nouns and `m` those that are priority words; its properties are `ScoreRange` and `ScoreOneNoun` |
| Scoring.ScoreRange | markov.py:153-158 | every score lies in `(0, 0.8]`, and is 0.8 exactly when no noun of the response is a priority word |
| Scoring.ScoreOneNoun | markov.py:154-158 | a response whose one noun is the priority word scores `6/55` |
| Scoring.Successful | markov.py:147 | the kept responses are exactly the non-empty ones that were made |
| Scoring.SuccessfulIsFilter | markov.py:147 | the kept list equals the left-to-right reference filter `Filter`, so attempt order and repetitions are kept |
| Scoring.SuccessfulOrigin | markov.py:147 | each kept response comes from an attempt, and every made response of an earlier attempt was kept at an earlier position |
| Scoring.FirstMin | markov.py:159 | `min` lands on a smallest score, and every earlier score is strictly larger |
| Scoring.BestIsFirstMinimum | markov.py:149-159 | there is a choice exactly when there is a candidate; the chosen one scores no worse than any, and strictly better than every earlier one |
| Scoring.Best | markov.py:159 | definition of `min(resps, key=score)`: the candidate at `FirstMin` of the scores, or nothing; its properties are the next rows |
| Scoring.BestAt | markov.py:159 | on a non-empty list, the choice sits at a position where every earlier candidate scores strictly higher and none scores lower |
| Scoring.BestAttempt | markov.py:147-159 | the choice among the made responses is the response of some attempt `i`, and every made response of an attempt before `i` scores strictly higher |
| Scoring.BestBeatsAttempts | markov.py:147-159 | no made response of any attempt scores lower than the choice |
| Scoring.BestTie | markov.py:159 | of two candidates with equal scores, the first is chosen |
| Bots.LearnBeside | markov.py:175-176 | one model learns while the other, which shares no counter with it, is left as it was |
| Bots.Bot.constructor | markov.py:113-119 | both models start empty (no pickle, no seed file), with the given nouns and the bot invariant (both models valid and live, mirrored, sharing no counter) |
| Bots.Bot.Learn | markov.py:173-176 | the forward model learns `words`, the reverse model learns `Reverse(words)`, and the two stay mirrored, separate and live |
| Bots.Bot.MakeResponse | markov.py:178-187 | seeding, the reverse walk, the in-place reversal and the forward walk give exactly `Respond` of the two models |
| Bots.Bot.MakeResponses | markov.py:147 | the fourteen calls give `Tries` of the two models, one per roll |
| Bots.Bot.Privmsg | markov.py:136-159 | learns the message in both models, then answers with `Reply`: the first best-scoring successful attempt, or nothing; it is silent exactly when no learned forward context starts with a priority word |
| IrcText.AddressMarkIsSubstring | markov.py:165 | the tokens accepted as an address mark are exactly the substrings of `":,"`, which is how Python's `in` works on strings |
| IrcText.DropAddress | markov.py:165-166 | a message of two or more tokens whose second token is a substring of `":,"` (Python's `in` on strings) loses its first two tokens; every other message is kept |
| IrcText.DropAddressExamples | markov.py:165-166 | "bot : hello there" becomes "hello there"; "hello , bot" loses its first two tokens; "hello bot ," is kept |
| IrcText.Join | markov.py:171 | definition of `' '.join(words)`; `JoinGlued` relates it to the reference text |
| IrcText.Unspace | markov.py:171 | definition of `s.replace(' ' + c, c)` as a left-to-right scan; its properties are the `Unspace*` rows |
| IrcText.ListToIrc | markov.py:169-171 | definition of `list_to_irc`: the join, then five replacements in the source's order; `ListToIrcGlues` states what it writes |
| IrcText.UnspaceConcat | markov.py:171 | `replace(' ' + c, c)` on two strings is the replacement on each when the first does not end in a space |
| IrcText.UnspaceWord | markov.py:171 | there is nothing to replace in a string without spaces |
| IrcText.UnspaceSep | markov.py:171 | the replacement removes the space before a word exactly when the word starts with `c` |
| IrcText.UnspaceGlues | markov.py:171 | each `replace(' ' + c, c)` also glues the words that start with `c` |
| IrcText.JoinGlued | markov.py:171 | `' '.join(words)` is the text with no character glued |
| IrcText.ListToIrcGlues | markov.py:169-171 | on space-free tokens, `list_to_irc` writes the words one space apart, with no space before a word starting with `, ? ! . :` |
| IrcText.ListToIrcExample | markov.py:169-171 | `["hello", ",", "world", "!"]` is written `"hello, world!"` |

## Left out

- IRC and Twisted are not modelled: `signedOn`, `joined`, `BotFactory`, the command line, `self.msg`, and the `!enable` and `!save` commands of `privmsg`. They are network I/O.
- Bots.Bot.Privmsg: the chance gate `random.uniform(0, 1) < should_respond` and the nickname bonus are not modelled. The method always takes the responding branch; the message is learned either way.
- Bots.Bot.Privmsg: the `'bot' in user` filter is not modelled. The method starts at the tokenised words and returns the chosen token list. The text sent is `IrcText.ListToIrc` of that list, and the two are not joined into one member.
- File and pickle I/O are not modelled: `Markov.__init__` loading a pickle, `Markov.save`, `BulkLoader`, `load_text` and `load_nouns`. The constructors model the state where no file was read, and the nouns are a constructor argument.
- The regular expression of `irc_to_list` is not modelled, since the model has no regular expressions. Only the address-dropping step after it is modelled (`IrcText.DropAddress`). `IrcText.Word` states what the tokens are assumed to look like.
- IrcText.ListToIrcGlues: proved only for tokens that are non-empty and contain no space. Other tokens can make `replace` act across word boundaries. `IrcText.ListToIrc` itself is defined for every list.
- `print` and the exception message in `make_response` are not modelled. The caught exception becomes `None`.
- Counters.Counter.Update: it takes a `map`, which is the `dict(*args, **kwargs)` it iterates. The keyword and iterable forms of the `Counter` constructor are not modelled; the bot only ever calls `Counter()`.
- Dictionary iteration order is not modelled as Python 2's hash order. The model uses insertion order: the content properties hold for any order, while the position clauses of `SetEntryAppends`, `SetEntryKeepsKeys`, `Counter.Update`, `AddContext`, `LearnKeys` and `LearnABC` describe only this chosen order.
- Chains.Markov.Emit: the walk consumes one draw per step and stops when the draws run out. Python's `while` loop has no such bound: a long enough draw sequence gives every walk Python can take, but the model cannot express a walk that never ends.
- Scoring.Score: computed in exact rationals (`real`), not in binary floating point. So rounding can neither tie nor separate two scores, and `ScoreRange` is proved for exact arithmetic.
- One `Roll` carries separate draw sequences for the backward walk and for the forward walk. Python draws both from one shared generator in turn; splitting the stream that way loses no outcome.
