/**
 * The text around the token lists: `irc_to_list` drops a leading address
 * (`nick: ...`) after tokenising, and `list_to_irc` joins tokens with spaces
 * and then removes the space before each of `, ? ! . :`.
 */
module IrcText {
  import opened Tokens

  // ---------------------------------------------------------------- irc_to_list

  /** The tokens that occur in the string ":,", the empty one included. */
  predicate AddressMark(w: Token) {
    w == "" || w == ":" || w == "," || w == ":,"
  }

  /** Python's `w in s` on two strings: `w` occurs in `s` as a contiguous slice. */
  predicate Substring(w: string, s: string) {
    exists i, j | 0 <= i <= j <= |s| :: s[i..j] == w
  }

  /** The tokens `AddressMark` accepts are exactly the substrings of ":,". */
  lemma AddressMarkIsSubstring(w: Token)
    ensures AddressMark(w) <==> Substring(w, ":,")
  {
    if AddressMark(w) {
      AddressMarkSlice(w);
    }
    if Substring(w, ":,") {
      var i, j :| 0 <= i <= j <= 2 && ":,"[i..j] == w;
      SliceMark(i, j);
    }
  }

  lemma AddressMarkSlice(w: Token)
    requires AddressMark(w)
    ensures Substring(w, ":,")
  {
    var s := ":,";
    if w == "" {
      assert s[0..0] == w;
    } else if w == ":" {
      assert s[0..1] == w;
    } else if w == "," {
      assert s[1..2] == w;
    } else {
      assert s[0..2] == w;
    }
  }

  lemma SliceMark(i: nat, j: nat)
    requires i <= j <= 2
    ensures AddressMark(":,"[i..j])
  {
    var s := ":,";
    var w := s[i..j];
    if i == j {
      assert w == "";
    } else if j - i == 2 {
      assert w == s;
    } else if i == 0 {
      assert w == [s[0]];
    } else {
      assert w == [s[1]];
    }
  }

  /**
   * The step after tokenising: a message of two or more tokens whose second
   * token occurs in the string ":," (an address such as `nick:`) loses its
   * first two tokens.
   */
  function DropAddress(words: seq<Token>): (r: seq<Token>)
    ensures |words| > 1 && Substring(words[1], ":,") ==> r == words[2..]
    ensures !(|words| > 1 && Substring(words[1], ":,")) ==> r == words
  {
    if |words| > 1 then
      AddressMarkIsSubstring(words[1]);
      if AddressMark(words[1]) then words[2..] else words
    else words
  }

  /**
   * "bot: hello there" loses the address; "hello, bot" also loses its first
   * two tokens, since its second token is ","; "hello bot ," is kept.
   */
  lemma DropAddressExamples()
    ensures DropAddress(["bot", ":", "hello", "there"]) == ["hello", "there"]
    ensures DropAddress(["hello", ",", "bot"]) == ["hello", ",", "bot"][2..]
    ensures DropAddress(["hello", "bot", ","]) == ["hello", "bot", ","]
  {
  }

  // ---------------------------------------------------------------- list_to_irc

  /** The tokens written one after another with a single space between neighbours. */
  function Join(words: seq<Token>): string {
    if words == [] then ""
    else if |words| == 1 then words[0]
    else Join(words[..|words| - 1]) + " " + words[|words| - 1]
  }

  /**
   * Python's replacement of every space followed by `c` with `c` alone:
   * scan from the left and replace each occurrence, none overlapping one
   * already replaced.
   */
  function Unspace(s: string, c: char): string
    decreases |s|
  {
    if |s| < 2 then s
    else if s[0] == ' ' && s[1] == c then [c] + Unspace(s[2..], c)
    else [s[0]] + Unspace(s[1..], c)
  }

  /** `list_to_irc(words)`: join, then glue `,`, `?`, `!`, `.` and `:` to the word before. */
  function ListToIrc(words: seq<Token>): string {
    Unspace(Unspace(Unspace(Unspace(Unspace(Join(words), ','), '?'), '!'), '.'), ':')
  }

  /** The characters `list_to_irc` glues to the preceding word. */
  const Punctuation: set<char> := {',', '?', '!', '.', ':'}

  /** A token as `irc_to_list` produces them: not empty, and without a space. */
  predicate Word(w: Token) {
    w != [] && ' ' !in w
  }

  /** The separator before a word after the first: none when the word starts with a glued character. */
  function Sep(w: Token, glue: set<char>): string
    requires w != []
  {
    if w[0] in glue then "" else " "
  }

  /**
   * The reference text: the words side by side, with one space before each
   * word except a word that starts with a character of `glue`.
   */
  function Glued(words: seq<Token>, glue: set<char>): string
    requires forall i | 0 <= i < |words| :: Word(words[i])
  {
    if words == [] then ""
    else if |words| == 1 then words[0]
    else
      var w := words[|words| - 1];
      assert Word(w);
      Glued(words[..|words| - 1], glue) + Sep(w, glue) + w
  }

  lemma GluedLast(words: seq<Token>, glue: set<char>)
    requires |words| > 1 && forall i | 0 <= i < |words| :: Word(words[i])
    ensures var init, w := words[..|words| - 1], words[|words| - 1];
      Glued(words, glue) == Glued(init, glue) + (Sep(w, glue) + w)
  {
    var init, w := words[..|words| - 1], words[|words| - 1];
    assert Glued(init, glue) + Sep(w, glue) + w == Glued(init, glue) + (Sep(w, glue) + w);
  }

  lemma GluedEnd(words: seq<Token>, glue: set<char>)
    requires words != [] && forall i | 0 <= i < |words| :: Word(words[i])
    ensures Glued(words, glue) != []
    ensures Glued(words, glue)[|Glued(words, glue)| - 1] != ' '
  {
    var w := words[|words| - 1];
    assert w[|w| - 1] in w;
  }

  /** A replacement on two strings that no occurrence straddles is a replacement on each. */
  lemma {:induction false} UnspaceConcat(a: string, b: string, c: char)
    requires a == [] || a[|a| - 1] != ' '
    ensures Unspace(a + b, c) == Unspace(a, c) + Unspace(b, c)
    decreases |a|
  {
    if a == [] {
      assert a + b == b;
    } else if |a| == 1 {
      UnspaceOne(a, b, c);
    } else if a[0] == ' ' && a[1] == c {
      assert a[2..] == [] || a[2..][|a[2..]| - 1] == a[|a| - 1];
      UnspaceConcat(a[2..], b, c);
      UnspaceMatch(a, b, c);
    } else {
      assert a[1..][|a[1..]| - 1] == a[|a| - 1];
      UnspaceConcat(a[1..], b, c);
      UnspaceSkip(a, b, c);
    }
  }

  lemma Assoc<T>(x: seq<T>, y: seq<T>, z: seq<T>)
    ensures x + (y + z) == (x + y) + z
  {
  }

  lemma UnspaceOne(a: string, b: string, c: char)
    requires |a| == 1 && a[0] != ' '
    ensures Unspace(a + b, c) == Unspace(a, c) + Unspace(b, c)
  {
    var ab := a + b;
    if b == [] {
      assert ab == a;
    } else {
      assert ab[0] == a[0] && ab[1..] == b;
    }
  }

  lemma UnspaceMatch(a: string, b: string, c: char)
    requires |a| >= 2 && a[0] == ' ' && a[1] == c
    requires Unspace(a[2..] + b, c) == Unspace(a[2..], c) + Unspace(b, c)
    ensures Unspace(a + b, c) == Unspace(a, c) + Unspace(b, c)
  {
    var ab := a + b;
    assert Unspace(ab, c) == [c] + Unspace(a[2..] + b, c) by {
      assert ab[0] == ' ' && ab[1] == c && ab[2..] == a[2..] + b;
    }
    Assoc([c], Unspace(a[2..], c), Unspace(b, c));
  }

  lemma UnspaceSkip(a: string, b: string, c: char)
    requires |a| >= 2 && !(a[0] == ' ' && a[1] == c)
    requires Unspace(a[1..] + b, c) == Unspace(a[1..], c) + Unspace(b, c)
    ensures Unspace(a + b, c) == Unspace(a, c) + Unspace(b, c)
  {
    var ab := a + b;
    assert Unspace(ab, c) == [a[0]] + Unspace(a[1..] + b, c) by {
      assert ab[0] == a[0] && ab[1] == a[1] && ab[1..] == a[1..] + b;
    }
    Assoc([a[0]], Unspace(a[1..], c), Unspace(b, c));
  }

  /** A word holds no space, so there is nothing to replace in it. */
  lemma {:induction false} UnspaceWord(w: string, c: char)
    requires ' ' !in w
    ensures Unspace(w, c) == w
    decreases |w|
  {
    if |w| >= 2 {
      assert w[0] in w;
      assert forall x | x in w[1..] :: x in w;
      UnspaceWord(w[1..], c);
    }
  }

  /** Replacing `' ' + c` by `c` in a separator and its word glues the word when it starts with `c`. */
  lemma UnspaceSep(w: Token, glue: set<char>, c: char, more: set<char>)
    requires Word(w) && more == glue + {c}
    ensures Unspace(Sep(w, glue) + w, c) == Sep(w, more) + w
  {
    var sep := Sep(w, glue);
    var sw := sep + w;
    UnspaceWord(w, c);
    if sep == " " {
      assert sw[0] == ' ' && sw[1] == w[0] && sw[1..] == w;
      if w[0] == c {
        assert sw[2..] == w[1..];
        assert forall x | x in w[1..] :: x in w;
        UnspaceWord(w[1..], c);
        assert [c] + w[1..] == w;
      }
    } else {
      assert sw == w;
    }
  }

  /** Glueing one more character: `replace(' ' + c, c)` drops the space before each word starting with `c`. */
  lemma {:induction false} UnspaceGlues(words: seq<Token>, glue: set<char>, c: char, more: set<char>)
    requires forall i | 0 <= i < |words| :: Word(words[i])
    requires more == glue + {c}
    ensures Unspace(Glued(words, glue), c) == Glued(words, more)
    decreases |words|
  {
    if |words| == 1 {
      UnspaceWord(words[0], c);
    } else if |words| > 1 {
      var init, w := words[..|words| - 1], words[|words| - 1];
      assert forall i | 0 <= i < |init| :: init[i] == words[i];
      UnspaceGlues(init, glue, c, more);
      GluedEnd(init, glue);
      GluedLast(words, glue);
      GluedLast(words, more);
      UnspaceConcat(Glued(init, glue), Sep(w, glue) + w, c);
      UnspaceSep(w, glue, c, more);
    }
  }

  /** `' '.join` is the text with no character glued. */
  lemma {:induction false} JoinGlued(words: seq<Token>)
    requires forall i | 0 <= i < |words| :: Word(words[i])
    ensures Join(words) == Glued(words, {})
    decreases |words|
  {
    if |words| > 1 {
      var init := words[..|words| - 1];
      assert forall i | 0 <= i < |init| :: init[i] == words[i];
      JoinGlued(init);
    }
  }

  /**
   * On the tokens `irc_to_list` makes, `list_to_irc` writes the words
   * separated by single spaces, except that a word starting with one of
   * `, ? ! . :` follows the previous word directly.
   */
  lemma ListToIrcGlues(words: seq<Token>)
    requires forall i | 0 <= i < |words| :: Word(words[i])
    ensures ListToIrc(words) == Glued(words, Punctuation)
  {
    var g1, g2, g3, g4 := {','}, {',', '?'}, {',', '?', '!'}, {',', '?', '!', '.'};
    JoinGlued(words);
    UnspaceGlues(words, {}, ',', g1);
    UnspaceGlues(words, g1, '?', g2);
    UnspaceGlues(words, g2, '!', g3);
    UnspaceGlues(words, g3, '.', g4);
    UnspaceGlues(words, g4, ':', Punctuation);
  }

  /** "hello , world !" is written "hello, world!". */
  lemma ListToIrcExample(w4: seq<Token>)
    requires w4 == ["hello", ",", "world", "!"]
    ensures ListToIrc(w4) == "hello, world!"
  {
    var w2, w3 := ["hello", ","], ["hello", ",", "world"];
    assert forall i | 0 <= i < |w4| :: Word(w4[i]);
    ListToIrcGlues(w4);
    assert Sep(",", Punctuation) == "" && Sep("world", Punctuation) == " " && Sep("!", Punctuation) == "";
    assert w2[..1] == ["hello"] && w3[..2] == w2 && w4[..3] == w3;
    GluedLast(w2, Punctuation);
    assert Glued(w2, Punctuation) == "hello,";
    GluedLast(w3, Punctuation);
    assert Glued(w3, Punctuation) == "hello," + (" " + "world");
    GluedLast(w4, Punctuation);
    assert Glued(w4, Punctuation) == "hello, world" + ("" + "!");
  }
}
