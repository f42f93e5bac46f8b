/** Tokens and the priority words that steer generation. */
module Tokens {

  /** A word or punctuation mark, compared by value. */
  type Token = string

  /**
   * The priority words handed to seeding and scoring. `prioritise_words`
   * returns either the nouns of the message (a list made from a set, so in no
   * particular order) or the message's own word list; every consumer only asks
   * whether a token is among them.
   */
  datatype Priority = Nouns(nouns: set<Token>) | Words(words: seq<Token>)

  /** Python's `t in ys` on the priority list. */
  predicate Contains(p: Priority, t: Token) {
    match p
    case Nouns(s) => t in s
    case Words(w) => t in w
  }
}
