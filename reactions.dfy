/** Message reactions, and `nth_letter`, which both bot generations define identically. */
module Reactions {

  /** `ReactionType` as the bot produces it: a custom guild emoji or a Unicode emoji. */
  datatype Reaction = Custom(name: string, id: nat) | Unicode(emoji: string)

  /**
   * The regional indicator for the `n`th letter of the alphabet: the single
   * code point U+1F1E6 + `n`. The source panics for `n` of 26 or more.
   */
  function NthLetter(n: nat): (r: Reaction)
    requires n < 26
    ensures r.Unicode? && |r.emoji| == 1 && r.emoji[0] as int == 0x1F1E6 + n
  {
    Unicode([(0x1F1E6 + n) as char])
  }

  /** Distinct letters give distinct reactions, so a poll's options never share one. */
  lemma NthLetterInjective(m: nat, n: nat)
    requires m < 26 && n < 26 && NthLetter(m) == NthLetter(n)
    ensures m == n
  {
    assert NthLetter(m).emoji[0] == NthLetter(n).emoji[0];
  }
}
