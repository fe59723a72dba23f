/**
 * The player-name patterns of the Minecraft log classifier, written by hand.
 *
 * Every pattern of the form `^pre([A-Za-z0-9_]{3,16})sep…` whose separator
 * starts with a non-word character has exactly one way to match: the name is
 * the maximal run of word characters after `pre`. `MatchNameBetween` computes
 * that run; the lemmas show it finds exactly the decompositions the pattern
 * admits.
 */
module ChatPatterns {
  import opened Wrappers
  import opened Text

  /** The marker newer servers put before chat they could not verify. */
  const NotSecure: string := "[Not Secure] "

  /** `^pre([A-Za-z0-9_]{3,16})sep(rest)`: the name capture and what follows `sep`. */
  function MatchNameBetween(s: string, pre: string, sep: string): Option<(string, string)> {
    if !(pre <= s) then None
    else
      var k := Run(s[|pre|..], IsWordChar);
      if k < 3 || k > 16 || !(sep <= s[|pre| + k..]) then None
      else Some((s[|pre|..|pre| + k], s[|pre| + k + |sep|..]))
  }

  lemma MatchNameBetweenSound(s: string, pre: string, sep: string, name: string, rest: string)
    requires MatchNameBetween(s, pre, sep) == Some((name, rest))
    ensures IsPlayerName(name) && s == pre + name + sep + rest
  {
    var t := s[|pre|..];
    var k := Run(t, IsWordChar);
    assert name == t[..k];
    assert t[k..] == sep + rest;
    assert t == name + t[k..];
    assert s == pre + t;
  }

  lemma MatchNameBetweenComplete(pre: string, sep: string, name: string, rest: string)
    requires sep != [] && !IsWordChar(sep[0])
    requires IsPlayerName(name)
    ensures MatchNameBetween(pre + name + sep + rest, pre, sep) == Some((name, rest))
  {
    var s := pre + name + sep + rest;
    assert s[|pre|..] == name + (sep + rest);
    RunAfter(name, sep + rest, IsWordChar);
    assert s[|pre| + |name|..] == sep + rest;
    assert s[|pre|..|pre| + |name|] == name;
    assert s[|pre| + |name| + |sep|..] == rest;
  }

  /** A name-pattern match, stated without reference to the matcher. */
  predicate IsNameBetween(s: string, pre: string, sep: string, name: string, rest: string) {
    IsPlayerName(name) && s == pre + name + sep + rest
  }

  lemma MatchNameBetweenCorrect(s: string, pre: string, sep: string, name: string, rest: string)
    requires sep != [] && !IsWordChar(sep[0])
    ensures MatchNameBetween(s, pre, sep) == Some((name, rest)) <==> IsNameBetween(s, pre, sep, name, rest)
  {
    if MatchNameBetween(s, pre, sep) == Some((name, rest)) {
      MatchNameBetweenSound(s, pre, sep, name, rest);
    }
    if IsNameBetween(s, pre, sep, name, rest) {
      MatchNameBetweenComplete(pre, sep, name, rest);
    }
  }

  /** The parts of a name-pattern match, located in the matched string. */
  lemma NameBetweenSplit(s: string, pre: string, sep: string, name: string, rest: string)
    requires sep != [] && !IsWordChar(sep[0])
    requires IsNameBetween(s, pre, sep, name, rest)
    ensures s[..|pre|] == pre
    ensures Run(s[|pre|..], IsWordChar) == |name|
    ensures s[|pre| + |name|..] == sep + rest
  {
    MatchNameBetweenComplete(pre, sep, name, rest);
    assert s[|pre| + |name|..] == sep + rest;
  }

  /** `^<([A-Za-z0-9_]{3,16})> (.+)$` with these captures. */
  predicate IsChat(t: string, sender: string, msg: string) {
    IsNameBetween(t, "<", "> ", sender, msg) && IsLineRest(msg)
  }

  /** `^\* ([A-Za-z0-9_]{3,16}) (.+)$` with these captures. */
  predicate IsAction(t: string, sender: string, msg: string) {
    IsNameBetween(t, "* ", " ", sender, msg) && IsLineRest(msg)
  }

  /** The chat pattern's captures, if it matches. */
  function MatchChat(t: string): (r: Option<(string, string)>)
    ensures r.Some? ==> IsChat(t, r.value.0, r.value.1)
  {
    match MatchNameBetween(t, "<", "> ")
    case None => None
    case Some((sender, msg)) =>
      MatchNameBetweenSound(t, "<", "> ", sender, msg);
      if IsLineRest(msg) then Some((sender, msg)) else None
  }

  /** The action pattern's captures, if it matches. */
  function MatchAction(t: string): (r: Option<(string, string)>)
    ensures r.Some? ==> IsAction(t, r.value.0, r.value.1)
  {
    match MatchNameBetween(t, "* ", " ")
    case None => None
    case Some((sender, msg)) =>
      MatchNameBetweenSound(t, "* ", " ", sender, msg);
      if IsLineRest(msg) then Some((sender, msg)) else None
  }

  /** The chat matcher finds exactly the chat decompositions. */
  lemma MatchChatCorrect(t: string, sender: string, msg: string)
    ensures MatchChat(t) == Some((sender, msg)) <==> IsChat(t, sender, msg)
  {
    MatchNameBetweenCorrect(t, "<", "> ", sender, msg);
  }

  /** The action matcher finds exactly the action decompositions. */
  lemma MatchActionCorrect(t: string, sender: string, msg: string)
    ensures MatchAction(t) == Some((sender, msg)) <==> IsAction(t, sender, msg)
  {
    MatchNameBetweenCorrect(t, "* ", " ", sender, msg);
  }

  /** Chat starts with `<`, action chat with `*`. */
  lemma ChatActionStart(t: string, sender: string, msg: string)
    ensures IsChat(t, sender, msg) ==> |t| > 0 && t[0] == '<'
    ensures IsAction(t, sender, msg) ==> |t| > 0 && t[0] == '*'
  {
  }

  /** No chat match means no chat decomposition at all. */
  lemma MatchChatNone(t: string)
    ensures MatchChat(t).None? <==> forall sender, msg :: !IsChat(t, sender, msg)
  {
    if MatchChat(t).Some? {
      MatchChatCorrect(t, MatchChat(t).value.0, MatchChat(t).value.1);
    }
    forall sender, msg | IsChat(t, sender, msg) ensures MatchChat(t).Some? {
      MatchChatCorrect(t, sender, msg);
    }
  }

  lemma MatchActionNone(t: string)
    ensures MatchAction(t).None? <==> forall sender, msg :: !IsAction(t, sender, msg)
  {
    if MatchAction(t).Some? {
      MatchActionCorrect(t, MatchAction(t).value.0, MatchAction(t).value.1);
    }
    forall sender, msg | IsAction(t, sender, msg) ensures MatchAction(t).Some? {
      MatchActionCorrect(t, sender, msg);
    }
  }
}
