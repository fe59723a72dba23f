/**
 * The decision rules of the newer generation's commands: `iam` and `iamn`
 * (self-assignable roles), `ping`, `poll`, `update` and `veto`. Discord,
 * database and random-number results are parameters; what a command does is
 * returned as the replies, reactions and role changes it makes.
 */
module Commands {
  import opened Wrappers
  import opened Text
  import opened Reactions
  import opened Messages
  import PartEmoji
  import CommandParse
  import DiscordRelay

  // ---------------------------------------------------------------------
  // iam / iamn
  // ---------------------------------------------------------------------

  /** A role command's reply and the member's roles afterwards. */
  datatype RoleReply = RoleReply(reply: string, roles: set<nat>)

  /** `iam`: the role is added exactly when it is self-assignable and not yet held. */
  function Iam(selfAssignable: set<nat>, roles: set<nat>, role: nat): (r: RoleReply)
    ensures r.roles == if role in selfAssignable then roles + {role} else roles
    ensures r.reply == "role added" <==> role in selfAssignable && role !in roles
    ensures role !in selfAssignable ==> r.reply == "this role is not self-assignable"
  {
    if role !in selfAssignable then RoleReply("this role is not self-assignable", roles)
    else if role in roles then RoleReply("you already have this role", roles)
    else RoleReply("role added", roles + {role})
  }

  /** `iamn`: the role is removed exactly when it is self-assignable and currently held. */
  function Iamn(selfAssignable: set<nat>, roles: set<nat>, role: nat): (r: RoleReply)
    ensures r.roles == if role in selfAssignable then roles - {role} else roles
    ensures r.reply == "role removed" <==> role in selfAssignable && role in roles
    ensures role !in selfAssignable ==> r.reply == "this role is not self-assignable"
  {
    if role !in selfAssignable then RoleReply("this role is not self-assignable", roles)
    else if role !in roles then RoleReply("you already don't have this role", roles)
    else RoleReply("role removed", roles - {role})
  }

  /** Asking twice changes nothing the second time. */
  lemma IamIdempotent(selfAssignable: set<nat>, roles: set<nat>, role: nat)
    ensures Iam(selfAssignable, Iam(selfAssignable, roles, role).roles, role).roles == Iam(selfAssignable, roles, role).roles
    ensures Iam(selfAssignable, Iam(selfAssignable, roles, role).roles, role).reply != "role added"
    ensures Iamn(selfAssignable, Iamn(selfAssignable, roles, role).roles, role).roles == Iamn(selfAssignable, roles, role).roles
    ensures Iamn(selfAssignable, Iamn(selfAssignable, roles, role).roles, role).reply != "role removed"
  {
  }

  /** `iamn` undoes an `iam` that added a role, and `iam` undoes an `iamn` that removed one. */
  lemma IamIamnInverse(selfAssignable: set<nat>, roles: set<nat>, role: nat)
    ensures Iam(selfAssignable, roles, role).reply == "role added" ==>
      Iamn(selfAssignable, Iam(selfAssignable, roles, role).roles, role) == RoleReply("role removed", roles)
    ensures Iamn(selfAssignable, roles, role).reply == "role removed" ==>
      Iam(selfAssignable, Iamn(selfAssignable, roles, role).roles, role) == RoleReply("role added", roles)
  {
    if role in selfAssignable && role !in roles {
      assert roles + {role} - {role} == roles;
    }
    if role in selfAssignable && role in roles {
      assert roles - {role} + {role} == roles;
    }
  }

  // ---------------------------------------------------------------------
  // ping
  // ---------------------------------------------------------------------

  /** The rare reply: `BWO`, `k` times `R`, `m` times `N`, then `G`. */
  function Pingception(k: nat, m: nat): (r: string)
    ensures |r| == 4 + k + m && r[..3] == "BWO" && r[|r| - 1] == 'G'
    ensures forall i :: 3 <= i < 3 + k ==> r[i] == 'R'
    ensures forall i :: 3 + k <= i < 3 + k + m ==> r[i] == 'N'
  {
    "BWO" + Repeat('R', k) + Repeat('N', m) + "G"
  }

  /** `ping`; `rare` is the outcome of the biased coin, `k` and `m` the two range draws. */
  function Ping(rare: bool, k: nat, m: nat): (r: string)
    requires 3 <= k < 20 && 1 <= m < 5
    ensures r == "pong" <==> !rare
    ensures rare ==> r == Pingception(k, m)
  {
    if rare then Pingception(k, m) else "pong"
  }

  /** The rare reply determines both draws. */
  lemma PingceptionInjective(k: nat, m: nat, k': nat, m': nat)
    requires 1 <= m && 1 <= m'
    requires Pingception(k, m) == Pingception(k', m')
    ensures k == k' && m == m'
  {
    var r := Pingception(k, m);
    RsThenN(k, m);
    RsThenN(k', m');
  }

  function IsR(c: char): bool { c == 'R' }

  /** The `R`s of a rare reply form the maximal run after `BWO`. */
  lemma RsThenN(k: nat, m: nat)
    requires 1 <= m
    ensures Run(Pingception(k, m)[3..], IsR) == k
  {
    var r := Pingception(k, m);
    assert r[3..] == Repeat('R', k) + (Repeat('N', m) + "G");
    RunAfter(Repeat('R', k), Repeat('N', m) + "G", IsR);
  }

  /** Every reply is `pong` or a rare reply within the draw ranges, 8 to 27 characters long. */
  lemma PingReplies(rare: bool, k: nat, m: nat)
    requires 3 <= k < 20 && 1 <= m < 5
    ensures Ping(rare, k, m) == "pong" || (8 <= |Ping(rare, k, m)| <= 27 && Ping(rare, k, m)[..3] == "BWO")
  {
  }

  // ---------------------------------------------------------------------
  // poll
  // ---------------------------------------------------------------------

  /** `u8::from_str`: an optional `+`, then at least one decimal digit, with a value below 256. */
  function ParseU8(s: string): (r: Option<nat>)
    ensures r.Some? ==> r.value < 256
  {
    var digits := if |s| > 0 && s[0] == '+' then s[1..] else s;
    if digits == [] || !AllDigits(digits) || DecimalValue(digits) >= 256 then None
    else Some(DecimalValue(digits))
  }

  /** Every byte value parses back from its decimal text, with or without `+`. */
  lemma ParseU8RoundTrip(n: nat)
    requires n < 256
    ensures ParseU8(NatToDecimal(n)) == Some(n)
    ensures ParseU8("+" + NatToDecimal(n)) == Some(n)
  {
    DecimalValueOfDecimal(n);
    assert ("+" + NatToDecimal(n))[1..] == NatToDecimal(n);
  }

  /** A parse succeeds only on an optionally signed digit string of that value. */
  lemma ParseU8Sound(s: string, n: nat)
    requires ParseU8(s) == Some(n)
    ensures exists sign, digits :: ((sign == "" || sign == "+") && s == sign + digits && digits != []
      && AllDigits(digits) && DecimalValue(digits) == n)
  {
    if |s| > 0 && s[0] == '+' {
      assert s == "+" + s[1..];
    } else {
      assert s == "" + s;
    }
  }

  /** A negative sign, or nothing at all, is never a byte. */
  lemma ParseU8Rejects(s: string)
    ensures ParseU8("-" + s).None?
    ensures ParseU8("").None? && ParseU8("+").None?
  {
    assert !IsDigit(("-" + s)[0]);
  }

  function Min(a: nat, b: nat): nat { if a < b then a else b }

  /** The regional indicators for the first `k` letters, in order. */
  function Letters(k: nat): (r: seq<Reaction>)
    requires k <= 26
    ensures |r| == k
    ensures forall i :: 0 <= i < k ==> r[i] == NthLetter(i)
  {
    if k == 0 then [] else Letters(k - 1) + [NthLetter(k - 1)]
  }

  /** The letter reactions are pairwise distinct. */
  lemma LettersDistinct(k: nat, i: nat, j: nat)
    requires k <= 26 && i < k && j < k && Letters(k)[i] == Letters(k)[j]
    ensures i == j
  {
    NthLetterInjective(i, j);
  }

  const ThumbsUp: Reaction := Unicode("\U{1F44D}")
  const ThumbsDown: Reaction := Unicode("\U{1F44E}")

  /**
   * The reactions `poll` adds, in order: the message's emoji if it has any;
   * otherwise as many letters as a byte-valued first argument says, at most
   * 26; otherwise thumbs up and thumbs down.
   */
  function PollReactions(emoji: seq<Reaction>, arg: Option<string>): seq<Reaction> {
    if emoji != [] then emoji
    else if arg.Some? && ParseU8(arg.value).Some? then Letters(Min(ParseU8(arg.value).value, 26))
    else [ThumbsUp, ThumbsDown]
  }

  /** The three cases of a poll, each stated on its own. */
  lemma PollCases(emoji: seq<Reaction>, arg: Option<string>, n: nat)
    ensures emoji != [] ==> PollReactions(emoji, arg) == emoji
    ensures emoji == [] && arg.Some? && ParseU8(arg.value) == Some(n) ==>
      |PollReactions(emoji, arg)| == Min(n, 26) <= 26
      && forall i :: 0 <= i < |PollReactions(emoji, arg)| ==> PollReactions(emoji, arg)[i] == NthLetter(i)
    ensures emoji == [] && (arg.None? || ParseU8(arg.value).None?) ==> PollReactions(emoji, arg) == [ThumbsUp, ThumbsDown]
  {
  }

  /** The reactions of the letter loop for a number argument of `n`: at most 26 letters, in order. */
  method ReactLetters(n: nat) returns (reactions: seq<Reaction>)
    ensures reactions == Letters(Min(n, 26))
  {
    reactions := [];
    for i := 0 to Min(n, 26)
      invariant reactions == Letters(i)
    {
      reactions := reactions + [NthLetter(i)];
    }
  }

  /** `poll` on a message given as its parts: peeks at the emoji iterator, then reacts. */
  method Poll(msg: PartEmoji.Part, arg: Option<string>) returns (reactions: seq<Reaction>)
    ensures reactions == PollReactions(PartEmoji.Emojis(msg), arg)
  {
    var it := new PartEmoji.Iter(msg);
    var emoji := it.Next();
    if emoji.Some? {
      reactions := [];
      while emoji.Some?
        invariant emoji.Some? ==> reactions + [emoji.value] + PartEmoji.Emojis(it.part) == PartEmoji.Emojis(msg)
        invariant emoji.None? ==> reactions == PartEmoji.Emojis(msg)
        decreases |PartEmoji.Emojis(it.part)| + (if emoji.Some? then 1 else 0)
      {
        reactions := reactions + [emoji.value];
        emoji := it.Next();
      }
    } else {
      var n := if arg.Some? then ParseU8(arg.value) else None;
      if n.Some? {
        reactions := ReactLetters(n.value);
      } else {
        reactions := [ThumbsUp, ThumbsDown];
      }
    }
  }

  // ---------------------------------------------------------------------
  // quit / update
  // ---------------------------------------------------------------------

  /** An interaction response: its content and whether only the caller sees it. */
  datatype Response = Response(content: seq<Segment>, ephemeral: bool)

  /** `quit`: answer, then shut down (`shutDown`); only administrators may call it. */
  datatype QuitOutcome = QuitOutcome(responses: seq<Response>, shutDown: bool)

  function Quit(isAdmin: bool): (r: QuitOutcome)
    ensures r.shutDown <==> isAdmin
    ensures isAdmin ==> |r.responses| == 1 && Raw(r.responses[0].content) == "shutting down…"
  {
    if isAdmin then QuitOutcome([Response([Plain("shutting down…")], false)], true) else QuitOutcome([], false)
  }

  /** A failed world update: its `Display` and `Debug` texts. */
  datatype UpdateError = UpdateError(display: string, debug: string)

  /** The world updated, if any, and the responses sent. */
  datatype UpdateOutcome = UpdateOutcome(updated: Option<string>, responses: seq<Response>)

  const NoWorld: string := "This channel has no associated Minecraft world."

  /** The reply after the update finished. */
  function UpdateReply(result: Result<(), UpdateError>): (r: seq<Segment>)
    ensures result.Ok? <==> Raw(r) == "Done!"
    ensures result.Err? ==> Raw(r) == "World update error: " + result.error.display + " (" + result.error.debug + ")"
  {
    match result
    case Ok(_) => [Plain("Done!")]
    case Err(e) =>
      var head := [Plain("World update error: "), Safe(e.display)];
      var tail := [Plain(" ("), MonoSafe(e.debug), Plain(")")];
      RawAppend(head, tail);
      assert Raw(tail) == Raw(tail[..2]) + ")";
      assert head + tail == [Plain("World update error: "), Safe(e.display), Plain(" ("), MonoSafe(e.debug), Plain(")")];
      assert Raw(head + tail)[0] == 'W';
      head + tail
  }

  /**
   * `update` in `channel`: the world mapped to the channel, if any, is
   * updated; `update` gives the outcome of updating a world by name.
   */
  function Update(worlds: DiscordRelay.WorldChannels, channel: nat, update: string -> Result<(), UpdateError>): (r: UpdateOutcome)
    ensures r.updated == DiscordRelay.WorldFor(worlds, channel)
    ensures r.updated.None? ==> r.responses == [Response([Plain(NoWorld)], true)]
    ensures r.updated.Some? ==> (|r.responses| == 2 && !r.responses[0].ephemeral && !r.responses[1].ephemeral
      && Raw(r.responses[0].content) == "Updating " + r.updated.value + " world…"
      && (update(r.updated.value).Ok? <==> Raw(r.responses[1].content) == "Done!")
      && r.responses[1].content == UpdateReply(update(r.updated.value)))
  {
    match DiscordRelay.WorldFor(worlds, channel)
    case None => UpdateOutcome(None, [Response([Plain(NoWorld)], true)])
    case Some(world) =>
      var first := [Plain("Updating "), Safe(world), Plain(" world…")];
      assert Raw(first) == "Updating " + world + " world…";
      UpdateOutcome(Some(world), [Response(first, false), Response(UpdateReply(update(world)), false)])
  }

  // ---------------------------------------------------------------------
  // veto
  // ---------------------------------------------------------------------

  /** `invite for <who> has been vetoed`. */
  function VetoText(who: Segment): (r: seq<Segment>)
    ensures Raw(r) == "invite for " + who.text + " has been vetoed"
  {
    var r := [Plain("invite for "), who, Plain(" has been vetoed")];
    assert Raw(r) == Raw(r[..2]) + " has been vetoed";
    r
  }

  /** The vetoed party can be read back from the message text. */
  lemma VetoTextInjective(a: Segment, b: Segment)
    requires Raw(VetoText(a)) == Raw(VetoText(b))
    ensures a.text == b.text
  {
    var ra := Raw(VetoText(a));
    assert |a.text| == |b.text|;
    assert a.text == ra[11..11 + |a.text|];
  }

  /**
   * `veto`: the person named at the start of the arguments is mentioned;
   * when none is found, the unparsed rest is quoted in monospace. A lookup
   * error is passed on and nothing is said.
   */
  method Veto<P, E>(cmd: string, parseUser: string -> Option<nat>,
                    fromSnowflake: nat -> Result<Option<P>, E>,
                    fromDiscord: (string, Option<nat>) -> Result<Option<P>, E>,
                    mention: P -> string)
    returns (said: Result<seq<Segment>, E>)
    ensures var lookup := CommandParse.PersonLookup(cmd, parseUser, fromSnowflake, fromDiscord);
      (lookup.0.Err? ==> said == Err(lookup.0.error))
      && (lookup.0.Ok? && lookup.0.value.Some? ==> said == Ok(VetoText(Plain(mention(lookup.0.value.value)))))
      && (lookup.0.Ok? && lookup.0.value.None? ==> said == Ok(VetoText(MonoSafe(lookup.1))))
    ensures said.Ok? ==> exists who :: (said.value == VetoText(who)
      && (who.Plain? || (who.MonoSafe? && |who.text| <= |cmd| && who.text == cmd[|cmd| - |who.text|..])))
    ensures CommandParse.MentionText(cmd).Some? && parseUser(CommandParse.MentionText(cmd).value).Some? ==>
      var found := fromSnowflake(parseUser(CommandParse.MentionText(cmd).value).value);
      (found.Err? ==> said == Err(found.error))
      && (found.Ok? && found.value.Some? ==> said == Ok(VetoText(Plain(mention(found.value.value)))))
      && (found.Ok? && found.value.None? ==> said == Ok(VetoText(MonoSafe(CommandParse.AfterWord(cmd)))))
  {
    var person, rest := CommandParse.EatPerson(cmd, parseUser, fromSnowflake, fromDiscord);
    if CommandParse.MentionHit(cmd, parseUser) {
      CommandParse.PersonLookupMention(cmd, parseUser, fromSnowflake, fromDiscord);
    }
    match person {
      case Err(e) =>
        said := Err(e);
      case Ok(Some(p)) =>
        said := Ok(VetoText(Plain(mention(p))));
        assert said.value == VetoText(Plain(mention(p)));
      case Ok(None) =>
        said := Ok(VetoText(MonoSafe(rest)));
        assert said.value == VetoText(MonoSafe(rest));
    }
  }
}
