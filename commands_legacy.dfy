/**
 * The older generation's commands: `ping` and `poll` follow the same rules
 * as the newer ones (see `Commands`), but `poll` scans the message text for
 * emoji, and `veto` mentions a stored person.
 */
module LegacyCommands {
  import opened Wrappers
  import opened Text
  import opened Reactions
  import opened Messages
  import opened People
  import TextEmoji
  import Commands

  /** The reactions after the iterator yielded `first`: `first`, then every emoji it still yields, in order. */
  method ReactAll(it: TextEmoji.Iter, first: Reaction) returns (reactions: seq<Reaction>)
    requires [] !in it.emoji
    modifies it
    ensures reactions == [first] + TextEmoji.Emojis(old(it.text), it.emoji, it.parseCustom)
  {
    ghost var all := [first] + TextEmoji.Emojis(it.text, it.emoji, it.parseCustom);
    reactions := [];
    var emoji := Some(first);
    while emoji.Some?
      invariant emoji.Some? ==> reactions + [emoji.value] + TextEmoji.Emojis(it.text, it.emoji, it.parseCustom) == all
      invariant emoji.None? ==> reactions == all
      decreases |TextEmoji.Emojis(it.text, it.emoji, it.parseCustom)| + (if emoji.Some? then 1 else 0)
    {
      reactions := reactions + [emoji.value];
      emoji := it.Next();
    }
  }

  /** `poll` on the message text; `fileNames` is the emoji directory listing, `parseCustom` the emoji-id parser. */
  method Poll(content: string, fileNames: seq<string>, parseCustom: string -> Option<(string, nat)>, arg: Option<string>)
    returns (reactions: seq<Reaction>)
    ensures reactions == Commands.PollReactions(TextEmoji.Emojis(content, TextEmoji.SortedTable(fileNames), parseCustom), arg)
  {
    var it := new TextEmoji.Iter(content, fileNames, parseCustom);
    var emoji := it.Next();
    if emoji.Some? {
      reactions := ReactAll(it, emoji.value);
    } else {
      var n := if arg.Some? then Commands.ParseU8(arg.value) else None;
      if n.Some? {
        reactions := Commands.ReactLetters(n.value);
      } else {
        reactions := [Commands.ThumbsUp, Commands.ThumbsDown];
      }
    }
  }

  /** The general channel, where vetoes are announced. */
  const General: nat := 88318761228054528

  /** A message sent to a channel. */
  datatype Say = Say(channel: nat, content: seq<Segment>)

  /**
   * `veto`: `eatPerson` is the person parser (which reads the people table)
   * applied to the arguments, giving the person and the unparsed rest.
   */
  function Veto<E>(cmd: string, eatPerson: string -> Result<(Option<Person>, string), E>): (r: Result<Say, E>)
    requires eatPerson(cmd).Ok? && eatPerson(cmd).value.0.Some? ==> Mentionable(eatPerson(cmd).value.0.value)
    ensures r.Err? <==> eatPerson(cmd).Err?
    ensures r.Ok? ==> r.value.channel == General
    ensures r.Ok? && eatPerson(cmd).value.0.None? ==>
      Raw(r.value.content) == "invite for " + eatPerson(cmd).value.1 + " has been vetoed"
      && r.value.content == Commands.VetoText(MonoSafe(eatPerson(cmd).value.1))
    ensures r.Ok? && eatPerson(cmd).value.0.Some? && eatPerson(cmd).value.0.value.snowflake.Some? ==>
      Raw(r.value.content) == "invite for " + UserMention(AsU64(eatPerson(cmd).value.0.value.snowflake.value)) + " has been vetoed"
    ensures r.Ok? && eatPerson(cmd).value.0.Some? ==>
      r.value.content == Commands.VetoText(Plain(Mention(eatPerson(cmd).value.0.value)))
  {
    match eatPerson(cmd)
    case Err(e) => Err(e)
    case Ok((Some(p), _)) => Ok(Say(General, Commands.VetoText(Plain(Mention(p)))))
    case Ok((None, rest)) => Ok(Say(General, Commands.VetoText(MonoSafe(rest))))
  }
}
