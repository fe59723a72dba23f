/**
 * Relaying Discord chat into Minecraft, and the older generation's IPC
 * command dispatch.
 */
module DiscordRelay {
  import opened Wrappers
  import opened Text

  /** The world channels of the configuration, in the map's (name) order. */
  type WorldChannels = seq<(string, nat)>

  /** `world_channels.iter().find(|(_, &c)| c == channel)`: the first world mapped to the channel. */
  function WorldFor(worlds: WorldChannels, channel: nat): (r: Option<string>)
    ensures r.Some? ==> exists i :: (0 <= i < |worlds| && worlds[i] == (r.value, channel)
      && forall j :: 0 <= j < i ==> worlds[j].1 != channel)
    ensures r.None? ==> forall i :: 0 <= i < |worlds| ==> worlds[i].1 != channel
  {
    if worlds == [] then None
    else if worlds[0].1 == channel then Some(worlds[0].0)
    else
      var r := WorldFor(worlds[1..], channel);
      if r.Some? then
        var i :| 0 <= i < |worlds[1..]| && worlds[1..][i] == (r.value, channel)
          && forall j :: 0 <= j < i ==> worlds[1..][j].1 != channel;
        assert worlds[i + 1] == (r.value, channel);
        r
      else r
  }

  /** A Discord message, as far as the relay reads it; `channelName` is `None` outside guild channels. */
  datatype Message = Message(authorBot: bool, authorName: string, channel: nat, channelName: Option<string>, content: string)

  /** A `tellraw` of aqua text to a target in a world. */
  datatype Tellraw = Tellraw(world: string, target: string, text: string)

  /** `[Discord:#<channel>] <<author>> <content>`, with `?` for a channel that has no name. */
  function RelayText(channelName: Option<string>, author: string, content: string): (r: string)
    ensures |r| >= |content| && r[|r| - |content|..] == content
    ensures channelName.None? ==> r == "[Discord:#?] <" + author + "> " + content
  {
    var name := match channelName case Some(n) => n case None => "?";
    "[Discord:#" + name + "] <" + author + "> " + content
  }

  lemma RelayTextShape(c: string, a: string, m: string)
    ensures RelayText(Some(c), a, m) == "[Discord:#" + (c + ("] <" + (a + ("> " + m))))
  {
  }

  /** Relay texts of channels without `]` in their names and authors without `>` tell channel, author and content apart. */
  lemma RelayTextInjective(c1: string, a1: string, m1: string, c2: string, a2: string, m2: string)
    requires ']' !in c1 && ']' !in c2 && '>' !in a1 && '>' !in a2
    requires RelayText(Some(c1), a1, m1) == RelayText(Some(c2), a2, m2)
    ensures c1 == c2 && a1 == a2 && m1 == m2
  {
    RelayTextShape(c1, a1, m1);
    RelayTextShape(c2, a2, m2);
    var z1 := "> " + m1;
    var z2 := "> " + m2;
    var y1 := "] <" + (a1 + z1);
    var y2 := "] <" + (a2 + z2);
    DropPrefix("[Discord:#", c1 + y1, c2 + y2);
    SplitAtFirst(c1, y1, c2, y2, ']');
    DropPrefix("] <", a1 + z1, a2 + z2);
    SplitAtFirst(a1, z1, a2, z2, '>');
    DropPrefix("> ", m1, m2);
  }

  lemma DropPrefix(p: string, u1: string, u2: string)
    requires p + u1 == p + u2
    ensures u1 == u2
  {
    assert u1 == (p + u1)[|p|..];
    assert u2 == (p + u2)[|p|..];
  }

  /** Splitting at the first occurrence of a character is unique. */
  lemma SplitAtFirst(x1: string, y1: string, x2: string, y2: string, c: char)
    requires c !in x1 && c !in x2 && y1 != [] && y1[0] == c && y2 != [] && y2[0] == c
    requires x1 + y1 == x2 + y2
    ensures x1 == x2 && y1 == y2
  {
    var notC := (ch: char) => ch != c;
    RunAfter(x1, y1, notC);
    RunAfter(x2, y2, notC);
    assert x1 == (x1 + y1)[..|x1|];
    assert x2 == (x2 + y2)[..|x2|];
    assert y1 == (x1 + y1)[|x1|..];
    assert y2 == (x2 + y2)[|x2|..];
  }

  /** The older generation's `message` handler: every message in a world channel is relayed to everyone there. */
  function RelayLegacy(worlds: WorldChannels, msg: Message): (r: Option<Tellraw>)
    ensures r.Some? <==> WorldFor(worlds, msg.channel).Some?
    ensures r.Some? ==> r.value == Tellraw(WorldFor(worlds, msg.channel).value, "@a", RelayText(msg.channelName, msg.authorName, msg.content))
  {
    match WorldFor(worlds, msg.channel)
    case None => None
    case Some(w) => Some(Tellraw(w, "@a", RelayText(msg.channelName, msg.authorName, msg.content)))
  }

  /** The newer generation's `message` handler: the same, but messages from bots are never relayed. */
  function Relay(worlds: WorldChannels, msg: Message): (r: Option<Tellraw>)
    ensures r.Some? <==> !msg.authorBot && WorldFor(worlds, msg.channel).Some?
    ensures r.Some? ==> r.value == Tellraw(WorldFor(worlds, msg.channel).value, "@a", RelayText(msg.channelName, msg.authorName, msg.content))
  {
    if msg.authorBot then None else RelayLegacy(worlds, msg)
  }

  /** The two generations disagree exactly on a bot's message in a world channel. */
  lemma RelayGenerations(worlds: WorldChannels, msg: Message)
    ensures Relay(worlds, msg) != RelayLegacy(worlds, msg) <==> msg.authorBot && WorldFor(worlds, msg.channel).Some?
    ensures Relay(worlds, msg).Some? ==> Relay(worlds, msg) == RelayLegacy(worlds, msg)
  {
  }

  // ---------------------------------------------------------------------
  // IPC (older generation)
  // ---------------------------------------------------------------------

  /** The answer of the Discord API to a member edit; an unsuccessful request carries its response in `Debug` form. */
  datatype EditOutcome = Edited | Unsuccessful(response: string) | EditFailed

  datatype IpcEffect = ShutDown | Reply(text: string) | EditNickname(user: nat, nickname: string)

  datatype IpcError = MissingContext | UserLookup | EditMember | UnknownCommand(args: seq<string>)

  /** `set-display-name` clears the nickname when the requested name is the username. */
  function NicknameFor(username: string, requested: string): (nick: string)
    ensures nick == [] <==> requested == username || requested == []
    ensures nick != [] ==> nick == requested
  {
    if username == requested then "" else requested
  }

  /** What the source indexes: a first word, and two more after `set-display-name`. */
  predicate WellFormedCommand(args: seq<string>) {
    |args| >= 1 && (args[0] == "set-display-name" ==> |args| >= 3)
  }

  /**
   * One IPC command line, split into words: `quit` shuts down and confirms,
   * `set-display-name <user> <name>` sets (or clears) a nickname and reports
   * the outcome, anything else ends the listener with `UnknownCommand`.
   * `lookupUser` resolves the user argument to an id and username.
   */
  function Dispatch(args: seq<string>, hasContext: bool,
                    lookupUser: string -> Option<(nat, string)>,
                    edit: (nat, string) -> EditOutcome): (r: Result<seq<IpcEffect>, IpcError>)
    requires WellFormedCommand(args)
    ensures args[0] != "quit" && args[0] != "set-display-name" ==> r == Err(UnknownCommand(args))
    ensures r.Ok? ==> hasContext && (args[0] == "quit" <==> ShutDown in r.value)
    ensures (args[0] == "quit" || args[0] == "set-display-name") && !hasContext ==> r == Err(MissingContext)
    ensures args[0] == "quit" && hasContext ==> r == Ok([ShutDown, Reply("shutdown complete")])
    ensures args[0] == "set-display-name" && hasContext ==>
      (r == Err(UserLookup) <==> lookupUser(args[1]).None?)
      && (lookupUser(args[1]).Some? ==>
            var id := lookupUser(args[1]).value.0;
            var nick := NicknameFor(lookupUser(args[1]).value.1, args[2]);
            (r == Err(EditMember) <==> edit(id, nick) == EditFailed)
            && (edit(id, nick) == Edited ==> r == Ok([EditNickname(id, nick), Reply("display name set")]))
            && (edit(id, nick).Unsuccessful? ==>
                  r == Ok([EditNickname(id, nick), Reply("failed to set display name: " + edit(id, nick).response)])))
  {
    if args[0] == "quit" then
      if !hasContext then Err(MissingContext)
      else Ok([ShutDown, Reply("shutdown complete")])
    else if args[0] == "set-display-name" then
      if !hasContext then Err(MissingContext)
      else
        match lookupUser(args[1])
        case None => Err(UserLookup)
        case Some((id, username)) =>
          var nick := NicknameFor(username, args[2]);
          match edit(id, nick)
          case Edited => Ok([EditNickname(id, nick), Reply("display name set")])
          case Unsuccessful(response) => Ok([EditNickname(id, nick), Reply("failed to set display name: " + response)])
          case EditFailed => Err(EditMember)
    else Err(UnknownCommand(args))
  }

  /** A successful `set-display-name` edits exactly the looked-up user, with the cleared or requested nickname. */
  lemma SetDisplayNameEdits(args: seq<string>, lookupUser: string -> Option<(nat, string)>, edit: (nat, string) -> EditOutcome)
    requires WellFormedCommand(args) && args[0] == "set-display-name"
    requires Dispatch(args, true, lookupUser, edit).Ok?
    ensures lookupUser(args[1]).Some?
    ensures Dispatch(args, true, lookupUser, edit).value[0]
      == EditNickname(lookupUser(args[1]).value.0, if args[2] == lookupUser(args[1]).value.1 then "" else args[2])
  {
  }
}
