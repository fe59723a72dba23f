/**
 * Twitch chat relay in the older bot generation: Twitch channels of members
 * are mapped to their Minecraft nicks, and each chat message in such a
 * channel is shown to that player in the (single) world.
 */
module LegacyTwitch {
  import opened Wrappers
  import opened People

  /** A Twitch chat message: the channel (`#login`), the sender and the text. */
  datatype Privmsg = Privmsg(channel: string, name: string, data: string)

  datatype Error = MalformedTwitchChannelName(channel: string) | UnknownTwitchNick(channel: string) | TwitchClientTerminated

  /** A `tellraw` of aqua text to one player of the world. */
  datatype Tellraw = Tellraw(target: string, text: string)

  /** The pair a member contributes to the nick map: Twitch login and Minecraft nick, when both are known. */
  function NickPair(p: Person): Option<(string, string)> {
    match TwitchNick(p)
    case None => None
    case Some(t) =>
      match MinecraftNick(p)
      case None => None
      case Some(m) => Some((t, m))
  }

  /** `nick_map`: the members' pairs collected into a map; a later member wins a shared login. */
  function NickMap(members: seq<Person>): map<string, string> {
    if members == [] then map[]
    else
      var m := NickMap(members[..|members| - 1]);
      match NickPair(members[|members| - 1])
      case None => m
      case Some((t, mc)) => m[t := mc]
  }

  /** The map holds exactly the logins of members who have both a Twitch login and a Minecraft nick. */
  lemma {:induction false} NickMapKeys(members: seq<Person>, login: string)
    ensures login in NickMap(members) <==> exists p :: p in members && TwitchNick(p) == Some(login) && MinecraftNick(p).Some?
  {
    if members != [] {
      var init := members[..|members| - 1];
      var last := members[|members| - 1];
      NickMapKeys(init, login);
      assert members == init + [last];
      if login in NickMap(members) && login !in NickMap(init) {
        assert last in members;
      }
      if p :| p in members && TwitchNick(p) == Some(login) && MinecraftNick(p).Some? {
        if p != last { assert p in init; }
      }
    }
  }

  /** A login maps to the Minecraft nick of the last member with that login (and a nick). */
  lemma {:induction false} NickMapLastWins(members: seq<Person>, i: nat)
    requires i < |members| && NickPair(members[i]).Some?
    requires forall j :: i < j < |members| ==> NickPair(members[j]).None? || NickPair(members[j]).value.0 != NickPair(members[i]).value.0
    ensures NickPair(members[i]).value.0 in NickMap(members)
    ensures NickMap(members)[NickPair(members[i]).value.0] == NickPair(members[i]).value.1
  {
    if i < |members| - 1 {
      NickMapLastWins(members[..|members| - 1], i);
    }
  }

  /** The line shown in Minecraft. */
  function RelayText(msg: Privmsg): string {
    "<twitch:" + msg.name + "> " + msg.data
  }

  /** Where a message goes: the player the channel maps to, or why the relay stops. */
  function Route(nickMap: map<string, string>, msg: Privmsg): (r: Result<Tellraw, Error>)
    ensures r.Err? <==> !(|msg.channel| > 0 && msg.channel[0] == '#' && msg.channel[1..] in nickMap)
    ensures r.Err? && (|msg.channel| == 0 || msg.channel[0] != '#') ==> r.error == MalformedTwitchChannelName(msg.channel)
    ensures r.Err? && |msg.channel| > 0 && msg.channel[0] == '#' ==> r.error == UnknownTwitchNick(msg.channel)
    ensures r.Ok? ==> r.value == Tellraw(nickMap[msg.channel[1..]], RelayText(msg))
  {
    if |msg.channel| > 0 && msg.channel[0] == '#' then
      if msg.channel[1..] in nickMap then Ok(Tellraw(nickMap[msg.channel[1..]], RelayText(msg)))
      else Err(UnknownTwitchNick(msg.channel))
    else Err(MalformedTwitchChannelName(msg.channel))
  }

  /** The messages relayed before the first one that fails to route, and how the relay ends. */
  function Routed(nickMap: map<string, string>, msgs: seq<Privmsg>): (seq<Tellraw>, Error)
    decreases |msgs|
  {
    if msgs == [] then ([], TwitchClientTerminated)
    else
      match Route(nickMap, msgs[0])
      case Err(e) => ([], e)
      case Ok(t) =>
        var (rest, e) := Routed(nickMap, msgs[1..]);
        ([t] + rest, e)
  }

  /** Relaying never ends normally: it stops at the first unroutable message, or when the stream ends. */
  lemma {:induction false} RoutedStopsAtFirstFailure(nickMap: map<string, string>, msgs: seq<Privmsg>, i: nat)
    requires i <= |msgs|
    requires forall j :: 0 <= j < i ==> Route(nickMap, msgs[j]).Ok?
    requires i < |msgs| ==> Route(nickMap, msgs[i]).Err?
    ensures |Routed(nickMap, msgs).0| == i
    ensures forall j :: 0 <= j < i ==> Routed(nickMap, msgs).0[j] == Route(nickMap, msgs[j]).value
    ensures Routed(nickMap, msgs).1 == if i < |msgs| then Route(nickMap, msgs[i]).error else TwitchClientTerminated
    decreases i
  {
    if i > 0 {
      RoutedStopsAtFirstFailure(nickMap, msgs[1..], i - 1);
    }
  }

  /**
   * `listen_chat` after connecting: the channels it joins (the map's logins)
   * and the loop over incoming messages, which ends with an error.
   */
  method ListenChat(members: seq<Person>, msgs: seq<Privmsg>) returns (joined: set<string>, sent: seq<Tellraw>, err: Error)
    ensures joined == NickMap(members).Keys
    ensures (sent, err) == Routed(NickMap(members), msgs)
  {
    var nickMap := NickMap(members);
    joined := nickMap.Keys;
    sent := [];
    var i := 0;
    while i < |msgs|
      invariant 0 <= i <= |msgs| && |sent| == i
      invariant forall j :: 0 <= j < i ==> Route(nickMap, msgs[j]).Ok? && sent[j] == Route(nickMap, msgs[j]).value
    {
      var msg := msgs[i];
      var channel := msg.channel;
      if |channel| > 0 && channel[0] == '#' {
        if channel[1..] in nickMap {
          sent := sent + [Tellraw(nickMap[channel[1..]], RelayText(msg))];
        } else {
          RoutedStopsAtFirstFailure(nickMap, msgs, i);
          assert Route(nickMap, msg).error == UnknownTwitchNick(channel);
          assert sent == Routed(nickMap, msgs).0;
          return joined, sent, UnknownTwitchNick(channel);
        }
      } else {
        RoutedStopsAtFirstFailure(nickMap, msgs, i);
        assert Route(nickMap, msg).error == MalformedTwitchChannelName(channel);
        assert sent == Routed(nickMap, msgs).0;
        return joined, sent, MalformedTwitchChannelName(channel);
      }
      i := i + 1;
    }
    RoutedStopsAtFirstFailure(nickMap, msgs, i);
    assert sent == Routed(nickMap, msgs).0;
    err := TwitchClientTerminated;
  }
}
