/**
 * Twitch chat relay in the newer bot generation. One connection session:
 * the nick map is rebuilt from the people table, every mapped channel is
 * joined and its player told about the reconnect in each running world, then
 * chat messages are relayed until the connection quits (which starts the
 * next session) or a message arrives on a channel the map does not know.
 */
module CrateTwitch {
  import opened Wrappers

  /** A Twitch chat message; `isAction` marks `/me` messages. */
  datatype Privmsg = Privmsg(channel: string, name: string, data: string, isAction: bool)

  /** What the chat runner yields: a chat message, any other IRC message, or the end of the connection. */
  datatype Status = Chat(pm: Privmsg) | OtherMessage | Quit | Eof

  datatype Effect = Join(channel: string) | Tellraw(world: string, target: string, text: string)

  datatype Error = MalformedTwitchChannelName(channel: string) | UnknownTwitchNick(channel: string)

  /** How a session ends: quit or end of stream (reconnect), a routing error, or still listening. */
  datatype Outcome = Reconnect | Failed(error: Error) | Listening

  /** The map the query rows `(twitch login, Minecraft nick)` build by insertion: a later row wins. */
  function NickMap(rows: seq<(string, string)>): map<string, string> {
    if rows == [] then map[]
    else NickMap(rows[..|rows| - 1])[rows[|rows| - 1].0 := rows[|rows| - 1].1]
  }

  /** The logins in the map are exactly the logins of the rows. */
  lemma {:induction false} NickMapKeys(rows: seq<(string, string)>)
    ensures NickMap(rows).Keys == set r | r in rows :: r.0
  {
    if rows != [] {
      var init := rows[..|rows| - 1];
      NickMapKeys(init);
      assert rows == init + [rows[|rows| - 1]];
    }
  }

  /** A login maps to the nick of the last row with that login. */
  lemma {:induction false} NickMapLastWins(rows: seq<(string, string)>, i: nat)
    requires i < |rows|
    requires forall j :: i < j < |rows| ==> rows[j].0 != rows[i].0
    ensures rows[i].0 in NickMap(rows) && NickMap(rows)[rows[i].0] == rows[i].1
  {
    if i < |rows| - 1 {
      NickMapLastWins(rows[..|rows| - 1], i);
    }
  }

  /** The query loop: inserts every row into an initially empty map. */
  method BuildNickMap(rows: seq<(string, string)>) returns (nickMap: map<string, string>)
    ensures nickMap == NickMap(rows)
  {
    nickMap := map[];
    for i := 0 to |rows|
      invariant nickMap == NickMap(rows[..i])
    {
      assert rows[..i + 1][..i] == rows[..i];
      nickMap := nickMap[rows[i].0 := rows[i].1];
    }
    assert rows[..|rows|] == rows;
  }

  const Reconnected: string := "[Twitch] reconnected"

  /** The notice for one player in every running world. */
  function TellAll(worlds: seq<string>, target: string, text: string): (r: seq<Effect>)
    ensures |r| == |worlds|
    ensures forall i :: 0 <= i < |worlds| ==> r[i] == Tellraw(worlds[i], target, text)
  {
    if worlds == [] then [] else [Tellraw(worlds[0], target, text)] + TellAll(worlds[1..], target, text)
  }

  /** Joining each mapped channel, in the map's iteration order, each followed by the reconnect notices. */
  function Greetings(nickMap: map<string, string>, order: seq<string>, worlds: seq<string>): seq<Effect>
    requires forall k :: k in order ==> k in nickMap
  {
    if order == [] then []
    else
      var last := order[|order| - 1];
      Greetings(nickMap, order[..|order| - 1], worlds) + [Join(last)] + TellAll(worlds, nickMap[last], Reconnected)
  }

  /** Each mapped channel is joined once and each player greeted once per running world. */
  lemma {:induction false} GreetingsCount(nickMap: map<string, string>, order: seq<string>, worlds: seq<string>)
    requires forall k :: k in order ==> k in nickMap
    ensures |Greetings(nickMap, order, worlds)| == |order| * (1 + |worlds|)
  {
    if order != [] {
      var n := |order|;
      var w := 1 + |worlds|;
      GreetingsCount(nickMap, order[..n - 1], worlds);
      assert |Greetings(nickMap, order, worlds)| == (n - 1) * w + w;
      assert (n - 1) * w + w == n * w;
    }
  }

  /** The joins among the greetings are exactly the channels of the iteration order. */
  lemma {:induction false} GreetingsJoins(nickMap: map<string, string>, order: seq<string>, worlds: seq<string>, c: string)
    requires forall k :: k in order ==> k in nickMap
    ensures Join(c) in Greetings(nickMap, order, worlds) <==> c in order
  {
    if order != [] {
      var init := order[..|order| - 1];
      GreetingsJoins(nickMap, init, worlds, c);
      assert order == init + [order[|order| - 1]];
      var tells := TellAll(worlds, nickMap[order[|order| - 1]], Reconnected);
      assert Join(c) !in tells;
    }
  }

  /** An iteration order of a map: every key exactly once. */
  ghost predicate IterationOrder(order: seq<string>, nickMap: map<string, string>) {
    (forall k :: k in order <==> k in nickMap)
    && forall i, j :: 0 <= i < j < |order| ==> order[i] != order[j]
  }

  /** A sequence without repetitions has as many elements as the set of its values. */
  lemma {:induction false} DistinctCount(order: seq<string>, keys: set<string>)
    requires forall k :: k in order <==> k in keys
    requires forall i, j :: 0 <= i < j < |order| ==> order[i] != order[j]
    ensures |keys| == |order|
  {
    if order != [] {
      var init := order[..|order| - 1];
      var last := order[|order| - 1];
      assert order == init + [last];
      assert last !in init by {
        forall k | k in init ensures k != last {
          var i :| 0 <= i < |init| && init[i] == k;
          assert order[i] == k;
        }
      }
      forall k ensures k in init <==> k in keys - {last} {
        assert k in order <==> k in init || k == last;
      }
      DistinctCount(init, keys - {last});
    }
  }

  /** Over an iteration order of the map, every login is joined once and its player greeted once per running world. */
  lemma GreetingsOnePerLogin(nickMap: map<string, string>, order: seq<string>, worlds: seq<string>)
    requires IterationOrder(order, nickMap)
    ensures |Greetings(nickMap, order, worlds)| == |nickMap| * (1 + |worlds|)
  {
    GreetingsCount(nickMap, order, worlds);
    DistinctCount(order, nickMap.Keys);
  }

  /** The inner `for` loop over the running worlds: one `tellraw` each. */
  method TellEachWorld(worlds: seq<string>, target: string, text: string) returns (effects: seq<Effect>)
    ensures effects == TellAll(worlds, target, text)
  {
    effects := [];
    for j := 0 to |worlds|
      invariant |effects| == j
      invariant forall i :: 0 <= i < j ==> effects[i] == Tellraw(worlds[i], target, text)
    {
      effects := effects + [Tellraw(worlds[j], target, text)];
    }
  }

  /** The `for` loop over the map in its iteration order: join, then greet the player in each running world. */
  method Greet(nickMap: map<string, string>, order: seq<string>, worlds: seq<string>) returns (effects: seq<Effect>)
    requires forall k :: k in order ==> k in nickMap
    requires forall i, j :: 0 <= i < j < |order| ==> order[i] != order[j]
    ensures effects == Greetings(nickMap, order, worlds)
  {
    effects := [];
    for i := 0 to |order|
      invariant effects == Greetings(nickMap, order[..i], worlds)
    {
      var nick := order[i];
      var told := TellEachWorld(worlds, nickMap[nick], Reconnected);
      assert order[..i + 1][..i] == order[..i];
      effects := effects + [Join(nick)] + told;
    }
    assert order[..|order|] == order;
  }

  /** The line shown in Minecraft: `[Twitch] * name data` for actions, `[Twitch] <name> data` otherwise. */
  function RelayText(pm: Privmsg): string {
    "[Twitch] " + (if pm.isAction then "* " + pm.name else "<" + pm.name + ">") + " " + pm.data
  }

  /** Action and plain messages are told apart by the character after the prefix. */
  lemma RelayTextKind(pm: Privmsg)
    ensures |RelayText(pm)| > 9 && RelayText(pm)[..9] == "[Twitch] "
    ensures RelayText(pm)[9] == (if pm.isAction then '*' else '<')
  {
  }

  /** What one chat message does: a notice in every running world to the mapped player, or an error. */
  function Route(nickMap: map<string, string>, worlds: seq<string>, pm: Privmsg): (r: Result<seq<Effect>, Error>)
    ensures r.Err? <==> !(|pm.channel| > 0 && pm.channel[0] == '#' && pm.channel[1..] in nickMap)
    ensures r.Err? && (|pm.channel| == 0 || pm.channel[0] != '#') ==> r.error == MalformedTwitchChannelName(pm.channel)
    ensures r.Err? && |pm.channel| > 0 && pm.channel[0] == '#' ==> r.error == UnknownTwitchNick(pm.channel)
    ensures r.Ok? ==> |r.value| == |worlds|
    ensures r.Ok? ==> forall i :: 0 <= i < |worlds| ==> r.value[i] == Tellraw(worlds[i], nickMap[pm.channel[1..]], RelayText(pm))
  {
    if |pm.channel| > 0 && pm.channel[0] == '#' then
      if pm.channel[1..] in nickMap then Ok(TellAll(worlds, nickMap[pm.channel[1..]], RelayText(pm)))
      else Err(UnknownTwitchNick(pm.channel))
    else Err(MalformedTwitchChannelName(pm.channel))
  }

  /** The effects of the message loop over these statuses, and how it ends. */
  function Listen(nickMap: map<string, string>, worlds: seq<string>, statuses: seq<Status>): (seq<Effect>, Outcome)
    decreases |statuses|
  {
    if statuses == [] then ([], Listening)
    else
      match statuses[0]
      case Quit => ([], Reconnect)
      case Eof => ([], Reconnect)
      case OtherMessage => Listen(nickMap, worlds, statuses[1..])
      case Chat(pm) =>
        match Route(nickMap, worlds, pm)
        case Err(e) => ([], Failed(e))
        case Ok(effects) =>
          var (rest, outcome) := Listen(nickMap, worlds, statuses[1..]);
          (effects + rest, outcome)
  }

  /** Messages other than chat are ignored. */
  lemma {:induction false} ListenIgnoresOther(nickMap: map<string, string>, worlds: seq<string>, a: seq<Status>, b: seq<Status>)
    requires forall i :: 0 <= i < |a| ==> a[i] == OtherMessage
    ensures Listen(nickMap, worlds, a + b) == Listen(nickMap, worlds, b)
  {
    if a == [] {
      assert a + b == b;
    } else {
      assert (a + b)[0] == a[0] == OtherMessage;
      assert (a + b)[1..] == a[1..] + b;
      assert Listen(nickMap, worlds, a + b) == Listen(nickMap, worlds, (a + b)[1..]);
      ListenIgnoresOther(nickMap, worlds, a[1..], b);
    }
  }

  /** A session ends with a reconnect exactly when a quit or end of stream comes before any failing chat message. */
  lemma {:induction false} ListenReconnects(nickMap: map<string, string>, worlds: seq<string>, statuses: seq<Status>)
    ensures Listen(nickMap, worlds, statuses).1 == Reconnect <==>
      (exists i :: (0 <= i < |statuses| && (statuses[i].Quit? || statuses[i].Eof?)
        && forall j :: 0 <= j < i ==> statuses[j].OtherMessage? || (statuses[j].Chat? && Route(nickMap, worlds, statuses[j].pm).Ok?)))
    decreases |statuses|
  {
    if statuses != [] {
      ListenReconnects(nickMap, worlds, statuses[1..]);
      var s := statuses;
      if s[0].OtherMessage? || (s[0].Chat? && Route(nickMap, worlds, s[0].pm).Ok?) {
        if i :| (0 <= i < |s| && (s[i].Quit? || s[i].Eof?)
          && forall j :: 0 <= j < i ==> s[j].OtherMessage? || (s[j].Chat? && Route(nickMap, worlds, s[j].pm).Ok?)) {
          assert i > 0;
          var i' := i - 1;
          assert s[1..][i'] == s[i];
          assert forall j :: 0 <= j < i' ==> s[1..][j] == s[j + 1];
        }
        if i' :| (0 <= i' < |s[1..]| && (s[1..][i'].Quit? || s[1..][i'].Eof?)
          && forall j :: 0 <= j < i' ==> s[1..][j].OtherMessage? || (s[1..][j].Chat? && Route(nickMap, worlds, s[1..][j].pm).Ok?)) {
          var i := i' + 1;
          assert s[i] == s[1..][i'];
          assert forall j :: 1 <= j < i ==> s[j] == s[1..][j - 1];
        }
      }
    }
  }

  /** The inner `loop` of `listen_chat`: relays the runner's statuses until one ends the session. */
  method Relay(nickMap: map<string, string>, worlds: seq<string>, statuses: seq<Status>) returns (effects: seq<Effect>, outcome: Outcome)
    ensures effects == Listen(nickMap, worlds, statuses).0
    ensures outcome == Listen(nickMap, worlds, statuses).1
  {
    effects := [];
    var i := 0;
    assert statuses[0..] == statuses;
    while i < |statuses|
      invariant 0 <= i <= |statuses|
      invariant Listen(nickMap, worlds, statuses).0 == effects + Listen(nickMap, worlds, statuses[i..]).0
      invariant Listen(nickMap, worlds, statuses).1 == Listen(nickMap, worlds, statuses[i..]).1
    {
      assert statuses[i..][0] == statuses[i];
      assert statuses[i..][1..] == statuses[i + 1..];
      match statuses[i] {
        case Quit =>
          return effects, Reconnect;
        case Eof =>
          return effects, Reconnect;
        case OtherMessage =>
        case Chat(pm) =>
          var channel := pm.channel;
          if |channel| > 0 && channel[0] == '#' {
            if channel[1..] in nickMap {
              var told := TellEachWorld(worlds, nickMap[channel[1..]], RelayText(pm));
              effects := effects + told;
            } else {
              return effects, Failed(UnknownTwitchNick(channel));
            }
          } else {
            assert Route(nickMap, worlds, pm) == Err(MalformedTwitchChannelName(channel));
            return effects, Failed(MalformedTwitchChannelName(channel));
          }
      }
      i := i + 1;
    }
    assert statuses[i..] == [];
    outcome := Listening;
  }

  /**
   * One iteration of the outer `loop` of `listen_chat`: build the map from
   * the query rows, join and greet in the map's iteration order `order`, then
   * relay the runner's statuses. `worlds` are the running worlds.
   */
  method Session(rows: seq<(string, string)>, order: seq<string>, worlds: seq<string>, statuses: seq<Status>)
    returns (effects: seq<Effect>, outcome: Outcome)
    requires IterationOrder(order, NickMap(rows))
    ensures effects == Greetings(NickMap(rows), order, worlds) + Listen(NickMap(rows), worlds, statuses).0
    ensures outcome == Listen(NickMap(rows), worlds, statuses).1
  {
    var nickMap := BuildNickMap(rows);
    var greeted := Greet(nickMap, order, worlds);
    var relayed;
    relayed, outcome := Relay(nickMap, worlds, statuses);
    effects := greeted + relayed;
  }
}
