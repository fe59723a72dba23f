/**
 * The voice-channel map both bot generations keep (`VoiceStates`): for each
 * occupied voice channel, by name, the users in it, sorted by
 * `(name, discriminator)`. `voice_state_update` and `guild_create` maintain
 * it identically in both generations.
 */
module Voice {
  import opened Wrappers
  import opened Text

  /** A Discord user, as far as the map keeps it. */
  datatype User = User(id: nat, name: string, discriminator: nat)

  /** The order `binary_search_by_key(&(name, discriminator), …)` searches by. */
  predicate KeyLess(a: User, b: User) {
    LexLess(a.name, b.name) || (a.name == b.name && a.discriminator < b.discriminator)
  }

  predicate SameKey(a: User, b: User) {
    a.name == b.name && a.discriminator == b.discriminator
  }

  lemma KeyLessTransitive(a: User, b: User, c: User)
    requires KeyLess(a, b) && KeyLess(b, c)
    ensures KeyLess(a, c)
  {
    if LexLess(a.name, b.name) && LexLess(b.name, c.name) {
      LexLessTransitive(a.name, b.name, c.name);
    }
  }

  lemma KeyLessTrichotomy(a: User, b: User)
    ensures SameKey(a, b) || KeyLess(a, b) || KeyLess(b, a)
    ensures !(KeyLess(a, b) && KeyLess(b, a))
    ensures SameKey(a, b) ==> !KeyLess(a, b)
  {
    LexLessTotal(a.name, b.name);
    LexLessIrreflexive(a.name);
    if LexLess(a.name, b.name) { LexLessAsymmetric(a.name, b.name); }
  }

  /** Strictly increasing keys: sorted, and no two users with the same key. */
  predicate SortedByKey(us: seq<User>) {
    forall i, j :: 0 <= i < j < |us| ==> KeyLess(us[i], us[j])
  }

  /** `users.retain(|u| u.id != id)`. */
  function Retain(us: seq<User>, id: nat): (r: seq<User>)
    ensures forall u :: u in r <==> u in us && u.id != id
    ensures |r| <= |us|
  {
    if us == [] then []
    else if us[0].id != id then [us[0]] + Retain(us[1..], id)
    else Retain(us[1..], id)
  }

  lemma {:induction false} RetainSorted(us: seq<User>, id: nat)
    requires SortedByKey(us)
    ensures SortedByKey(Retain(us, id))
  {
    if us != [] {
      RetainSorted(us[1..], id);
      var r := Retain(us[1..], id);
      forall j | 0 <= j < |r| ensures KeyLess(us[0], r[j]) {
        assert r[j] in us[1..];
        var k :| 0 <= k < |us[1..]| && us[1..][k] == r[j];
        assert us[k + 1] == r[j];
      }
    }
  }

  /**
   * The binary-search update on a sorted list: a user with the same key is
   * overwritten in place, otherwise the user is inserted where the order
   * puts it.
   */
  function Place(us: seq<User>, u: User): seq<User> {
    if us == [] then [u]
    else if SameKey(us[0], u) then [u] + us[1..]
    else if KeyLess(u, us[0]) then [u] + us
    else [us[0]] + Place(us[1..], u)
  }

  /** `Place` keeps the list sorted, holds the user, and drops only the one user that had the same key. */
  lemma {:induction false} PlaceCorrect(us: seq<User>, u: User)
    requires SortedByKey(us)
    ensures SortedByKey(Place(us, u))
    ensures forall v :: v in Place(us, u) <==> v == u || (v in us && !SameKey(v, u))
  {
    if us == [] {
    } else if SameKey(us[0], u) {
      forall v | v in us[1..] ensures !SameKey(v, u) {
        var k :| 0 <= k < |us[1..]| && us[1..][k] == v;
        assert KeyLess(us[0], us[k + 1]);
        KeyLessTrichotomy(us[0], v);
      }
      forall j | 1 <= j < |us| ensures KeyLess(u, us[j]) {
        assert KeyLess(us[0], us[j]);
      }
    } else if KeyLess(u, us[0]) {
      forall j | 0 <= j < |us| ensures KeyLess(u, us[j]) {
        if j > 0 { KeyLessTransitive(u, us[0], us[j]); }
      }
      forall v | v in us ensures !SameKey(v, u) {
        var k :| 0 <= k < |us| && us[k] == v;
        assert KeyLess(u, us[k]);
        KeyLessTrichotomy(u, v);
      }
    } else {
      KeyLessTrichotomy(us[0], u);
      PlaceCorrect(us[1..], u);
      var r := Place(us[1..], u);
      forall j | 0 <= j < |r| ensures KeyLess(us[0], r[j]) {
        assert r[j] in r;
        if r[j] != u {
          var k :| 0 <= k < |us[1..]| && us[1..][k] == r[j];
          assert us[k + 1] == r[j];
        }
      }
      assert !SameKey(us[0], u);
    }
  }

  type ChannelMap = map<string, seq<User>>

  /** What the map keeps true: no channel is listed empty, every list is sorted without duplicate keys. */
  predicate WellFormed(m: ChannelMap) {
    forall c :: c in m ==> m[c] != [] && SortedByKey(m[c])
  }

  /** The map after the retain loop and the removal of emptied channels. */
  function Removed(m: ChannelMap, id: nat): ChannelMap {
    map c | c in m && Retain(m[c], id) != [] :: Retain(m[c], id)
  }

  /** The map after `voice_state_update` for `user`, now in `channel` (or in none). */
  function Updated(m: ChannelMap, user: User, channel: Option<string>): ChannelMap {
    var r := Removed(m, user.id);
    match channel
    case None => r
    case Some(name) => r[name := Place(if name in r then r[name] else [], user)]
  }

  /** The update keeps the map well formed. */
  lemma UpdatedWellFormed(m: ChannelMap, user: User, channel: Option<string>)
    requires WellFormed(m)
    ensures WellFormed(Updated(m, user, channel))
  {
    var r := Removed(m, user.id);
    forall c | c in r ensures SortedByKey(r[c]) {
      RetainSorted(m[c], user.id);
    }
    if channel.Some? {
      var name := channel.value;
      PlaceCorrect(if name in r then r[name] else [], user);
    }
  }

  /** Afterwards the user is in the new channel, if any, and in no other. */
  lemma UpdatedUserOnlyInNewChannel(m: ChannelMap, user: User, channel: Option<string>)
    requires WellFormed(m)
    ensures channel.Some? ==> channel.value in Updated(m, user, channel) && user in Updated(m, user, channel)[channel.value]
    ensures forall c, u :: (c in Updated(m, user, channel) && u in Updated(m, user, channel)[c] && u.id == user.id
      ==> channel == Some(c) && u == user)
  {
    var r := Removed(m, user.id);
    forall c | c in r ensures SortedByKey(r[c]) {
      RetainSorted(m[c], user.id);
    }
    if channel.Some? {
      var name := channel.value;
      PlaceCorrect(if name in r then r[name] else [], user);
    }
  }

  /**
   * Everyone else stays where they were, except a user with the same key as
   * the updating one in the channel it joins, whom the update overwrites.
   */
  lemma UpdatedOthersKept(m: ChannelMap, user: User, channel: Option<string>, c: string, u: User)
    requires WellFormed(m)
    requires u.id != user.id
    ensures (c in Updated(m, user, channel) && u in Updated(m, user, channel)[c])
      <==> (c in m && u in m[c] && !(channel == Some(c) && SameKey(u, user)))
  {
    var r := Removed(m, user.id);
    if c in m && u in m[c] {
      assert u in Retain(m[c], user.id);
    }
    forall c | c in r ensures SortedByKey(r[c]) {
      RetainSorted(m[c], user.id);
    }
    if channel.Some? {
      var name := channel.value;
      PlaceCorrect(if name in r then r[name] else [], user);
    }
  }

  /** One voice state of a guild: a user and the channel they are in, if any. */
  datatype VoiceState = VoiceState(user: User, channel: Option<string>)

  /** The map `guild_create` builds, from an empty one, with the same placement rule. */
  function Built(states: seq<VoiceState>): ChannelMap {
    if states == [] then map[]
    else
      var m := Built(states[..|states| - 1]);
      var s := states[|states| - 1];
      match s.channel
      case None => m
      case Some(name) => m[name := Place(if name in m then m[name] else [], s.user)]
  }

  /** The built map is well formed, and each user in it sits in the channel of one of the voice states. */
  lemma {:induction false} BuiltWellFormed(states: seq<VoiceState>)
    ensures WellFormed(Built(states))
    ensures forall c, u :: c in Built(states) && u in Built(states)[c] ==> VoiceState(u, Some(c)) in states
  {
    if states != [] {
      var init := states[..|states| - 1];
      BuiltWellFormed(init);
      var m := Built(init);
      var s := states[|states| - 1];
      assert forall x :: x in init ==> x in states;
      if s.channel.Some? {
        var name := s.channel.value;
        PlaceCorrect(if name in m then m[name] else [], s.user);
      }
    }
  }

  /** Nobody is lost: every voice state leaves a user with its key in its channel of the built map. */
  lemma {:induction false} BuiltComplete(states: seq<VoiceState>, i: nat)
    requires i < |states| && states[i].channel.Some?
    ensures states[i].channel.value in Built(states)
    ensures exists v :: v in Built(states)[states[i].channel.value] && SameKey(v, states[i].user)
  {
    var init := states[..|states| - 1];
    var s := states[|states| - 1];
    var m := Built(init);
    var c := states[i].channel.value;
    var u := states[i].user;
    BuiltWellFormed(init);
    if s.channel.Some? {
      var name := s.channel.value;
      PlaceCorrect(if name in m then m[name] else [], s.user);
    }
    if i == |states| - 1 {
      assert s.user in Built(states)[c];
    } else {
      assert init[i] == states[i];
      BuiltComplete(init, i);
      var v :| v in m[c] && SameKey(v, u);
      if s.channel == Some(c) && SameKey(v, s.user) {
        assert s.user in Built(states)[c];
      } else {
        assert v in Built(states)[c];
      }
    }
  }

  /** The `retain` loop of `voice_state_update`, collecting the channels it leaves empty. */
  method RetainAll(m: ChannelMap, id: nat) returns (cs: ChannelMap, emptied: seq<string>)
    ensures cs.Keys == m.Keys
    ensures forall c :: c in cs ==> cs[c] == Retain(m[c], id)
    ensures forall c :: c in emptied <==> c in m && Retain(m[c], id) == []
  {
    cs := m;
    emptied := [];
    var todo := cs.Keys;
    while todo != {}
      invariant todo <= m.Keys && cs.Keys == m.Keys
      invariant forall c :: c in cs ==> cs[c] == if c in todo then m[c] else Retain(m[c], id)
      invariant forall c :: c in emptied <==> c in m && c !in todo && Retain(m[c], id) == []
      decreases |todo|
    {
      var c :| c in todo;
      cs := cs[c := Retain(cs[c], id)];
      if cs[c] == [] {
        emptied := emptied + [c];
      }
      todo := todo - {c};
    }
  }

  /** The removal of the emptied channels, one after the other. */
  method DropChannels(m: ChannelMap, emptied: seq<string>) returns (cs: ChannelMap)
    ensures forall c :: c in cs <==> c in m && c !in emptied
    ensures forall c :: c in cs ==> cs[c] == m[c]
  {
    cs := m;
    var i := 0;
    while i < |emptied|
      invariant 0 <= i <= |emptied|
      invariant forall c :: c in cs <==> c in m && c !in emptied[..i]
      invariant forall c :: c in cs ==> cs[c] == m[c]
    {
      assert emptied[..i + 1] == emptied[..i] + [emptied[i]];
      cs := cs - {emptied[i]};
      i := i + 1;
    }
    assert emptied[..i] == emptied;
  }

  /** The first half of `voice_state_update`: the user leaves every list, and emptied channels go. */
  method RemoveUser(m: ChannelMap, id: nat) returns (cs: ChannelMap)
    ensures cs == Removed(m, id)
  {
    var retained, emptied := RetainAll(m, id);
    cs := DropChannels(retained, emptied);
    assert cs.Keys == Removed(m, id).Keys;
  }

  /** The shared voice-channel map. */
  class VoiceStates {
    var channels: ChannelMap

    /** At startup the map is empty. */
    constructor ()
      ensures channels == map[]
    {
      channels := map[];
    }

    predicate Valid()
      reads this
    {
      WellFormed(channels)
    }

    /** `voice_state_update`: take the user out of every list, drop emptied channels, then place the user in the new channel. */
    method VoiceStateUpdate(user: User, channel: Option<string>)
      modifies this
      requires Valid()
      ensures Valid()
      ensures channels == Updated(old(channels), user, channel)
    {
      ghost var m := channels;
      var cs := RemoveUser(channels, user.id);
      if channel.Some? {
        var name := channel.value;
        var users := if name in cs then cs[name] else [];
        cs := cs[name := Place(users, user)];
      }
      channels := cs;
      UpdatedWellFormed(m, user, channel);
    }

    /** `guild_create`: a fresh map from the guild's voice states replaces the stored one. */
    method GuildCreate(states: seq<VoiceState>)
      modifies this
      ensures Valid()
      ensures channels == Built(states)
      ensures forall i :: 0 <= i < |states| && states[i].channel.Some? ==>
        states[i].channel.value in channels
        && exists v :: v in channels[states[i].channel.value] && SameKey(v, states[i].user)
    {
      var built: ChannelMap := map[];
      var i := 0;
      while i < |states|
        invariant 0 <= i <= |states|
        invariant built == Built(states[..i])
      {
        assert states[..i + 1][..i] == states[..i];
        match states[i].channel {
          case Some(name) =>
            var users := if name in built then built[name] else [];
            built := built[name := Place(users, states[i].user)];
          case None =>
        }
        i := i + 1;
      }
      assert states[..i] == states;
      channels := built;
      BuiltWellFormed(states);
      forall j | 0 <= j < |states| && states[j].channel.Some?
        ensures states[j].channel.value in channels
        ensures exists v :: v in channels[states[j].channel.value] && SameKey(v, states[j].user)
      {
        BuiltComplete(states, j);
      }
    }
  }
}
