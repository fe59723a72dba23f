/**
 * People of Wurstmineberg in the older bot generation: rows of the `people`
 * table, looked up by Discord name, mentioned in messages, and kept in sync
 * with Discord membership. The database is modelled by the rows it returns
 * (a sequence in table order); the `data` and `discorddata` columns are JSON
 * values.
 */
module People {
  import opened Wrappers
  import opened Text

  /** A JSON value (numbers are integers here). */
  datatype Json =
    | JNull
    | JBool(b: bool)
    | JNumber(n: int)
    | JString(s: string)
    | JArray(items: seq<Json>)
    | JObject(fields: map<string, Json>)

  /** `json[key]`: the field of an object, `null` when absent or not an object. */
  function Get(j: Json, key: string): (r: Json)
    ensures r != JNull ==> j.JObject? && key in j.fields && j.fields[key] == r
  {
    if j.JObject? && key in j.fields then j.fields[key] else JNull
  }

  /** `as_str` */
  function AsStr(j: Json): Option<string> {
    if j.JString? then Some(j.s) else None
  }

  /** `as_u64` */
  function AsU64Json(j: Json): Option<nat> {
    if j.JNumber? && 0 <= j.n < 0x1_0000_0000_0000_0000 then Some(j.n) else None
  }

  /** The array index a pointer token denotes: decimal digits, no sign, no leading zero. */
  function PointerIndex(tok: string): (r: Option<nat>)
    ensures r.Some? ==> tok == NatToDecimal(r.value)
  {
    if tok == [] || !AllDigits(tok) || (tok[0] == '0' && |tok| != 1) then None
    else DecimalRoundTrip(tok); Some(DecimalValue(tok))
  }

  /** `Value::pointer` with the path given as its tokens (RFC 6901). */
  function Pointer(j: Json, tokens: seq<string>): Option<Json>
    decreases |tokens|
  {
    if tokens == [] then Some(j)
    else
      match j {
        case JObject(fields) =>
          if tokens[0] in fields then Pointer(fields[tokens[0]], tokens[1..]) else None
        case JArray(items) =>
          match PointerIndex(tokens[0]) {
            case Some(i) => if i < |items| then Pointer(items[i], tokens[1..]) else None
            case None => None
          }
        case _ => None
      }
  }

  /** A pointer path can be followed in two halves. */
  lemma {:induction false} PointerAppend(j: Json, a: seq<string>, b: seq<string>)
    ensures Pointer(j, a + b) == match Pointer(j, a) case Some(k) => Pointer(k, b) case None => None
    decreases |a|
  {
    if a != [] {
      assert (a + b)[0] == a[0] && (a + b)[1..] == a[1..] + b;
      match j {
        case JObject(fields) =>
          if a[0] in fields { PointerAppend(fields[a[0]], a[1..], b); }
        case JArray(items) =>
          match PointerIndex(a[0]) {
            case Some(i) => if i < |items| { PointerAppend(items[i], a[1..], b); }
            case None =>
          }
        case _ =>
      }
    } else {
      assert a + b == b;
    }
  }

  /** A row of the `people` table (the unused `version` and `apikey` columns aside). */
  datatype Person = Person(
    id: int,
    wmbid: Option<string>,
    snowflake: Option<int>,
    active: bool,
    data: Option<Json>,
    discordData: Option<Json>)

  /** The path `/minecraft/nicks/0`. */
  const MinecraftNickPath: seq<string> := ["minecraft", "nicks", "0"]

  /** The path `/twitch/login`. */
  const TwitchNickPath: seq<string> := ["twitch", "login"]

  function StrAt(data: Option<Json>, path: seq<string>): Option<string> {
    match data
    case None => None
    case Some(d) =>
      match Pointer(d, path)
      case None => None
      case Some(v) => AsStr(v)
  }

  /** `minecraft_nick`: the first of the Minecraft nicks recorded in `data`. */
  function MinecraftNick(p: Person): (r: Option<string>)
    ensures r.Some? ==> p.data.Some? && Pointer(p.data.value, MinecraftNickPath) == Some(JString(r.value))
    ensures r.None? ==> (p.data.None? || Pointer(p.data.value, MinecraftNickPath).None?
      || !Pointer(p.data.value, MinecraftNickPath).value.JString?)
  {
    StrAt(p.data, MinecraftNickPath)
  }

  /** `twitch_nick`: the Twitch login recorded in `data`. */
  function TwitchNick(p: Person): (r: Option<string>)
    ensures r.Some? ==> p.data.Some? && Pointer(p.data.value, TwitchNickPath) == Some(JString(r.value))
    ensures r.None? ==> (p.data.None? || Pointer(p.data.value, TwitchNickPath).None?
      || !Pointer(p.data.value, TwitchNickPath).value.JString?)
  {
    StrAt(p.data, TwitchNickPath)
  }

  /** The nick is the first entry of the `nicks` list of the `minecraft` object. */
  lemma MinecraftNickIsFirst(p: Person, minecraft: map<string, Json>, nicks: seq<Json>)
    requires p.data.Some? && p.data.value.JObject?
    requires "minecraft" in p.data.value.fields && p.data.value.fields["minecraft"] == JObject(minecraft)
    requires "nicks" in minecraft && minecraft["nicks"] == JArray(nicks)
    ensures MinecraftNick(p) == if nicks != [] then AsStr(nicks[0]) else None
  {
    assert PointerIndex("0") == Some(0) by {
      assert DecimalValue("0") == 0;
    }
    assert MinecraftNickPath[1..] == ["nicks", "0"];
    assert MinecraftNickPath[1..][1..] == ["0"];
    assert ["0"][1..] == [];
  }

  /** The login is the `login` field of the `twitch` object. */
  lemma TwitchNickIsLogin(p: Person, twitch: map<string, Json>)
    requires p.data.Some? && p.data.value.JObject?
    requires "twitch" in p.data.value.fields && p.data.value.fields["twitch"] == JObject(twitch)
    ensures TwitchNick(p) == if "login" in twitch then AsStr(twitch["login"]) else None
  {
    assert TwitchNickPath[1..] == ["login"];
    assert ["login"][1..] == [];
  }

  // ---------------------------------------------------------------------
  // Snowflakes: Discord ids are `u64`, the column is a signed `i64`
  // ---------------------------------------------------------------------

  const Two63: int := 0x8000_0000_0000_0000
  const Two64: int := 0x1_0000_0000_0000_0000

  /** `id as i64` for a `u64`: two's complement wrap-around. */
  function AsI64(n: nat): (r: int)
    requires n < Two64
    ensures -Two63 <= r < Two63
  {
    if n < Two63 then n else n - Two64
  }

  /** `flake as u64` for an `i64`. */
  function AsU64(i: int): (r: nat)
    requires -Two63 <= i < Two63
    ensures r < Two64
  {
    i % Two64
  }

  /** Storing a user id in the signed column and reading it back gives the id again, and vice versa. */
  lemma SnowflakeRoundTrip(n: nat, i: int)
    requires n < Two64 && -Two63 <= i < Two63
    ensures AsU64(AsI64(n)) == n
    ensures AsI64(AsU64(i)) == i
  {
  }

  // ---------------------------------------------------------------------
  // Lookup by Discord name
  // ---------------------------------------------------------------------

  /** What `from_discord` reads from a candidate's `discorddata` without panicking. */
  predicate Readable(dd: Json, name: string, discriminator: Option<nat>) {
    AsStr(Get(dd, "username")).Some?
    && (discriminator.Some? && AsStr(Get(dd, "username")).value == name ==> AsU64Json(Get(dd, "discriminator")).Some?)
  }

  /** The filter of `from_discord`: username and discriminator, or username or nick. */
  predicate Matches(dd: Json, name: string, discriminator: Option<nat>)
    requires Readable(dd, name, discriminator)
  {
    match discriminator
    case Some(d) => AsStr(Get(dd, "username")).value == name && AsU64Json(Get(dd, "discriminator")).value == d
    case None => AsStr(Get(dd, "username")).value == name || AsStr(Get(dd, "nick")) == Some(name)
  }

  /** The caller's obligations: a valid discriminator, and Discord data that reads as the filter expects. */
  predicate CanLookUp(rows: seq<Person>, name: string, discriminator: Option<nat>) {
    (discriminator.Some? ==> 1 <= discriminator.value <= 9999)
    && forall p :: p in rows && p.discordData.Some? ==> Readable(p.discordData.value, name, discriminator)
  }

  predicate IsCandidate(p: Person, name: string, discriminator: Option<nat>)
    requires p.discordData.Some? ==> Readable(p.discordData.value, name, discriminator)
  {
    p.discordData.Some? && Matches(p.discordData.value, name, discriminator)
  }

  /** The rows with Discord data that pass the filter, in table order (`retain`). */
  function Candidates(rows: seq<Person>, name: string, discriminator: Option<nat>): (r: seq<Person>)
    requires CanLookUp(rows, name, discriminator)
    ensures forall p :: p in r <==> p in rows && IsCandidate(p, name, discriminator)
    ensures |r| <= |rows|
  {
    if rows == [] then []
    else
      assert forall p :: p in rows[1..] ==> p in rows;
      var rest := Candidates(rows[1..], name, discriminator);
      if IsCandidate(rows[0], name, discriminator) then [rows[0]] + rest else rest
  }

  /** `from_discord`: the candidate, when there is exactly one. */
  function FromDiscord(rows: seq<Person>, name: string, discriminator: Option<nat>): (r: Option<Person>)
    requires CanLookUp(rows, name, discriminator)
    ensures r.Some? ==> r.value in rows && IsCandidate(r.value, name, discriminator)
  {
    var c := Candidates(rows, name, discriminator);
    if |c| == 1 then assert c[0] in c; Some(c[0]) else None
  }

  lemma {:induction false} CandidatesCount(rows: seq<Person>, name: string, discriminator: Option<nat>, i: nat)
    requires CanLookUp(rows, name, discriminator)
    requires i < |rows| && IsCandidate(rows[i], name, discriminator)
    requires forall j :: 0 <= j < |rows| && j != i ==> !IsCandidate(rows[j], name, discriminator)
    ensures Candidates(rows, name, discriminator) == [rows[i]]
  {
    if i == 0 {
      assert forall j :: 0 <= j < |rows[1..]| ==> !IsCandidate(rows[1..][j], name, discriminator);
      NoCandidates(rows[1..], name, discriminator);
    } else {
      CandidatesCount(rows[1..], name, discriminator, i - 1);
    }
  }

  lemma NoCandidates(rows: seq<Person>, name: string, discriminator: Option<nat>)
    requires CanLookUp(rows, name, discriminator)
    requires forall j :: 0 <= j < |rows| ==> !IsCandidate(rows[j], name, discriminator)
    ensures Candidates(rows, name, discriminator) == []
  {
  }

  /** A single matching row is found. */
  lemma FromDiscordUnique(rows: seq<Person>, name: string, discriminator: Option<nat>, i: nat)
    requires CanLookUp(rows, name, discriminator)
    requires i < |rows| && IsCandidate(rows[i], name, discriminator)
    requires forall j :: 0 <= j < |rows| && j != i ==> !IsCandidate(rows[j], name, discriminator)
    ensures FromDiscord(rows, name, discriminator) == Some(rows[i])
  {
    CandidatesCount(rows, name, discriminator, i);
  }

  lemma {:induction false} CandidatesAtLeastTwo(rows: seq<Person>, name: string, discriminator: Option<nat>, i: nat, j: nat)
    requires CanLookUp(rows, name, discriminator)
    requires i < j < |rows| && IsCandidate(rows[i], name, discriminator) && IsCandidate(rows[j], name, discriminator)
    ensures |Candidates(rows, name, discriminator)| >= 2
  {
    if i == 0 {
      assert rows[j] == rows[1..][j - 1];
      assert rows[j] in rows[1..];
      assert rows[j] in Candidates(rows[1..], name, discriminator);
    } else {
      CandidatesAtLeastTwo(rows[1..], name, discriminator, i - 1, j - 1);
    }
  }

  /** Two matching rows make the name ambiguous, and nobody is found. */
  lemma FromDiscordAmbiguous(rows: seq<Person>, name: string, discriminator: Option<nat>, i: nat, j: nat)
    requires CanLookUp(rows, name, discriminator)
    requires i < j < |rows| && IsCandidate(rows[i], name, discriminator) && IsCandidate(rows[j], name, discriminator)
    ensures FromDiscord(rows, name, discriminator).None?
  {
    CandidatesAtLeastTwo(rows, name, discriminator, i, j);
  }

  // ---------------------------------------------------------------------
  // Mentions
  // ---------------------------------------------------------------------

  /** `UserId::mention`. */
  function UserMention(id: nat): string {
    "<@" + NatToDecimal(id) + ">"
  }

  /** The caller's obligation: the person has a snowflake or a Wurstmineberg id (otherwise the source panics). */
  predicate Mentionable(p: Person) {
    (p.snowflake.Some? ==> -Two63 <= p.snowflake.value < Two63) && (p.snowflake.Some? || p.wmbid.Some?)
  }

  /** `Person::mention`: a Discord mention when the snowflake is known, else the display name from `data`, else the Wurstmineberg id. */
  function Mention(p: Person): (r: string)
    requires Mentionable(p)
    ensures p.snowflake.Some? ==> |r| >= 4 && r[..2] == "<@" && r[|r| - 1] == '>' && AllDigits(r[2..|r| - 1])
    ensures p.snowflake.None? ==> r == p.wmbid.value || (p.data.Some? && AsStr(Get(p.data.value, "name")) == Some(r))
  {
    match p.snowflake
    case Some(flake) => UserMention(AsU64(flake))
    case None =>
      match p.data
      case Some(JObject(fields)) => if "name" in fields && fields["name"].JString? then fields["name"].s else p.wmbid.value
      case _ => p.wmbid.value
  }

  /** A person stored from a Discord user is mentioned as that user. */
  lemma MentionOfStoredUser(p: Person, user: nat)
    requires user < Two64 && p.snowflake == Some(AsI64(user))
    ensures Mentionable(p) && Mention(p) == UserMention(user)
  {
    SnowflakeRoundTrip(user, AsI64(user));
  }

  /** Without a snowflake, the mention is never a Discord mention unless the name says so: it is the `name` or the id. */
  lemma MentionWithoutSnowflake(p: Person)
    requires Mentionable(p) && p.snowflake.None?
    ensures p.data.Some? && AsStr(Get(p.data.value, "name")).Some? ==> Mention(p) == AsStr(Get(p.data.value, "name")).value
    ensures !(p.data.Some? && AsStr(Get(p.data.value, "name")).Some?) ==> Mention(p) == p.wmbid.value
  {
  }

  // ---------------------------------------------------------------------
  // Keeping Discord data in sync
  // ---------------------------------------------------------------------

  datatype DiscordUser = DiscordUser(id: nat, name: string, discriminator: nat, avatarUrl: Option<string>)

  /** A guild member; the join date is kept as the text it is stored as. */
  datatype Member = Member(user: DiscordUser, nick: Option<string>, joinedAt: Option<string>, roles: seq<nat>)

  datatype Error = MissingJoinDate

  function OptionalString(s: Option<string>): Json {
    match s
    case Some(t) => JString(t)
    case None => JNull
  }

  /** The `discorddata` object `update_discord_data` stores; no join date is an error. */
  function DiscordDataOf(m: Member): (r: Result<Json, Error>)
    ensures r.Err? <==> m.joinedAt.None?
    ensures r.Ok? ==> (AsStr(Get(r.value, "username")) == Some(m.user.name)
      && AsU64Json(Get(r.value, "discriminator")) == (if m.user.discriminator < Two64 then Some(m.user.discriminator) else None)
      && AsStr(Get(r.value, "nick")) == m.nick)
    ensures r.Ok? ==> (r.value.JObject? && r.value.fields.Keys == {"avatar", "discriminator", "joined", "nick", "roles", "username"}
      && Get(r.value, "joined") == JString(m.joinedAt.value)
      && AsStr(Get(r.value, "avatar")) == m.user.avatarUrl
      && Get(r.value, "roles").JArray? && |Get(r.value, "roles").items| == |m.roles|
      && forall i :: 0 <= i < |m.roles| ==> Get(r.value, "roles").items[i] == JNumber(m.roles[i]))
  {
    match m.joinedAt
    case None => Err(MissingJoinDate)
    case Some(joined) =>
      Ok(JObject(map[
        "avatar" := OptionalString(m.user.avatarUrl),
        "discriminator" := JNumber(m.user.discriminator),
        "joined" := JString(joined),
        "nick" := OptionalString(m.nick),
        "roles" := JArray(seq(|m.roles|, i requires 0 <= i < |m.roles| => JNumber(m.roles[i]))),
        "username" := JString(m.user.name)]))
  }

  /** Sets `discorddata` on every row with the given snowflake. */
  function SetDiscordData(rows: seq<Person>, flake: int, dd: Option<Json>): (r: seq<Person>)
    ensures |r| == |rows|
    ensures forall i :: 0 <= i < |rows| ==> r[i] == if rows[i].snowflake == Some(flake) then rows[i].(discordData := dd) else rows[i]
  {
    if rows == [] then []
    else
      [if rows[0].snowflake == Some(flake) then rows[0].(discordData := dd) else rows[0]]
      + SetDiscordData(rows[1..], flake, dd)
  }

  /** The first row with the given snowflake, as `get_result(…).optional()` returns it. */
  function FirstWithSnowflake(rows: seq<Person>, flake: int): (r: Option<Person>)
    ensures r.Some? ==> r.value in rows && r.value.snowflake == Some(flake)
    ensures r.None? ==> forall p :: p in rows ==> p.snowflake != Some(flake)
  {
    if rows == [] then None
    else if rows[0].snowflake == Some(flake) then Some(rows[0])
    else FirstWithSnowflake(rows[1..], flake)
  }

  /** `update_discord_data`: the table afterwards and the updated person, if any. */
  function UpdateDiscordData(rows: seq<Person>, m: Member): (r: Result<(seq<Person>, Option<Person>), Error>)
    requires m.user.id < Two64
    ensures r.Err? <==> m.joinedAt.None?
    ensures r.Err? ==> r.error == MissingJoinDate
    ensures r.Ok? ==> |r.value.0| == |rows| && forall i :: 0 <= i < |rows| ==>
      r.value.0[i] == if rows[i].snowflake == Some(AsI64(m.user.id)) then rows[i].(discordData := Some(DiscordDataOf(m).value)) else rows[i]
    ensures r.Ok? && r.value.1.Some? ==>
      r.value.1.value in r.value.0 && r.value.1.value.snowflake == Some(AsI64(m.user.id))
      && r.value.1.value.discordData == Some(DiscordDataOf(m).value)
    ensures r.Ok? && r.value.1.None? ==> forall p :: p in rows ==> p.snowflake != Some(AsI64(m.user.id))
  {
    match DiscordDataOf(m)
    case Err(e) => Err(e)
    case Ok(dd) =>
      var updated := SetDiscordData(rows, AsI64(m.user.id), Some(dd));
      Ok((updated, FirstWithSnowflake(updated, AsI64(m.user.id))))
  }

  /** `remove_discord_data`: the table afterwards and the updated person, if any. */
  function RemoveDiscordData(rows: seq<Person>, user: nat): (r: (seq<Person>, Option<Person>))
    requires user < Two64
    ensures |r.0| == |rows|
    ensures forall i :: 0 <= i < |rows| ==>
      r.0[i] == if rows[i].snowflake == Some(AsI64(user)) then rows[i].(discordData := None) else rows[i]
    ensures r.1.Some? ==> r.1.value in r.0 && r.1.value.snowflake == Some(AsI64(user)) && r.1.value.discordData.None?
    ensures r.1.None? ==> forall p :: p in rows ==> p.snowflake != Some(AsI64(user))
  {
    var updated := SetDiscordData(rows, AsI64(user), None);
    (updated, FirstWithSnowflake(updated, AsI64(user)))
  }

  /**
   * After `update_discord_data` for a member, `from_discord` finds that
   * member's row by username and discriminator, provided the member has one
   * row and nobody else with Discord data has the same username and
   * discriminator.
   */
  lemma UpdateThenFind(rows: seq<Person>, m: Member, i: nat)
    requires m.user.id < Two64 && 1 <= m.user.discriminator <= 9999 && m.joinedAt.Some?
    requires i < |rows| && rows[i].snowflake == Some(AsI64(m.user.id))
    requires forall j :: 0 <= j < |rows| && j != i ==> rows[j].snowflake != Some(AsI64(m.user.id))
    requires forall j :: 0 <= j < |rows| && j != i && rows[j].discordData.Some? ==>
      var dd := rows[j].discordData.value;
      AsStr(Get(dd, "username")).Some?
      && (AsStr(Get(dd, "username")).value == m.user.name ==>
            AsU64Json(Get(dd, "discriminator")).Some? && AsU64Json(Get(dd, "discriminator")).value != m.user.discriminator)
    ensures UpdateDiscordData(rows, m).Ok?
    ensures var after := UpdateDiscordData(rows, m).value.0;
      CanLookUp(after, m.user.name, Some(m.user.discriminator))
      && FromDiscord(after, m.user.name, Some(m.user.discriminator)) == Some(after[i])
      && UpdateDiscordData(rows, m).value.1 == Some(after[i])
  {
    var dd := DiscordDataOf(m).value;
    var after := SetDiscordData(rows, AsI64(m.user.id), Some(dd));
    var name := m.user.name;
    var d := Some(m.user.discriminator);
    forall p | p in after && p.discordData.Some? ensures Readable(p.discordData.value, name, d) {
      var k :| 0 <= k < |after| && after[k] == p;
    }
    assert IsCandidate(after[i], name, d);
    forall j | 0 <= j < |after| && j != i ensures !IsCandidate(after[j], name, d) {
      assert after[j] == rows[j];
    }
    FromDiscordUnique(after, name, d, i);
    FirstIsOnly(after, AsI64(m.user.id), i);
  }

  lemma {:induction false} FirstIsOnly(rows: seq<Person>, flake: int, i: nat)
    requires i < |rows| && rows[i].snowflake == Some(flake)
    requires forall j :: 0 <= j < |rows| && j != i ==> rows[j].snowflake != Some(flake)
    ensures FirstWithSnowflake(rows, flake) == Some(rows[i])
  {
    if i > 0 {
      FirstIsOnly(rows[1..], flake, i - 1);
    }
  }

  /** After `remove_discord_data` for a user, `from_discord` never returns that user's row. */
  lemma RemoveThenNotFound(rows: seq<Person>, user: nat, name: string, discriminator: Option<nat>)
    requires user < Two64
    requires CanLookUp(RemoveDiscordData(rows, user).0, name, discriminator)
    ensures var r := FromDiscord(RemoveDiscordData(rows, user).0, name, discriminator);
      r.None? || r.value.snowflake != Some(AsI64(user))
  {
  }
}
