/**
 * The Minecraft log handler of the newer bot generation: classification of a
 * log line into chat, action chat, player UUID announcement, advancement or
 * unknown, and the per-world loop that relays chat through the world
 * channel's webhook and advancements as channel messages while keeping a
 * nickname-to-UUID table for avatars.
 *
 * The log is given as the sequence of lines the follower would yield; Discord
 * is reduced to the effects the loop issues.
 */
module CrateLog {
  import opened Wrappers
  import opened Text
  import opened ChatPatterns
  import opened Messages
  import LogEnvelope

  datatype AdvancementKind = Challenge | Goal | Task

  datatype RegularLine =
    | Chat(sender: string, msg: string, isAction: bool)
    | PlayerUuid(nickname: string, uuid: string)
    | Advancement(kind: AdvancementKind, player: string, advancement: string)
    | UnknownRegular(text: string)

  datatype Line = Regular(content: RegularLine) | UnknownLine(text: string)

  datatype Error = Channel | Chase | FollowEnded | Io | Minecraft | NoWorlds | Serenity | Task

  /** The literal text between player and advancement, for both matching and relaying. */
  function Phrase(k: AdvancementKind): string {
    match k
    case Challenge => " has completed the challenge ["
    case Goal => " has reached the goal ["
    case Task => " has made the advancement ["
  }

  /** `[0-9a-f]{8}-[0-9a-f]{4}-[0-9a-f]{4}-[0-9a-f]{4}-[0-9a-f]{12}` */
  predicate IsUuid(u: string) {
    |u| == 36 && forall i :: 0 <= i < 36 ==> if i == 8 || i == 13 || i == 18 || i == 23 then u[i] == '-' else IsLowerHex(u[i])
  }

  // ---- the patterns, stated declaratively ----

  /** `^(?:\[Not Secure\] )?<name> msg$` */
  predicate IsChatBody(s: string, sender: string, msg: string) {
    IsChat(s, sender, msg) || (NotSecure <= s && IsChat(s[|NotSecure|..], sender, msg))
  }

  /** `^(?:\[Not Secure\] )?\* name msg$` */
  predicate IsActionBody(s: string, sender: string, msg: string) {
    IsAction(s, sender, msg) || (NotSecure <= s && IsAction(s[|NotSecure|..], sender, msg))
  }

  /** `^UUID of player name is uuid$` */
  predicate IsUuidBody(s: string, nickname: string, uuid: string) {
    IsNameBetween(s, "UUID of player ", " is ", nickname, uuid) && IsUuid(uuid)
  }

  /** `^name has … \[(.+)\]$` for the phrase of `k`. */
  predicate IsAdvancementBody(s: string, k: AdvancementKind, player: string, advancement: string) {
    IsNameBetween(s, "", Phrase(k), player, advancement + "]") && IsLineRest(advancement)
  }

  /** The body matches the pattern that yields `r`, with `r`'s captures. */
  predicate Shows(s: string, r: RegularLine) {
    match r
    case Chat(sender, msg, isAction) => if isAction then IsActionBody(s, sender, msg) else IsChatBody(s, sender, msg)
    case PlayerUuid(nickname, uuid) => IsUuidBody(s, nickname, uuid)
    case Advancement(k, player, advancement) => IsAdvancementBody(s, k, player, advancement)
    case UnknownRegular(_) => false
  }

  // ---- the matchers ----

  /** Drops the optional `[Not Secure] ` prefix. */
  function StripNotSecure(s: string): string {
    if NotSecure <= s then s[|NotSecure|..] else s
  }

  /** The UUID pattern's captures, if it matches. */
  function MatchUuid(s: string): (r: Option<(string, string)>)
    ensures r.Some? ==> IsUuidBody(s, r.value.0, r.value.1)
  {
    match MatchNameBetween(s, "UUID of player ", " is ")
    case None => None
    case Some((nickname, uuid)) =>
      MatchNameBetweenSound(s, "UUID of player ", " is ", nickname, uuid);
      if IsUuid(uuid) then Some((nickname, uuid)) else None
  }

  /** The captures of the advancement pattern of kind `k`, if it matches. */
  function MatchAdvancement(s: string, k: AdvancementKind): (r: Option<(string, string)>)
    ensures r.Some? ==> IsAdvancementBody(s, k, r.value.0, r.value.1)
  {
    match MatchNameBetween(s, "", Phrase(k))
    case None => None
    case Some((player, rest)) =>
      if |rest| >= 2 && rest[|rest| - 1] == ']' && IsLineRest(rest[..|rest| - 1]) then
        AdvancementCaptures(s, k, player, rest);
        Some((player, rest[..|rest| - 1]))
      else None
  }

  lemma AdvancementCaptures(s: string, k: AdvancementKind, player: string, rest: string)
    requires MatchNameBetween(s, "", Phrase(k)) == Some((player, rest))
    requires |rest| >= 2 && rest[|rest| - 1] == ']' && IsLineRest(rest[..|rest| - 1])
    ensures IsAdvancementBody(s, k, player, rest[..|rest| - 1])
  {
    var advancement := rest[..|rest| - 1];
    assert rest == advancement + "]";
    MatchNameBetweenSound(s, "", Phrase(k), player, advancement + "]");
  }

  /** `RegularLine::from_str`: the patterns in their source order, first match wins. */
  function ParseRegularLine(s: string): (r: RegularLine)
    ensures r.UnknownRegular? || Shows(s, r)
    ensures r.UnknownRegular? ==> r.text == s
  {
    match MatchChat(StripNotSecure(s))
    case Some((sender, msg)) => Chat(sender, msg, false)
    case None =>
    match MatchAction(StripNotSecure(s))
    case Some((sender, msg)) => Chat(sender, msg, true)
    case None =>
    match MatchUuid(s)
    case Some((nickname, uuid)) => PlayerUuid(nickname, uuid)
    case None =>
    match MatchAdvancement(s, Challenge)
    case Some((player, advancement)) => Advancement(Challenge, player, advancement)
    case None =>
    match MatchAdvancement(s, Goal)
    case Some((player, advancement)) => Advancement(Goal, player, advancement)
    case None =>
    match MatchAdvancement(s, AdvancementKind.Task)
    case Some((player, advancement)) => Advancement(AdvancementKind.Task, player, advancement)
    case None => UnknownRegular(s)
  }

  /** `Line::parse_regular`: the envelope must match; only its body is classified. */
  function ParseRegular(s: string): Option<Line> {
    match LogEnvelope.Parse(s)
    case None => None
    case Some(e) => Some(Regular(ParseRegularLine(e.body)))
  }

  /** `Line::from_str`: total; a line that is not regular is kept verbatim. */
  function ParseLine(s: string): (r: Line)
    ensures r.Regular? || r == UnknownLine(s)
  {
    match ParseRegular(s)
    case Some(l) => l
    case None => UnknownLine(s)
  }

  // ---- each matcher agrees with its pattern ----

  lemma StripChatCorrect(s: string, sender: string, msg: string)
    ensures MatchChat(StripNotSecure(s)) == Some((sender, msg)) <==> IsChatBody(s, sender, msg)
  {
    MatchChatCorrect(StripNotSecure(s), sender, msg);
    if NotSecure <= s { assert s[0] == '['; }
  }

  lemma StripActionCorrect(s: string, sender: string, msg: string)
    ensures MatchAction(StripNotSecure(s)) == Some((sender, msg)) <==> IsActionBody(s, sender, msg)
  {
    MatchActionCorrect(StripNotSecure(s), sender, msg);
    if NotSecure <= s { assert s[0] == '['; }
  }

  lemma MatchUuidCorrect(s: string, nickname: string, uuid: string)
    ensures MatchUuid(s) == Some((nickname, uuid)) <==> IsUuidBody(s, nickname, uuid)
  {
    MatchNameBetweenCorrect(s, "UUID of player ", " is ", nickname, uuid);
  }

  lemma MatchAdvancementCorrect(s: string, k: AdvancementKind, player: string, advancement: string)
    ensures MatchAdvancement(s, k) == Some((player, advancement)) <==> IsAdvancementBody(s, k, player, advancement)
  {
    var rest := advancement + "]";
    MatchNameBetweenCorrect(s, "", Phrase(k), player, rest);
    if IsAdvancementBody(s, k, player, advancement) {
      assert rest[..|rest| - 1] == advancement;
    }
    if MatchAdvancement(s, k) == Some((player, advancement)) {
      var r := MatchNameBetween(s, "", Phrase(k)).value.1;
      assert r == r[..|r| - 1] + "]";
    }
  }

  // ---- the patterns exclude one another ----

  lemma AdvancementStart(s: string, k: AdvancementKind, player: string, advancement: string)
    requires IsAdvancementBody(s, k, player, advancement)
    ensures Run(s, IsWordChar) == |player|
    ensures s[|player|..] == Phrase(k) + (advancement + "]")
  {
    NameBetweenSplit(s, "", Phrase(k), player, advancement + "]");
    assert s[0..] == s;
  }

  /** Text that starts with a phrase: all phrases start with " h", and differ at index 5. */
  lemma PhraseStart(t: string, k: AdvancementKind, x: string)
    requires t == Phrase(k) + x
    ensures |t| > 5 && t[1] == 'h' && t[5] == Phrase(k)[5]
  {
  }

  lemma PhrasesDiffer(k1: AdvancementKind, k2: AdvancementKind)
    requires Phrase(k1)[5] == Phrase(k2)[5]
    ensures k1 == k2
  {
  }

  lemma UuidStart(s: string, nickname: string, uuid: string)
    requires IsUuidBody(s, nickname, uuid)
    ensures Run(s, IsWordChar) == 4
    ensures |s| > 5 && s[5] == 'o'
  {
    var pre := "UUID of player ";
    assert s == pre + (nickname + " is " + uuid);
    assert s[0] == 'U' && s[1] == 'U' && s[2] == 'I' && s[3] == 'D';
    assert s[4] == ' ' && s[5] == 'o';
    RunUnique(s, IsWordChar, 4);
  }

  lemma AdvancementsExclusive(s: string, k1: AdvancementKind, p1: string, a1: string, k2: AdvancementKind, p2: string, a2: string)
    requires IsAdvancementBody(s, k1, p1, a1) && IsAdvancementBody(s, k2, p2, a2)
    ensures k1 == k2 && p1 == p2 && a1 == a2
  {
    AdvancementStart(s, k1, p1, a1);
    AdvancementStart(s, k2, p2, a2);
    PhraseStart(s[|p1|..], k1, a1 + "]");
    PhraseStart(s[|p1|..], k2, a2 + "]");
    PhrasesDiffer(k1, k2);
    MatchAdvancementCorrect(s, k1, p1, a1);
    MatchAdvancementCorrect(s, k1, p2, a2);
  }

  lemma UuidNotAdvancement(s: string, n: string, u: string, k: AdvancementKind, p: string, a: string)
    requires IsUuidBody(s, n, u)
    ensures !IsAdvancementBody(s, k, p, a)
  {
    UuidStart(s, n, u);
    if IsAdvancementBody(s, k, p, a) {
      AdvancementStart(s, k, p, a);
      PhraseStart(s[|p|..], k, a + "]");
    }
  }

  /** A chat or action body starts with `<`, `*` or `[`; after `[Not Secure] ` comes `<` or `*`. */
  lemma ChatLikeStart(s: string, r: RegularLine)
    requires r.Chat? && Shows(s, r)
    ensures |s| > 0 && (s[0] == '<' || s[0] == '*' || s[0] == '[')
    ensures s[0] == '[' ==> NotSecure <= s && |s| > 13
    ensures NotSecure <= s ==> (if r.isAction then s[13] == '*' else s[13] == '<')
  {
  }

  /** An advancement body starts with a word character. */
  lemma AdvancementFirst(s: string, k: AdvancementKind, p: string, a: string)
    requires IsAdvancementBody(s, k, p, a)
    ensures |s| > 0 && IsWordChar(s[0])
  {
    assert s[0] == p[0];
  }

  /** At most one pattern matches a body, with at most one set of captures. */
  lemma ShowsUnique(s: string, r1: RegularLine, r2: RegularLine)
    requires Shows(s, r1) && Shows(s, r2)
    ensures r1 == r2
  {
    match r1 {
      case Chat(n1, m1, act1) =>
        ChatLikeStart(s, r1);
        match r2 {
          case Chat(n2, m2, act2) =>
            ChatLikeStart(s, r2);
            if act1 {
              StripActionCorrect(s, n1, m1);
              StripActionCorrect(s, n2, m2);
            } else {
              StripChatCorrect(s, n1, m1);
              StripChatCorrect(s, n2, m2);
            }
          case PlayerUuid(n2, u2) =>
          case Advancement(k2, p2, a2) =>
            AdvancementFirst(s, k2, p2, a2);
          case UnknownRegular(_) =>
        }
      case PlayerUuid(n1, u1) =>
        match r2 {
          case Chat(_, _, _) =>
            ChatLikeStart(s, r2);
          case PlayerUuid(n2, u2) =>
            MatchUuidCorrect(s, n1, u1);
            MatchUuidCorrect(s, n2, u2);
          case Advancement(k2, p2, a2) =>
            UuidNotAdvancement(s, n1, u1, k2, p2, a2);
          case UnknownRegular(_) =>
        }
      case Advancement(k1, p1, a1) =>
        match r2 {
          case Chat(_, _, _) =>
            ChatLikeStart(s, r2);
            AdvancementFirst(s, k1, p1, a1);
          case PlayerUuid(n2, u2) =>
            UuidNotAdvancement(s, n2, u2, k1, p1, a1);
          case Advancement(k2, p2, a2) =>
            AdvancementsExclusive(s, k1, p1, a1, k2, p2, a2);
          case UnknownRegular(_) =>
        }
      case UnknownRegular(_) =>
    }
  }

  // ---- the classifier agrees with the patterns ----

  /** When the classifier falls through to `Unknown`, every matcher has failed. */
  lemma UnknownMeansNoMatch(s: string)
    requires ParseRegularLine(s).UnknownRegular?
    ensures MatchChat(StripNotSecure(s)).None? && MatchAction(StripNotSecure(s)).None? && MatchUuid(s).None?
    ensures forall k :: MatchAdvancement(s, k).None?
  {
    forall k ensures MatchAdvancement(s, k).None? {
      match k
      case Challenge =>
      case Goal =>
      case Task =>
    }
  }

  /** A body that matches some pattern is never left unknown. */
  lemma ParseRegularLineComplete(s: string, r: RegularLine)
    requires Shows(s, r)
    ensures !ParseRegularLine(s).UnknownRegular?
  {
    if ParseRegularLine(s).UnknownRegular? {
      UnknownMeansNoMatch(s);
      match r
      case Chat(sender, msg, isAction) =>
        if isAction {
          StripActionCorrect(s, sender, msg);
        } else {
          StripChatCorrect(s, sender, msg);
        }
      case PlayerUuid(nickname, uuid) =>
        MatchUuidCorrect(s, nickname, uuid);
      case Advancement(k, player, advancement) =>
        MatchAdvancementCorrect(s, k, player, advancement);
      case UnknownRegular(_) =>
    }
  }

  /**
   * The classifier's answer is the one pattern that matches, with its
   * captures, or `Unknown` carrying the body unchanged when none does. Since
   * the patterns exclude one another, the source's first-match order never
   * decides between two candidates.
   */
  lemma ParseRegularLineCorrect(s: string, r: RegularLine)
    ensures ParseRegularLine(s) == r <==> Shows(s, r) || (r == UnknownRegular(s) && forall r' :: !Shows(s, r'))
  {
    var p := ParseRegularLine(s);
    if Shows(s, r) {
      ParseRegularLineComplete(s, r);
      ShowsUnique(s, p, r);
    }
    if p.UnknownRegular? {
      forall r' | Shows(s, r') ensures false {
        ParseRegularLineComplete(s, r');
      }
    }
  }

  /** `Line::from_str` classifies the body of exactly the lines that match the envelope. */
  lemma ParseLineRegular(s: string, e: LogEnvelope.Envelope)
    requires LogEnvelope.Matches(s, e)
    ensures ParseLine(s) == Regular(ParseRegularLine(e.body))
  {
    LogEnvelope.ParseComplete(s, e);
  }

  lemma ParseLineUnknown(s: string)
    ensures ParseLine(s) == UnknownLine(s) <==> forall e :: !LogEnvelope.Matches(s, e)
  {
    LogEnvelope.ParseNoneIffNoMatch(s);
  }

  // ---- relaying ----

  datatype Effect =
    | WebhookExecute(webhook: nat, username: string, avatarUrl: Option<string>, content: seq<Segment>)
    | Say(channel: nat, content: seq<Segment>)

  const AvatarBase: string := "https://crafatar.com/renders/head/"

  /** The channel message announcing an advancement. */
  function AdvancementMessage(k: AdvancementKind, player: string, advancement: string): seq<Segment> {
    [Safe(player), Plain(Phrase(k)), Safe(advancement), Plain("]")]
  }

  lemma AdvancementMessageRaw(k: AdvancementKind, player: string, advancement: string)
    ensures Raw(AdvancementMessage(k, player, advancement)) == player + Phrase(k) + advancement + "]"
  {
    var a, b, c, d := [Safe(player)], [Plain(Phrase(k))], [Safe(advancement)], [Plain("]")];
    assert AdvancementMessage(k, player, advancement) == a + b + c + d;
    RawAppend(a + b + c, d);
    RawAppend(a + b, c);
    RawAppend(a, b);
  }

  /** The message rebuilt from an advancement body's captures reads like the body. */
  lemma AdvancementBodyRaw(s: string, k: AdvancementKind, player: string, advancement: string)
    requires IsAdvancementBody(s, k, player, advancement)
    ensures Raw(AdvancementMessage(k, player, advancement)) == s
  {
    AdvancementMessageRaw(k, player, advancement);
  }

  /** The relayed advancement reads exactly like the log body it was parsed from. */
  lemma AdvancementRelayReproduces(s: string, k: AdvancementKind, player: string, advancement: string)
    requires ParseRegularLine(s) == Advancement(k, player, advancement)
    ensures Raw(AdvancementMessage(k, player, advancement)) == s
  {
    AdvancementBodyRaw(s, k, player, advancement);
  }

  /** The avatar for a chat sender: their head render, when their UUID has been seen. */
  function Avatar(uuids: map<string, string>, sender: string): Option<string> {
    if sender in uuids then Some(AvatarBase + uuids[sender]) else None
  }

  /** How the nickname table changes for one line: only a UUID line changes it. */
  function UuidStep(uuids: map<string, string>, l: Line): map<string, string> {
    if l.Regular? && l.content.PlayerUuid? then uuids[l.content.nickname := l.content.uuid] else uuids
  }

  /** What one line makes the handler send, given the table as it stood before the line. */
  function LineEffects(uuids: map<string, string>, l: Line, channel: Option<nat>, webhook: Option<nat>): seq<Effect> {
    match l
    case UnknownLine(_) => []
    case Regular(c) =>
      match c
      case Chat(sender, msg, isAction) =>
        if channel.Some? && webhook.Some? then
          [WebhookExecute(webhook.value, sender, Avatar(uuids, sender), if isAction then [ItalicSafe(msg)] else [Safe(msg)])]
        else []
      case PlayerUuid(_, _) => []
      case Advancement(k, player, advancement) =>
        if channel.Some? then [Say(channel.value, AdvancementMessage(k, player, advancement))] else []
      case UnknownRegular(_) => []
  }

  /** The nickname table after the given lines. */
  function PlayerUuids(lines: seq<Line>): map<string, string>
  {
    if lines == [] then map[] else UuidStep(PlayerUuids(lines[..|lines| - 1]), lines[|lines| - 1])
  }

  /** Everything the handler sends for the given lines, in order. */
  function WorldEffects(lines: seq<Line>, channel: Option<nat>, webhook: Option<nat>): seq<Effect>
  {
    if lines == [] then []
    else
      var prefix := lines[..|lines| - 1];
      WorldEffects(prefix, channel, webhook) + LineEffects(PlayerUuids(prefix), lines[|lines| - 1], channel, webhook)
  }

  /** The line announces the UUID of this nickname. */
  predicate AnnouncesUuid(l: Line, nickname: string) {
    l.Regular? && l.content.PlayerUuid? && l.content.nickname == nickname
  }

  /** A nickname no line announced has no entry. */
  lemma {:induction false} UuidAbsent(lines: seq<Line>, nickname: string)
    requires forall j :: 0 <= j < |lines| ==> !AnnouncesUuid(lines[j], nickname)
    ensures nickname !in PlayerUuids(lines)
  {
    if lines != [] {
      var prefix := lines[..|lines| - 1];
      assert forall j :: 0 <= j < |prefix| ==> prefix[j] == lines[j];
      UuidAbsent(prefix, nickname);
      assert !AnnouncesUuid(lines[|lines| - 1], nickname);
    }
  }

  /** The entry for a nickname is the UUID of its last announcement: later lines overwrite earlier ones. */
  lemma {:induction false} UuidFromLastAnnouncement(lines: seq<Line>, i: nat, nickname: string)
    requires i < |lines| && AnnouncesUuid(lines[i], nickname)
    requires forall j :: i < j < |lines| ==> !AnnouncesUuid(lines[j], nickname)
    ensures nickname in PlayerUuids(lines)
    ensures PlayerUuids(lines)[nickname] == lines[i].content.uuid
  {
    var prefix := lines[..|lines| - 1];
    if i < |lines| - 1 {
      assert forall j :: i < j < |prefix| ==> prefix[j] == lines[j];
      UuidFromLastAnnouncement(prefix, i, nickname);
      assert !AnnouncesUuid(lines[|lines| - 1], nickname);
    }
  }

  /** Only UUID announcements touch the table; unknown lines also send nothing. */
  lemma LineIgnored(lines: seq<Line>, l: Line, channel: Option<nat>, webhook: Option<nat>)
    ensures !(l.Regular? && l.content.PlayerUuid?) ==> PlayerUuids(lines + [l]) == PlayerUuids(lines)
    ensures l.UnknownLine? || l.content.UnknownRegular? ==> WorldEffects(lines + [l], channel, webhook) == WorldEffects(lines, channel, webhook)
  {
    assert (lines + [l])[..|lines|] == lines;
  }

  /**
   * `handle_world` over a finite log: the lines are those the follower
   * yields, each already parsed by `ParseLine`; the table is updated in place;
   * the loop ends with `FollowEnded` when the lines run out. `channel` is the
   * world's configured channel, `webhook` the channel's webhook when it has
   * exactly one.
   */
  method HandleWorld(lines: seq<Line>, channel: Option<nat>, webhook: Option<nat>)
    returns (effects: seq<Effect>, playerUuids: map<string, string>, err: Error)
    ensures effects == WorldEffects(lines, channel, webhook)
    ensures playerUuids == PlayerUuids(lines)
    ensures err == FollowEnded
  {
    effects := [];
    playerUuids := map[];
    var i := 0;
    while i < |lines|
      invariant i <= |lines|
      invariant effects == WorldEffects(lines[..i], channel, webhook)
      invariant playerUuids == PlayerUuids(lines[..i])
    {
      assert lines[..i + 1][..i] == lines[..i];
      match lines[i] {
        case Regular(content) =>
          match content {
            case Chat(sender, msg, isAction) =>
              if channel.Some? && webhook.Some? {
                var avatar := if sender in playerUuids then Some(AvatarBase + playerUuids[sender]) else None;
                var body := if isAction then [ItalicSafe(msg)] else [Safe(msg)];
                effects := effects + [WebhookExecute(webhook.value, sender, avatar, body)];
              }
            case PlayerUuid(nickname, uuid) =>
              playerUuids := playerUuids[nickname := uuid];
            case Advancement(kind, player, advancement) =>
              if channel.Some? {
                effects := effects + [Say(channel.value, [Safe(player), Plain(Phrase(kind)), Safe(advancement), Plain("]")])];
              }
            case UnknownRegular(_) =>
          }
        case UnknownLine(_) =>
      }
      i := i + 1;
    }
    assert lines[..i] == lines;
    err := FollowEnded;
  }

  /** How a spawned world task ended: with its error, or by panicking. */
  datatype TaskOutcome = Ended(error: Error) | Panicked

  predicate AnyPanicked(outcomes: seq<TaskOutcome>) {
    exists i :: 0 <= i < |outcomes| && outcomes[i].Panicked?
  }

  /**
   * `handle` once every world task has ended: a panic is reported as a task
   * error, otherwise the last world's error; with no worlds at all, `NoWorlds`.
   */
  function HandleResult(outcomes: seq<TaskOutcome>): (e: Error)
    ensures outcomes == [] ==> e == NoWorlds
    ensures AnyPanicked(outcomes) ==> e == Error.Task
    ensures outcomes != [] && !AnyPanicked(outcomes) ==> e == outcomes[|outcomes| - 1].error
  {
    if AnyPanicked(outcomes) then Error.Task
    else if outcomes == [] then NoWorlds
    else outcomes[|outcomes| - 1].error
  }
}
