/**
 * The Minecraft log handler of the older bot generation: a regular line's
 * body is either chat (`CHAT_LINE`), action chat (`CHAT_ACTION_LINE`) or
 * unknown, and chat is relayed through the world channel's webhook.
 */
module LegacyLog {
  import opened Wrappers
  import opened Text
  import opened ChatPatterns
  import opened Messages
  import LogEnvelope

  datatype RegularLine = Chat(sender: string, msg: string, isAction: bool) | UnknownRegular(text: string)

  datatype Line = Regular(content: RegularLine) | UnknownLine(text: string)

  datatype Error = Channel | Chase | FollowEnded | Io | NoWorlds | Serenity | Task

  /** The body matches the pattern that yields `r`, with `r`'s captures. */
  predicate Shows(s: string, r: RegularLine) {
    match r
    case Chat(sender, msg, isAction) => if isAction then IsAction(s, sender, msg) else IsChat(s, sender, msg)
    case UnknownRegular(_) => false
  }

  /** `RegularLine::from_str`: `CHAT_LINE` first, then `CHAT_ACTION_LINE`, else unknown. */
  function ParseRegularLine(s: string): (r: RegularLine)
    ensures r.UnknownRegular? || Shows(s, r)
    ensures r.UnknownRegular? ==> r.text == s
  {
    match MatchChat(s)
    case Some((sender, msg)) => Chat(sender, msg, false)
    case None =>
    match MatchAction(s)
    case Some((sender, msg)) => Chat(sender, msg, true)
    case None => UnknownRegular(s)
  }

  /** `Line::parse_regular`: `REGULAR_LINE` must match; only its fourth capture is classified. */
  function ParseRegular(s: string): Option<Line> {
    match LogEnvelope.Parse(s)
    case None => None
    case Some(e) => Some(Regular(ParseRegularLine(e.body)))
  }

  /** `Line::from_str`: total; a line that is not regular is kept verbatim. */
  function ParseLine(s: string): (r: Line)
    ensures r.Regular? || r == UnknownLine(s)
  {
    match ParseRegular(s)
    case Some(l) => l
    case None => UnknownLine(s)
  }

  /** At most one of the two patterns matches, with at most one set of captures. */
  lemma ShowsUnique(s: string, r1: RegularLine, r2: RegularLine)
    requires Shows(s, r1) && Shows(s, r2)
    ensures r1 == r2
  {
    if r1.isAction == r2.isAction {
      if r1.isAction {
        MatchActionCorrect(s, r1.sender, r1.msg);
        MatchActionCorrect(s, r2.sender, r2.msg);
      } else {
        MatchChatCorrect(s, r1.sender, r1.msg);
        MatchChatCorrect(s, r2.sender, r2.msg);
      }
    } else {
      ChatActionStart(s, r1.sender, r1.msg);
      ChatActionStart(s, r2.sender, r2.msg);
    }
  }

  /**
   * The classifier's answer is the pattern that matches, with its captures,
   * or `Unknown` carrying the body unchanged when neither does.
   */
  lemma ParseRegularLineCorrect(s: string, r: RegularLine)
    ensures ParseRegularLine(s) == r <==> Shows(s, r) || (r == UnknownRegular(s) && forall r' :: !Shows(s, r'))
  {
    var p := ParseRegularLine(s);
    MatchChatNone(s);
    MatchActionNone(s);
    if p.Chat? {
      if p.isAction {
        MatchActionCorrect(s, p.sender, p.msg);
      } else {
        MatchChatCorrect(s, p.sender, p.msg);
      }
      assert Shows(s, p);
      if Shows(s, r) {
        ShowsUnique(s, p, r);
      }
    } else {
      assert p == UnknownRegular(s);
      forall r' ensures !Shows(s, r') {
        if r'.Chat? && r'.isAction {
          assert !IsAction(s, r'.sender, r'.msg);
        } else if r'.Chat? {
          assert !IsChat(s, r'.sender, r'.msg);
        }
      }
    }
  }

  /** Both patterns are anchored: chat marked `[Not Secure] ` is not chat to this generation. */
  lemma NotSecureIsUnknown(s: string)
    requires NotSecure <= s
    ensures ParseRegularLine(s) == UnknownRegular(s)
  {
    assert s[0] == '[';
    ParseRegularLineCorrect(s, UnknownRegular(s));
  }

  /** `Line::from_str` classifies the body of exactly the lines that match the envelope. */
  lemma ParseLineRegular(s: string, e: LogEnvelope.Envelope)
    requires LogEnvelope.Matches(s, e)
    ensures ParseLine(s) == Regular(ParseRegularLine(e.body))
  {
    LogEnvelope.ParseComplete(s, e);
  }

  lemma ParseLineUnknown(s: string)
    ensures ParseLine(s) == UnknownLine(s) <==> forall e :: !LogEnvelope.Matches(s, e)
  {
    LogEnvelope.ParseNoneIffNoMatch(s);
  }

  // ---- relaying ----

  datatype Effect = WebhookExecute(webhook: nat, username: string, content: seq<Segment>)

  /** The webhook message for a chat line: attributed to the sender, italic for actions. */
  function Relay(webhook: nat, sender: string, msg: string, isAction: bool): Effect {
    WebhookExecute(webhook, sender, if isAction then [ItalicSafe(msg)] else [Safe(msg)])
  }

  /**
   * What the handler sends for the given lines. The handler re-reads the
   * shared context and the channel's webhooks for every chat line:
   * `ready[i]` says whether the Discord context was stored when line `i`
   * arrived, and `webhooks[i]` is the channel's webhook at that moment when
   * it had exactly one. `channel` is the world's configured channel.
   */
  function WorldEffects(lines: seq<Line>, ready: seq<bool>, channel: Option<nat>, webhooks: seq<Option<nat>>): seq<Effect>
    requires |ready| == |lines| && |webhooks| == |lines|
  {
    if lines == [] then []
    else
      var n := |lines| - 1;
      var l := lines[n];
      WorldEffects(lines[..n], ready[..n], channel, webhooks[..n])
      + (if l.Regular? && l.content.Chat? && ready[n] && channel.Some? && webhooks[n].Some?
         then [Relay(webhooks[n].value, l.content.sender, l.content.msg, l.content.isAction)]
         else [])
  }

  /** Every relayed message comes from a chat line that arrived with the context and a webhook, with that line's sender and text. */
  lemma {:induction false} EffectsFromChat(lines: seq<Line>, ready: seq<bool>, channel: Option<nat>, webhooks: seq<Option<nat>>, k: nat)
    requires |ready| == |lines| && |webhooks| == |lines|
    requires k < |WorldEffects(lines, ready, channel, webhooks)|
    ensures channel.Some?
    ensures exists i :: (0 <= i < |lines| && lines[i].Regular? && lines[i].content.Chat? && ready[i] && webhooks[i].Some?
      && WorldEffects(lines, ready, channel, webhooks)[k] == Relay(webhooks[i].value, lines[i].content.sender, lines[i].content.msg, lines[i].content.isAction))
  {
    var n := |lines| - 1;
    var before := WorldEffects(lines[..n], ready[..n], channel, webhooks[..n]);
    if k < |before| {
      EffectsFromChat(lines[..n], ready[..n], channel, webhooks[..n], k);
      var i :| 0 <= i < n && lines[..n][i].Regular? && lines[..n][i].content.Chat? && ready[..n][i] && webhooks[..n][i].Some?
        && before[k] == Relay(webhooks[..n][i].value, lines[..n][i].content.sender, lines[..n][i].content.msg, lines[..n][i].content.isAction);
      assert lines[i] == lines[..n][i] && ready[i] == ready[..n][i] && webhooks[i] == webhooks[..n][i];
    } else {
      assert lines[n].Regular?;
    }
  }

  /** With the context, the channel and a webhook present throughout, each chat line is relayed exactly once. */
  lemma {:induction false} EveryChatRelayed(lines: seq<Line>, ready: seq<bool>, channel: nat, webhooks: seq<Option<nat>>)
    requires |ready| == |lines| && |webhooks| == |lines|
    requires forall i :: 0 <= i < |lines| ==> ready[i] && webhooks[i].Some?
    ensures |WorldEffects(lines, ready, Some(channel), webhooks)| == ChatCount(lines)
  {
    if lines != [] {
      var n := |lines| - 1;
      EveryChatRelayed(lines[..n], ready[..n], channel, webhooks[..n]);
    }
  }

  /** One more line adds at most its own relay. */
  lemma WorldEffectsStep(lines: seq<Line>, ready: seq<bool>, channel: Option<nat>, webhooks: seq<Option<nat>>, i: nat)
    requires |ready| == |lines| && |webhooks| == |lines| && i < |lines|
    ensures var l := lines[i];
      WorldEffects(lines[..i + 1], ready[..i + 1], channel, webhooks[..i + 1])
      == WorldEffects(lines[..i], ready[..i], channel, webhooks[..i])
         + (if l.Regular? && l.content.Chat? && ready[i] && channel.Some? && webhooks[i].Some?
            then [Relay(webhooks[i].value, l.content.sender, l.content.msg, l.content.isAction)]
            else [])
  {
    assert lines[..i + 1][..i] == lines[..i];
    assert ready[..i + 1][..i] == ready[..i];
    assert webhooks[..i + 1][..i] == webhooks[..i];
  }

  function ChatCount(lines: seq<Line>): nat {
    if lines == [] then 0
    else ChatCount(lines[..|lines| - 1]) + (if lines[|lines| - 1].Regular? && lines[|lines| - 1].content.Chat? then 1 else 0)
  }

  /** The relayed text reads as the chat message, in italics exactly for actions. */
  lemma RelayText(webhook: nat, sender: string, msg: string, isAction: bool)
    ensures var e := Relay(webhook, sender, msg, isAction);
      e.username == sender && Raw(e.content) == msg && (e.content[0].ItalicSafe? <==> isAction)
  {
  }

  /**
   * `handle_world` over a finite log of parsed lines, with what each chat
   * line finds when it looks up the context and the webhooks; it ends with
   * `FollowEnded`.
   */
  method HandleWorld(lines: seq<Line>, ready: seq<bool>, channel: Option<nat>, webhooks: seq<Option<nat>>)
    returns (effects: seq<Effect>, err: Error)
    requires |ready| == |lines| && |webhooks| == |lines|
    ensures effects == WorldEffects(lines, ready, channel, webhooks)
    ensures err == FollowEnded
  {
    effects := [];
    var i := 0;
    while i < |lines|
      invariant i <= |lines|
      invariant effects == WorldEffects(lines[..i], ready[..i], channel, webhooks[..i])
    {
      WorldEffectsStep(lines, ready, channel, webhooks, i);
      match lines[i] {
        case Regular(content) =>
          match content {
            case Chat(sender, msg, isAction) =>
              if ready[i] && channel.Some? && webhooks[i].Some? {
                var body := if isAction then [ItalicSafe(msg)] else [Safe(msg)];
                effects := effects + [WebhookExecute(webhooks[i].value, sender, body)];
              }
            case UnknownRegular(_) =>
          }
        case UnknownLine(_) =>
      }
      i := i + 1;
    }
    assert lines[..i] == lines && ready[..i] == ready && webhooks[..i] == webhooks;
    err := FollowEnded;
  }
}
