/**
 * Calendar events (guided tours) and their announcements: the title and the
 * two location texts of an event, and the notification loop that announces
 * the upcoming events in the general channel, one after another.
 */
module Calendar {
  import opened Wrappers
  import opened Text

  /** `PersonId`: a Wurstmineberg id of the old people table, or a Discord user. */
  datatype PersonId = LegacyWurstmineberg(wmbid: string) | Discord(user: nat)

  /** `EventKind`: so far only tours, of an area or (without one) of the server. */
  datatype EventKind = Tour(area: Option<string>, guests: seq<PersonId>)

  /** A calendar row; times are Unix timestamps in seconds. */
  datatype Event = Event(id: int, startTime: int, endTime: int, kind: EventKind)

  // ---------------------------------------------------------------------
  // Title
  // ---------------------------------------------------------------------

  /** The guests' display names, in guest order. */
  function GuestNames(guests: seq<PersonId>, display: PersonId -> string): (r: seq<string>)
    ensures |r| == |guests|
    ensures forall i :: 0 <= i < |guests| ==> r[i] == display(guests[i])
  {
    if guests == [] then [] else GuestNames(guests[..|guests| - 1], display) + [display(guests[|guests| - 1])]
  }

  /** The list of names as the title shows it: the joined names, or `no one`. */
  function NamesText(joined: Option<string>): string {
    match joined
    case Some(names) => names
    case None => "no one"
  }

  /** The title a tour has, given how names are displayed and joined. */
  function TitleOf(kind: EventKind, display: PersonId -> string, join: seq<string> -> Option<string>): string {
    var names := NamesText(join(GuestNames(kind.guests, display)));
    match kind.area
    case Some(area) => "tour of " + area + " for " + names
    case None => "server tour for " + names
  }

  /**
   * `EventKind::title`: collects the guests' display names in a loop, then
   * formats. `display` is the name lookup for a person (it reads the people
   * table); `join` is the list formatter.
   */
  method Title(kind: EventKind, display: PersonId -> string, join: seq<string> -> Option<string>) returns (title: string)
    ensures title == TitleOf(kind, display, join)
  {
    var guestNames := [];
    for i := 0 to |kind.guests|
      invariant guestNames == GuestNames(kind.guests[..i], display)
    {
      assert kind.guests[..i + 1][..i] == kind.guests[..i];
      guestNames := guestNames + [display(kind.guests[i])];
    }
    assert kind.guests[..|kind.guests|] == kind.guests;
    var joined := join(guestNames);
    var names := if joined.Some? then joined.value else "no one";
    if kind.area.Some? {
      title := "tour of " + kind.area.value + " for " + names;
    } else {
      title := "server tour for " + names;
    }
  }

  /** A title names the area (or the server) and then who the tour is for: the joined guest names, or `no one` when they do not join. */
  lemma TitleShape(kind: EventKind, display: PersonId -> string, join: seq<string> -> Option<string>)
    ensures var t := TitleOf(kind, display, join);
      var names := join(GuestNames(kind.guests, display));
      (kind.area.Some? ==> t == "tour of " + kind.area.value + " for " + NamesText(names))
      && (kind.area.None? ==> t == "server tour for " + NamesText(names))
      && (names.None? ==> |t| >= 6 && t[|t| - 6..] == "no one")
      && (names.Some? ==> |t| >= |names.value| && t[|t| - |names.value|..] == names.value)
  {
  }

  /** Which names the title shows depends only on the guests' display names, not on who they are. */
  lemma TitleDependsOnNames(area: Option<string>, g1: seq<PersonId>, g2: seq<PersonId>, display: PersonId -> string, join: seq<string> -> Option<string>)
    requires |g1| == |g2| && forall i :: 0 <= i < |g1| ==> display(g1[i]) == display(g2[i])
    ensures TitleOf(Tour(area, g1), display, join) == TitleOf(Tour(area, g2), display, join)
  {
    assert GuestNames(g1, display) == GuestNames(g2, display);
  }

  // ---------------------------------------------------------------------
  // Locations
  // ---------------------------------------------------------------------

  const ZucchiniLink: string := "[Zucchini](https://wurstmineberg.de/wiki/renascence#zucchini)"

  /** `ics_location`: the area, or the spawn platform at Zucchini when there is none. */
  function IcsLocation(kind: EventKind): (r: string)
    ensures kind.area.Some? ==> r == kind.area.value + "\nWurstmineberg"
    ensures kind.area.None? ==> r == "spawn platform\nZucchini\nWurstmineberg"
  {
    match kind.area
    case Some(area) => area + "\nWurstmineberg"
    case None => "spawn platform\nZucchini\nWurstmineberg"
  }

  /** `discord_location`: as `ics_location`, with Zucchini linked to its wiki page. */
  function DiscordLocation(kind: EventKind): (r: string)
    ensures kind.area.Some? ==> r == kind.area.value + "\nWurstmineberg"
    ensures kind.area.None? ==> r == "spawn platform\n" + ZucchiniLink + "\nWurstmineberg"
  {
    match kind.area
    case Some(area) => area + "\nWurstmineberg"
    case None => "spawn platform\n" + ZucchiniLink + "\nWurstmineberg"
  }

  /**
   * The two locations agree when the tour has an area; without one they
   * differ exactly in the Zucchini line, plain in the calendar file and
   * linked on Discord. Both always end with the server's name.
   */
  lemma LocationsAgree(kind: EventKind)
    ensures kind.area.Some? ==> DiscordLocation(kind) == IcsLocation(kind)
    ensures kind.area.None? ==> exists pre, post :: (IcsLocation(kind) == pre + "Zucchini" + post
      && DiscordLocation(kind) == pre + ZucchiniLink + post)
    ensures |IcsLocation(kind)| >= 14 && IcsLocation(kind)[|IcsLocation(kind)| - 14..] == "\nWurstmineberg"
    ensures |DiscordLocation(kind)| >= 14 && DiscordLocation(kind)[|DiscordLocation(kind)| - 14..] == "\nWurstmineberg"
  {
    if kind.area.None? {
      var pre, post := "spawn platform\n", "\nWurstmineberg";
      assert IcsLocation(kind) == pre + "Zucchini" + post;
      assert DiscordLocation(kind) == pre + ZucchiniLink + post;
    }
  }

  // ---------------------------------------------------------------------
  // Notifications
  // ---------------------------------------------------------------------

  /** The embed colour of announcements. */
  const Colour: nat := 8794372

  /** A Discord timestamp tag, `<t:TS:STYLE>`, shown in each reader's time zone. */
  function TimeTag(ts: int, style: char): (r: string)
    ensures |r| >= 7 && r[..3] == "<t:" && r[|r| - 3..] == [':', style, '>'] && r[3..|r| - 3] == IntToDecimal(ts)
  {
    "<t:" + IntToDecimal(ts) + ":" + [style] + ">"
  }

  datatype Field = Field(name: string, value: string, inline: bool)

  datatype Embed = Embed(colour: nat, title: string, description: string, fields: seq<Field>)

  /** A message to the general channel: its text and one embed. */
  datatype Announcement = Announcement(content: string, embed: Embed)

  /** The announcement of an event with this title. */
  function AnnouncementOf(event: Event, title: string): (a: Announcement)
    ensures a.content == "event starting " + TimeTag(event.startTime, 'R')
    ensures a.embed.fields == [Field("starts", TimeTag(event.startTime, 'F'), false), Field("ends", TimeTag(event.endTime, 'F'), false)]
    ensures a.embed.colour == Colour && a.embed.title == title && a.embed.description == DiscordLocation(event.kind)
  {
    Announcement("event starting " + TimeTag(event.startTime, 'R'),
      Embed(Colour, title, DiscordLocation(event.kind),
        [Field("starts", TimeTag(event.startTime, 'F'), false), Field("ends", TimeTag(event.endTime, 'F'), false)]))
  }

  /** The time tags can be read back: an announcement's text determines the event's start. */
  lemma TimeTagInjective(a: int, b: int, style: char)
    requires TimeTag(a, style) == TimeTag(b, style)
    ensures a == b
  {
    var ta, tb := IntToDecimal(a), IntToDecimal(b);
    assert |ta| == |tb|;
    assert ta == TimeTag(a, style)[3..3 + |ta|];
    IntToDecimalInjective(a, b);
  }

  /** Two announcements with the same text announce events starting at the same time. */
  lemma AnnouncementStart(e1: Event, e2: Event, t1: string, t2: string)
    requires AnnouncementOf(e1, t1).content == AnnouncementOf(e2, t2).content
    ensures e1.startTime == e2.startTime
  {
    var p := "event starting ";
    assert TimeTag(e1.startTime, 'R') == AnnouncementOf(e1, t1).content[|p|..];
    assert TimeTag(e2.startTime, 'R') == AnnouncementOf(e2, t2).content[|p|..];
    TimeTagInjective(e1.startTime, e2.startTime, 'R');
  }

  /**
   * `notifications`: `fetched` is the query result (the upcoming events by
   * start time). The loop takes the first remaining event until none is left
   * and announces it; waiting until half an hour before the start is left to
   * the clock.
   */
  method Notifications(fetched: seq<Event>, display: PersonId -> string, join: seq<string> -> Option<string>)
    returns (sent: seq<Announcement>)
    ensures |sent| == |fetched|
    ensures forall i :: 0 <= i < |fetched| ==> sent[i] == AnnouncementOf(fetched[i], TitleOf(fetched[i].kind, display, join))
  {
    var unnotified := fetched;
    sent := [];
    while unnotified != []
      invariant |sent| + |unnotified| == |fetched|
      invariant unnotified == fetched[|sent|..]
      invariant forall i :: 0 <= i < |sent| ==> sent[i] == AnnouncementOf(fetched[i], TitleOf(fetched[i].kind, display, join))
      decreases |unnotified|
    {
      var event := unnotified[0];
      unnotified := unnotified[1..];
      var title := Title(event.kind, display, join);
      sent := sent + [AnnouncementOf(event, title)];
    }
  }
}
