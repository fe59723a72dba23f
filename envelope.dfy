/**
 * The envelope of a regular Minecraft server log line,
 * `YYYY-MM-DD HH:MM:SS [thread/LEVEL]: body`, and the `Thread` and `Level`
 * parsers. Both generations of the bot use the same envelope pattern
 * (`REGULAR_LINE` in the older one, the inline `regex_captures!` in
 * `Line::parse_regular` in the newer one), so it is modelled once here.
 */
module LogEnvelope {
  import opened Wrappers
  import opened Text

  datatype Thread = Server | UnknownThread(name: string)

  datatype Level = Info | Warn | Error

  /** `Thread::from_str`: never fails; only the exact name "Server thread" is the server thread. */
  function ParseThread(s: string): (t: Thread)
    ensures t.Server? <==> s == "Server thread"
    ensures t.UnknownThread? ==> t.name == s
  {
    if s == "Server thread" then Server else UnknownThread(s)
  }

  function LevelText(l: Level): string {
    match l
    case Info => "INFO"
    case Warn => "WARN"
    case Error => "ERROR"
  }

  /** `Level::from_str`: exactly "INFO", "WARN" and "ERROR" parse. */
  function ParseLevel(s: string): (r: Option<Level>)
    ensures r.Some? <==> s == "INFO" || s == "WARN" || s == "ERROR"
    ensures r.Some? ==> LevelText(r.value) == s
  {
    if s == "INFO" then Some(Info)
    else if s == "WARN" then Some(Warn)
    else if s == "ERROR" then Some(Error)
    else None
  }

  lemma LevelRoundTrip(l: Level)
    ensures ParseLevel(LevelText(l)) == Some(l)
    ensures '/' !in LevelText(l) && ']' !in LevelText(l)
  {
  }

  /** The fixed-width part after the year: `-MM-DD HH:MM:SS`. */
  predicate IsDateTail(t: string) {
    |t| == 15 && t[0] == '-' && IsDigit(t[1]) && IsDigit(t[2]) && t[3] == '-' && IsDigit(t[4]) && IsDigit(t[5])
    && t[6] == ' ' && IsDigit(t[7]) && IsDigit(t[8]) && t[9] == ':' && IsDigit(t[10]) && IsDigit(t[11])
    && t[12] == ':' && IsDigit(t[13]) && IsDigit(t[14])
  }

  /** `[0-9]+-[0-9]{2}-[0-9]{2} [0-9]{2}:[0-9]{2}:[0-9]{2}` */
  predicate IsTimestamp(ts: string) {
    |ts| > 15 && (forall i :: 0 <= i < |ts| - 15 ==> IsDigit(ts[i])) && IsDateTail(ts[|ts| - 15..])
  }

  datatype Envelope = Envelope(timestamp: string, thread: string, level: Level, body: string)

  /** The captures of a match: what each group of the envelope pattern may hold. */
  predicate WellFormed(e: Envelope) {
    IsTimestamp(e.timestamp) && |e.thread| > 0 && ']' !in e.thread && IsLineRest(e.body)
  }

  /** What follows the timestamp and `" ["`: `thread/LEVEL]: body`. */
  function Bracketed(thread: string, level: Level, body: string): string {
    thread + "/" + LevelText(level) + "]: " + body
  }

  /** The line a set of captures stands for. */
  function Render(e: Envelope): string {
    e.timestamp + " [" + Bracketed(e.thread, e.level, e.body)
  }

  /** The line matches the envelope pattern with exactly these captures. */
  predicate Matches(s: string, e: Envelope) {
    WellFormed(e) && s == Render(e)
  }

  function IsNotCloseBracket(c: char): bool { c != ']' }

  /** Index of the last occurrence of `c` in `s`. */
  function LastIndex(s: string, c: char): (r: Option<nat>)
    ensures r.Some? ==> r.value < |s| && s[r.value] == c && c !in s[r.value + 1..]
    ensures r.None? ==> c !in s
  {
    if s == [] then None
    else if s[|s| - 1] == c then Some(|s| - 1)
    else
      var r := LastIndex(s[..|s| - 1], c);
      assert s == s[..|s| - 1] + [s[|s| - 1]];
      if r.Some? then assert s[r.value + 1..] == s[..|s| - 1][r.value + 1..] + [s[|s| - 1]]; r else r
  }

  /** Splits `thread/LEVEL`; the level has no `/`, so it follows the last one. */
  function SplitThreadLevel(seg: string): Option<(string, Level)> {
    match LastIndex(seg, '/')
    case None => None
    case Some(k) =>
      match ParseLevel(seg[k + 1..])
      case None => None
      case Some(l) => if k == 0 then None else Some((seg[..k], l))
  }

  /** Length of the timestamp at the start of `s`, provided `" ["` follows it. */
  function TimestampLength(s: string): Option<nat> {
    var d := Run(s, IsDigit);
    if d == 0 || |s| < d + 17 || !IsDateTail(s[d..d + 15]) || s[d + 15..d + 17] != " [" then None
    else Some(d + 15)
  }

  /** The part after `" ["`: `thread/LEVEL]: body`. */
  function ParseBracketed(rest: string): Option<(string, Level, string)> {
    var j := Run(rest, IsNotCloseBracket);
    if j == |rest| || !("]: " <= rest[j..]) || !IsLineRest(rest[j + 3..]) then None
    else
      match SplitThreadLevel(rest[..j])
      case None => None
      case Some((thread, level)) => Some((thread, level, rest[j + 3..]))
  }

  /** The envelope pattern, anchored at both ends; `None` when the line does not match. */
  function Parse(s: string): (r: Option<Envelope>)
    ensures r.Some? ==> Matches(s, r.value)
  {
    match TimestampLength(s)
    case None => None
    case Some(n) =>
      match ParseBracketed(s[n + 2..])
      case None => None
      case Some((thread, level, body)) =>
        TimestampSound(s, n);
        TimestampFollowedByBracket(s, n);
        BracketedCaptures(s[n + 2..], thread, level, body);
        BracketedShape(s[n + 2..], thread, level, body);
        Some(Envelope(s[..n], thread, level, body))
  }

  /** An occurrence with none after it is the last one. */
  lemma {:induction false} LastIndexAt(s: string, c: char, k: nat)
    requires k < |s| && s[k] == c && c !in s[k + 1..]
    ensures LastIndex(s, c) == Some(k)
  {
    if k < |s| - 1 {
      var init := s[..|s| - 1];
      assert s[|s| - 1] in s[k + 1..];
      assert init[k + 1..] <= s[k + 1..];
      LastIndexAt(init, c, k);
    }
  }

  lemma SplitThreadLevelOf(thread: string, l: Level)
    requires |thread| > 0
    ensures SplitThreadLevel(thread + "/" + LevelText(l)) == Some((thread, l))
  {
    var seg := thread + "/" + LevelText(l);
    var k := |thread|;
    LevelRoundTrip(l);
    assert seg[k] == '/';
    assert seg[k + 1..] == LevelText(l);
    LastIndexAt(seg, '/', k);
    assert seg[..k] == thread;
  }

  lemma SplitThreadLevelSound(seg: string, thread: string, l: Level)
    requires SplitThreadLevel(seg) == Some((thread, l))
    ensures seg == thread + "/" + LevelText(l) && |thread| > 0
  {
    var k := LastIndex(seg, '/').value;
    assert seg == seg[..k] + [seg[k]] + seg[k + 1..];
  }

  lemma TimestampSound(s: string, n: nat)
    requires TimestampLength(s) == Some(n)
    ensures n + 2 <= |s| && IsTimestamp(s[..n])
  {
    var d := n - 15;
    assert s[..n][d..] == s[d..d + 15];
  }

  lemma TimestampFollowedByBracket(s: string, n: nat)
    requires TimestampLength(s) == Some(n)
    ensures n + 2 <= |s| && s == s[..n] + " [" + s[n + 2..]
  {
    assert s[n..n + 2] == " [";
  }

  lemma TimestampComplete(ts: string, tail: string)
    requires IsTimestamp(ts)
    ensures TimestampLength(ts + " [" + tail) == Some(|ts|)
  {
    var n := |ts| - 15;
    var s := ts + " [" + tail;
    assert s == ts[..n] + (ts[n..] + " [" + tail);
    RunAfter(ts[..n], ts[n..] + " [" + tail, IsDigit);
    assert s[n..n + 15] == ts[n..];
    assert s[n + 15..n + 17] == " [";
  }

  lemma BracketedCaptures(rest: string, thread: string, l: Level, body: string)
    requires ParseBracketed(rest) == Some((thread, l, body))
    ensures |thread| > 0 && ']' !in thread && IsLineRest(body)
  {
    var j := Run(rest, IsNotCloseBracket);
    SplitThreadLevelSound(rest[..j], thread, l);
    forall i | 0 <= i < |thread| ensures thread[i] != ']' {
      assert thread[i] == rest[i];
    }
  }

  lemma BracketedShape(rest: string, thread: string, l: Level, body: string)
    requires ParseBracketed(rest) == Some((thread, l, body))
    ensures rest == Bracketed(thread, l, body)
  {
    var j := Run(rest, IsNotCloseBracket);
    SplitThreadLevelSound(rest[..j], thread, l);
    assert rest == rest[..j] + "]: " + rest[j + 3..];
  }

  lemma BracketedComplete(thread: string, l: Level, body: string)
    requires |thread| > 0 && ']' !in thread && IsLineRest(body)
    ensures ParseBracketed(Bracketed(thread, l, body)) == Some((thread, l, body))
  {
    var seg := thread + "/" + LevelText(l);
    var rest := seg + ("]: " + body);
    assert Bracketed(thread, l, body) == rest;
    LevelRoundTrip(l);
    assert forall i :: 0 <= i < |seg| ==> IsNotCloseBracket(seg[i]) by {
      forall i | 0 <= i < |seg| ensures IsNotCloseBracket(seg[i]) {
        if i < |thread| { assert seg[i] == thread[i]; }
        else if i > |thread| { assert seg[i] == LevelText(l)[i - |thread| - 1]; }
      }
    }
    RunAfter(seg, "]: " + body, IsNotCloseBracket);
    assert rest[..|seg|] == seg;
    assert rest[|seg|..] == "]: " + body;
    assert rest[|seg| + 3..] == body;
    SplitThreadLevelOf(thread, l);
  }

  /** Every match of the envelope pattern is found, with the same captures. */
  lemma ParseComplete(s: string, e: Envelope)
    requires Matches(s, e)
    ensures Parse(s) == Some(e)
  {
    var tail := Bracketed(e.thread, e.level, e.body);
    assert s == e.timestamp + " [" + tail;
    TimestampComplete(e.timestamp, tail);
    var n := |e.timestamp|;
    assert s[n + 2..] == tail;
    assert s[..n] == e.timestamp;
    BracketedComplete(e.thread, e.level, e.body);
  }

  /** The parser and the pattern agree on every input, captures included. */
  lemma ParseCorrect(s: string, e: Envelope)
    ensures Parse(s) == Some(e) <==> Matches(s, e)
  {
    if Matches(s, e) { ParseComplete(s, e); }
  }

  /** A line matches the pattern iff it renders some well-formed captures. */
  lemma ParseNoneIffNoMatch(s: string)
    ensures Parse(s).None? <==> forall e :: !Matches(s, e)
  {
    forall e | Matches(s, e) ensures Parse(s).Some? { ParseComplete(s, e); }
  }
}
