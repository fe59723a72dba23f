/**
 * Emoji extraction in the older bot generation: a scanner over the raw
 * message text. Unicode emoji are recognised by a table built from the file
 * names of the twemoji artwork (`1f3f3-fe0f-200d-1f308.svg` stands for the
 * emoji with those code points); custom emoji are `<:name:id>` tokens. At each
 * position a custom token is tried first, then the longest table entry that
 * starts there; otherwise the scanner moves on by one character.
 */
module TextEmoji {
  import opened Wrappers
  import opened Text
  import opened Reactions

  // ---------------------------------------------------------------------
  // The emoji table
  // ---------------------------------------------------------------------

  function IsNotHyphen(c: char): bool { c != '-' }

  /** `str::split('-')`: the pieces between hyphens, empty ones included. */
  function SplitHyphen(s: string): (r: seq<string>)
    ensures |r| >= 1
    ensures forall g :: g in r ==> '-' !in g
    decreases |s|
  {
    var k := Run(s, IsNotHyphen);
    if k == |s| then [s] else [s[..k]] + SplitHyphen(s[k + 1..])
  }

  function JoinHyphen(gs: seq<string>): string
    requires |gs| >= 1
  {
    if |gs| == 1 then gs[0] else gs[0] + "-" + JoinHyphen(gs[1..])
  }

  /** Splitting loses nothing: joining the pieces with hyphens gives the text back. */
  lemma {:induction false} SplitHyphenJoin(s: string)
    ensures JoinHyphen(SplitHyphen(s)) == s
    decreases |s|
  {
    var k := Run(s, IsNotHyphen);
    if k < |s| {
      SplitHyphenJoin(s[k + 1..]);
      assert s == s[..k] + "-" + s[k + 1..];
    }
  }

  /** `[0-9a-f]{1,6}(?:-[0-9a-f]{1,6})*`: hyphen-separated groups of one to six lower-case hex digits. */
  predicate IsStem(s: string) {
    forall g :: g in SplitHyphen(s) ==> 1 <= |g| <= 6 && AllLowerHex(g)
  }

  /** The capture of `^(…)\.svg$` on a file name. */
  function StemOf(fileName: string): (r: Option<string>)
    ensures r.Some? ==> IsStem(r.value)
  {
    if |fileName| >= 4 && fileName[|fileName| - 4..] == ".svg" && IsStem(fileName[..|fileName| - 4])
    then Some(fileName[..|fileName| - 4])
    else None
  }

  /** The file-name pattern matches exactly the names `stem.svg` with a well-formed stem. */
  lemma StemOfCorrect(fileName: string, stem: string)
    ensures StemOf(fileName) == Some(stem) <==> fileName == stem + ".svg" && IsStem(stem)
  {
    if fileName == stem + ".svg" {
      assert fileName[..|fileName| - 4] == stem;
      assert fileName[|fileName| - 4..] == ".svg";
    }
    if StemOf(fileName) == Some(stem) {
      assert fileName == fileName[..|fileName| - 4] + fileName[|fileName| - 4..];
    }
  }

  function HexDigitValue(c: char): (v: nat)
    requires IsLowerHex(c)
    ensures v < 16
  {
    if '0' <= c <= '9' then c as int - '0' as int else c as int - 'a' as int + 10
  }

  function Pow16(n: nat): (p: nat)
    ensures p >= 1
  {
    if n == 0 then 1 else 16 * Pow16(n - 1)
  }

  /** `u32::from_str_radix(g, 16)`. */
  function HexValue(g: string): (v: nat)
    requires AllLowerHex(g)
    ensures v < Pow16(|g|)
  {
    if g == [] then 0
    else
      var a := HexValue(g[..|g| - 1]);
      var d := HexDigitValue(g[|g| - 1]);
      assert 16 * a + d < 16 * Pow16(|g| - 1) by {
        assert a + 1 <= Pow16(|g| - 1);
        assert 16 * (a + 1) <= 16 * Pow16(|g| - 1);
      }
      16 * a + d
  }

  /** A group of at most six hex digits fits in a `u32`, so parsing a group never fails. */
  lemma HexGroupFitsU32(g: string)
    requires AllLowerHex(g) && |g| <= 6
    ensures HexValue(g) < 0x1_0000_0000
  {
    var n := |g|;
    assert Pow16(6) == 0x100_0000;
    if n < 6 {
      PowMonotone(n, 6);
    }
  }

  lemma {:induction false} PowMonotone(m: nat, n: nat)
    requires m <= n
    ensures Pow16(m) <= Pow16(n)
    decreases n
  {
    if m < n { PowMonotone(m, n - 1); }
  }

  /** `char::from_u32` succeeds: a Unicode scalar value, i.e. not a surrogate and at most U+10FFFF. */
  predicate IsScalarValue(n: nat) {
    n < 0xD800 || 0xE000 <= n < 0x11_0000
  }

  /** The code points of the groups, invalid ones dropped (`filter_map`). */
  function DecodeGroups(gs: seq<string>): (r: string)
    requires forall g :: g in gs ==> AllLowerHex(g)
    ensures |r| <= |gs|
    ensures r == [] <==> forall g :: g in gs ==> !IsScalarValue(HexValue(g))
  {
    if gs == [] then []
    else
      var v := HexValue(gs[0]);
      var rest := DecodeGroups(gs[1..]);
      assert forall g :: g in gs ==> g == gs[0] || g in gs[1..];
      assert gs[0] in gs && forall g :: g in gs[1..] ==> g in gs;
      if IsScalarValue(v) then [v as char] + rest else rest
  }

  /** The emoji a file-name stem stands for. */
  function DecodeStem(stem: string): string
    requires IsStem(stem)
  {
    DecodeGroups(SplitHyphen(stem))
  }

  /** The entry a file name contributes to the table as the source computes it, if any. */
  function EntryAsWritten(fileName: string): Option<string> {
    match StemOf(fileName)
    case None => None
    case Some(stem) => Some(DecodeStem(stem))
  }

  /** The entry a file name contributes, the empty string excluded. */
  function Entry(fileName: string): (r: Option<string>)
    ensures r.Some? ==> r.value != []
    ensures r.Some? <==> EntryAsWritten(fileName).Some? && EntryAsWritten(fileName).value != []
    ensures r.Some? ==> r == EntryAsWritten(fileName)
  {
    match EntryAsWritten(fileName)
    case None => None
    case Some(e) => if e == [] then None else Some(e)
  }

  /** The table `Iter::new` builds from a directory listing, as written. */
  function TableAsWritten(fileNames: seq<string>): set<string> {
    if fileNames == [] then {}
    else
      TableAsWritten(fileNames[..|fileNames| - 1])
      + (match EntryAsWritten(fileNames[|fileNames| - 1]) case None => {} case Some(e) => {e})
  }

  /** The table with the empty entry excluded. */
  function Table(fileNames: seq<string>): set<string> {
    if fileNames == [] then {}
    else
      Table(fileNames[..|fileNames| - 1])
      + (match Entry(fileNames[|fileNames| - 1]) case None => {} case Some(e) => {e})
  }

  /** The corrected table differs from the one as written only by the empty entry. */
  lemma {:induction false} TableIsTableAsWrittenWithoutEmpty(fileNames: seq<string>)
    ensures Table(fileNames) == TableAsWritten(fileNames) - {[]}
  {
    if fileNames != [] {
      TableIsTableAsWrittenWithoutEmpty(fileNames[..|fileNames| - 1]);
    }
  }

  /** A file name whose only group is a surrogate contributes the empty string as an emoji. */
  lemma SurrogateNameGivesEmptyEntry()
    ensures "" in TableAsWritten(["d800.svg"])
  {
    var f := "d800.svg";
    assert f[..|f| - 4] == "d800";
    assert f[|f| - 4..] == ".svg";
    assert Run("d800", IsNotHyphen) == 4;
    assert SplitHyphen("d800") == ["d800"];
    assert IsStem("d800");
    assert HexValue("d800") == 0xD800 by {
      assert "d800"[..3] == "d80";
      assert "d80"[..2] == "d8";
      assert "d8"[..1] == "d";
      assert "d"[..0] == "";
    }
    assert DecodeGroups(["d800"]) == [];
    assert ["d800.svg"][..0] == [];
  }

  /** `BTreeSet` order: strictly increasing, hence without duplicates. */
  predicate StrictlySorted(s: seq<string>) {
    forall i, j :: 0 <= i < j < |s| ==> LexLess(s[i], s[j])
  }

  /** `BTreeSet::insert`, on the set's sorted contents. */
  function Insert(s: seq<string>, x: string): (r: seq<string>)
    ensures forall y :: y in r <==> y in s || y == x
  {
    if s == [] then [x]
    else if x == s[0] then s
    else if LexLess(x, s[0]) then [x] + s
    else [s[0]] + Insert(s[1..], x)
  }

  lemma {:induction false} InsertSorted(s: seq<string>, x: string)
    requires StrictlySorted(s)
    ensures StrictlySorted(Insert(s, x))
  {
    if s != [] && x != s[0] && !LexLess(x, s[0]) {
      InsertSorted(s[1..], x);
      LexLessTotal(x, s[0]);
      var r := Insert(s[1..], x);
      forall j | 0 <= j < |r| ensures LexLess(s[0], r[j]) {
        if r[j] != x {
          assert r[j] in s[1..];
          var k :| 0 <= k < |s[1..]| && s[1..][k] == r[j];
          assert s[k + 1] == r[j];
        }
      }
    } else if s != [] && x != s[0] {
      forall j | 0 <= j < |s| ensures LexLess(x, s[j]) {
        if j > 0 { LexLessTransitive(x, s[0], s[j]); }
      }
    }
  }

  /**
   * The table `Iter::new` builds: the entries inserted one by one into a
   * sorted list. It is sorted without duplicates, holds exactly the entries,
   * and never the empty string.
   */
  function SortedTable(fileNames: seq<string>): (r: seq<string>)
    ensures StrictlySorted(r)
    ensures forall e :: e in r <==> e in Table(fileNames)
    ensures [] !in r
  {
    if fileNames == [] then []
    else
      var t := SortedTable(fileNames[..|fileNames| - 1]);
      match Entry(fileNames[|fileNames| - 1])
      case None => t
      case Some(e) => InsertSorted(t, e); Insert(t, e)
  }

  /**
   * `Iter::new`, the table part: the emoji named by the file names, sorted
   * and without duplicates, the empty string excluded (see `Entry`).
   */
  method EmojiTable(fileNames: seq<string>) returns (emoji: seq<string>)
    ensures emoji == SortedTable(fileNames)
    ensures StrictlySorted(emoji)
    ensures forall e :: e in emoji <==> e in Table(fileNames)
    ensures [] !in emoji
  {
    emoji := [];
    var i := 0;
    while i < |fileNames|
      invariant 0 <= i <= |fileNames|
      invariant emoji == SortedTable(fileNames[..i])
    {
      assert fileNames[..i + 1][..i] == fileNames[..i];
      match Entry(fileNames[i]) {
        case Some(e) =>
          emoji := Insert(emoji, e);
        case None =>
      }
      i := i + 1;
    }
    assert fileNames[..i] == fileNames;
  }

  // ---------------------------------------------------------------------
  // Matching at one position
  // ---------------------------------------------------------------------

  /** The custom emoji token `<:name:digits>`. */
  function CustomToken(name: string, digits: string): string {
    "<:" + name + ":" + digits + ">"
  }

  /** `[0-9A-Z_a-z]{2,}` and `[0-9]+`. */
  predicate IsCustomCapture(name: string, digits: string) {
    |name| >= 2 && AllWord(name) && |digits| >= 1 && AllDigits(digits)
  }

  /** `^<:[0-9A-Z_a-z]{2,}:[0-9]+>`: the name and digits of a token at the start of `t`. */
  function MatchCustom(t: string): Option<(string, string)> {
    if !("<:" <= t) then None
    else
      var n := Run(t[2..], IsWordChar);
      if n < 2 || 2 + n == |t| || t[2 + n] != ':' then None
      else
        var d := Run(t[3 + n..], IsDigit);
        if d < 1 || 3 + n + d == |t| || t[3 + n + d] != '>' then None
        else Some((t[2..2 + n], t[3 + n..3 + n + d]))
  }

  lemma MatchCustomSound(t: string, name: string, digits: string)
    requires MatchCustom(t) == Some((name, digits))
    ensures IsCustomCapture(name, digits) && CustomToken(name, digits) <= t
  {
    var n := |name|;
    var d := |digits|;
    forall i | 0 <= i < n ensures IsWordChar(name[i]) {
      assert name[i] == t[2..][i];
    }
    forall i | 0 <= i < d ensures IsDigit(digits[i]) {
      assert digits[i] == t[3 + n..][i];
    }
    assert t[..2 + n] == "<:" + name by {
      assert t[..2 + n] == t[..2] + t[2..2 + n];
    }
    assert t[..3 + n] == "<:" + name + ":" by {
      assert t[..3 + n] == t[..2 + n] + [t[2 + n]];
    }
    assert t[..3 + n + d] == "<:" + name + ":" + digits by {
      assert t[..3 + n + d] == t[..3 + n] + t[3 + n..3 + n + d];
    }
    assert t[..4 + n + d] == CustomToken(name, digits) by {
      assert t[..4 + n + d] == t[..3 + n + d] + [t[3 + n + d]];
    }
  }

  /** The matcher's answer once the two runs and the characters after them are known. */
  lemma MatchCustomAt(t: string, n: nat, d: nat)
    requires "<:" <= t && 2 <= n && 1 <= d && 3 + n + d < |t|
    requires Run(t[2..], IsWordChar) == n && t[2 + n] == ':'
    requires Run(t[3 + n..], IsDigit) == d && t[3 + n + d] == '>'
    ensures MatchCustom(t) == Some((t[2..2 + n], t[3 + n..3 + n + d]))
  {
  }

  lemma MatchCustomComplete(name: string, digits: string, rest: string)
    requires IsCustomCapture(name, digits)
    ensures MatchCustom(CustomToken(name, digits) + rest) == Some((name, digits))
  {
    var t := CustomToken(name, digits) + rest;
    var n := |name|;
    var tail := ":" + digits + ">" + rest;
    assert t[..2] == "<:";
    assert t[2..] == name + tail;
    RunAfter(name, tail, IsWordChar);
    assert t[2..2 + n] == name;
    assert t[2 + n..] == tail;
    assert t[3 + n..] == digits + (">" + rest);
    RunAfter(digits, ">" + rest, IsDigit);
    assert t[3 + n..3 + n + |digits|] == digits;
    MatchCustomAt(t, n, |digits|);
  }

  /** The hand-written matcher finds exactly the custom tokens the pattern admits. */
  lemma MatchCustomCorrect(t: string, name: string, digits: string)
    ensures MatchCustom(t) == Some((name, digits)) <==> IsCustomCapture(name, digits) && CustomToken(name, digits) <= t
  {
    if MatchCustom(t) == Some((name, digits)) {
      MatchCustomSound(t, name, digits);
    }
    if IsCustomCapture(name, digits) && CustomToken(name, digits) <= t {
      var tok := CustomToken(name, digits);
      assert t == tok + t[|tok|..];
      MatchCustomComplete(name, digits, t[|tok|..]);
    }
  }

  /** `emoji.iter().rev().filter(|e| text.starts_with(e)).next()`: the last table entry that starts `t`. */
  function LastPrefix(emoji: seq<string>, t: string): (r: Option<nat>)
    ensures r.Some? ==> r.value < |emoji| && emoji[r.value] <= t
    ensures r.Some? ==> forall j :: r.value < j < |emoji| ==> !(emoji[j] <= t)
    ensures r.None? ==> forall j :: 0 <= j < |emoji| ==> !(emoji[j] <= t)
  {
    if emoji == [] then None
    else if emoji[|emoji| - 1] <= t then Some(|emoji| - 1)
    else LastPrefix(emoji[..|emoji| - 1], t)
  }

  /** In a sorted table the last entry starting `t` is the longest one: prefixes of `t` sort by length. */
  lemma LastPrefixIsLongest(emoji: seq<string>, t: string, e: string)
    requires StrictlySorted(emoji)
    requires LastPrefix(emoji, t).Some?
    requires e in emoji && e <= t
    ensures |e| <= |emoji[LastPrefix(emoji, t).value]|
    ensures |e| == |emoji[LastPrefix(emoji, t).value]| ==> e == emoji[LastPrefix(emoji, t).value]
  {
    var i := LastPrefix(emoji, t).value;
    var j :| 0 <= j < |emoji| && emoji[j] == e;
    if j != i {
      assert j < i;
      if |emoji[i]| <= |e| {
        assert emoji[i] <= e;
        if |emoji[i]| < |e| {
          ProperPrefixIsLess(emoji[i], e);
        } else {
          assert emoji[i] == e;
          LexLessIrreflexive(e);
        }
        LexLessAsymmetric(e, emoji[i]);
      }
    }
  }

  /**
   * What the scanner finds at the start of `t`: a custom emoji if a custom
   * token starts there and the identifier parser accepts it, otherwise the
   * last (longest) table entry starting there; with the length consumed.
   */
  function MatchAt(t: string, emoji: seq<string>, parseCustom: string -> Option<(string, nat)>): (r: Option<(Reaction, nat)>)
    ensures r.Some? ==> r.value.1 <= |t|
  {
    var c := MatchCustom(t);
    if c.Some? && parseCustom(CustomToken(c.value.0, c.value.1)).Some? then
      MatchCustomSound(t, c.value.0, c.value.1);
      var tok := CustomToken(c.value.0, c.value.1);
      var id := parseCustom(tok).value;
      Some((Custom(id.0, id.1), |tok|))
    else
      match LastPrefix(emoji, t)
      case Some(i) => Some((Unicode(emoji[i]), |emoji[i]|))
      case None => None
  }

  /** A custom token that the identifier parser accepts wins over every table entry. */
  lemma CustomFirst(t: string, emoji: seq<string>, parseCustom: string -> Option<(string, nat)>, name: string, digits: string, rest: string)
    requires IsCustomCapture(name, digits) && t == CustomToken(name, digits) + rest
    requires parseCustom(CustomToken(name, digits)).Some?
    ensures MatchAt(t, emoji, parseCustom) == Some((Custom(parseCustom(CustomToken(name, digits)).value.0, parseCustom(CustomToken(name, digits)).value.1), |CustomToken(name, digits)|))
  {
    MatchCustomComplete(name, digits, rest);
  }

  /** A Unicode match is the longest table entry starting `t`, and consumes exactly it. */
  lemma UnicodeLongest(t: string, emoji: seq<string>, parseCustom: string -> Option<(string, nat)>, e: string, n: nat)
    requires StrictlySorted(emoji)
    requires MatchAt(t, emoji, parseCustom) == Some((Unicode(e), n))
    ensures e in emoji && e <= t && n == |e|
    ensures forall e' :: e' in emoji && e' <= t && e' != e ==> |e'| < |e|
  {
    forall e' | e' in emoji && e' <= t && e' != e ensures |e'| < |e| {
      LastPrefixIsLongest(emoji, t, e');
    }
  }

  /** Nothing matches at `t` exactly when no accepted custom token and no table entry starts there. */
  lemma MatchAtNone(t: string, emoji: seq<string>, parseCustom: string -> Option<(string, nat)>)
    ensures MatchAt(t, emoji, parseCustom).None? <==>
      (forall name, digits :: IsCustomCapture(name, digits) && CustomToken(name, digits) <= t ==> parseCustom(CustomToken(name, digits)).None?)
      && (forall e :: e in emoji ==> !(e <= t))
  {
    forall name, digits | IsCustomCapture(name, digits) && CustomToken(name, digits) <= t
      ensures MatchCustom(t) == Some((name, digits))
    {
      MatchCustomCorrect(t, name, digits);
    }
    if MatchCustom(t).Some? {
      MatchCustomSound(t, MatchCustom(t).value.0, MatchCustom(t).value.1);
    }
    if LastPrefix(emoji, t).Some? {
      assert emoji[LastPrefix(emoji, t).value] in emoji;
    }
  }

  /** With an empty entry in the table, a position where nothing else matches yields it and consumes nothing. */
  lemma EmptyEntryStalls(t: string, emoji: seq<string>, parseCustom: string -> Option<(string, nat)>)
    requires [] in emoji
    requires MatchCustom(t).None?
    requires forall e :: e in emoji && e <= t ==> e == []
    ensures MatchAt(t, emoji, parseCustom) == Some((Unicode([]), 0))
  {
    var j :| 0 <= j < |emoji| && emoji[j] == [];
    assert emoji[j] <= t;
    var i := LastPrefix(emoji, t).value;
    assert emoji[i] in emoji;
  }

  /** Without the empty entry, every match consumes at least one character. */
  lemma MatchConsumes(t: string, emoji: seq<string>, parseCustom: string -> Option<(string, nat)>)
    requires [] !in emoji
    requires MatchAt(t, emoji, parseCustom).Some?
    ensures MatchAt(t, emoji, parseCustom).value.1 > 0
  {
  }

  // ---------------------------------------------------------------------
  // The scanner
  // ---------------------------------------------------------------------

  /** The positions the scanner tries on `text` before giving up: every one that leaves at least one character, or just 0. */
  predicate Tried(text: string, j: nat) {
    j < |text| || j == 0
  }

  /**
   * `Iter::next` on the text still to scan: the first position (in the order
   * tried) where something matches, what matched there, and the text after
   * it; or `None`, after which nothing of the text is left.
   */
  method NextEmoji(text: string, emoji: seq<string>, parseCustom: string -> Option<(string, nat)>)
    returns (r: Option<Reaction>, rest: string, ghost skipped: nat)
    ensures r.Some? ==> (Tried(text, skipped) && skipped <= |text|
      && MatchAt(text[skipped..], emoji, parseCustom) == Some((r.value, |text| - skipped - |rest|))
      && rest == text[|text| - |rest|..])
    ensures r.Some? ==> forall j :: 0 <= j < skipped ==> MatchAt(text[j..], emoji, parseCustom).None?
    ensures r.None? ==> rest == []
    ensures r.None? ==> forall j: nat :: Tried(text, j) && j <= |text| ==> MatchAt(text[j..], emoji, parseCustom).None?
  {
    var t := text;
    skipped := 0;
    while true
      invariant Tried(text, skipped) && skipped <= |text| && t == text[skipped..]
      invariant forall j :: 0 <= j < skipped ==> MatchAt(text[j..], emoji, parseCustom).None?
      decreases |t|
    {
      var m := MatchAt(t, emoji, parseCustom);
      if m.Some? {
        rest := t[m.value.1..];
        assert rest == text[|text| - |rest|..];
        return Some(m.value.0), rest, skipped;
      }
      if |t| < 2 {
        NothingLeftToTry(text, emoji, parseCustom, skipped);
        return None, [], skipped;
      }
      forall j | 0 <= j <= skipped ensures MatchAt(text[j..], emoji, parseCustom).None? {
        if j == skipped { assert text[j..] == t; }
      }
      t := t[1..];
      skipped := skipped + 1;
    }
  }

  /** Once the last position tried has failed as well, no position tried matches. */
  lemma NothingLeftToTry(text: string, emoji: seq<string>, parseCustom: string -> Option<(string, nat)>, skipped: nat)
    requires Tried(text, skipped) && skipped <= |text| && |text[skipped..]| < 2
    requires forall j :: 0 <= j <= skipped ==> MatchAt(text[j..], emoji, parseCustom).None?
    ensures forall j: nat :: Tried(text, j) && j <= |text| ==> MatchAt(text[j..], emoji, parseCustom).None?
  {
    forall j: nat | Tried(text, j) && j <= |text| ensures MatchAt(text[j..], emoji, parseCustom).None? {
      assert j <= skipped;
    }
  }

  /** The emoji of a text in the order the scanner yields them; the table has no empty entry. */
  function Emojis(t: string, emoji: seq<string>, parseCustom: string -> Option<(string, nat)>): seq<Reaction>
    requires [] !in emoji
    decreases |t|
  {
    match MatchAt(t, emoji, parseCustom)
    case Some((e, n)) => MatchConsumes(t, emoji, parseCustom); [e] + Emojis(t[n..], emoji, parseCustom)
    case None => if |t| >= 2 then Emojis(t[1..], emoji, parseCustom) else []
  }

  /** Skipping positions where nothing matches does not change the emoji found. */
  lemma {:induction false} EmojisSkip(text: string, emoji: seq<string>, parseCustom: string -> Option<(string, nat)>, k: nat)
    requires [] !in emoji
    requires Tried(text, k) && k <= |text|
    requires forall j :: 0 <= j < k ==> MatchAt(text[j..], emoji, parseCustom).None?
    ensures Emojis(text, emoji, parseCustom) == Emojis(text[k..], emoji, parseCustom)
    decreases k
  {
    if k > 0 {
      assert MatchAt(text[0..], emoji, parseCustom).None?;
      assert text[0..] == text;
      assert text[1..][k - 1..] == text[k..];
      forall j | 0 <= j < k - 1 ensures MatchAt(text[1..][j..], emoji, parseCustom).None? {
        assert text[1..][j..] == text[j + 1..];
      }
      EmojisSkip(text[1..], emoji, parseCustom, k - 1);
    }
  }

  /** One step of the scanner removes exactly the first of the text's emoji, or finds there are none. */
  lemma NextEmojiStep(text: string, emoji: seq<string>, parseCustom: string -> Option<(string, nat)>,
                      r: Option<Reaction>, rest: string, skipped: nat)
    requires [] !in emoji
    requires r.Some? ==> (Tried(text, skipped) && skipped <= |text|
      && MatchAt(text[skipped..], emoji, parseCustom) == Some((r.value, |text| - skipped - |rest|))
      && rest == text[|text| - |rest|..])
    requires r.Some? ==> forall j :: 0 <= j < skipped ==> MatchAt(text[j..], emoji, parseCustom).None?
    requires r.None? ==> rest == []
    requires r.None? ==> forall j: nat :: Tried(text, j) && j <= |text| ==> MatchAt(text[j..], emoji, parseCustom).None?
    ensures r.Some? ==> Emojis(text, emoji, parseCustom) == [r.value] + Emojis(rest, emoji, parseCustom) && |rest| < |text|
    ensures r.None? ==> Emojis(text, emoji, parseCustom) == []
  {
    if r.Some? {
      EmojisSkip(text, emoji, parseCustom, skipped);
      var n := |text| - skipped - |rest|;
      MatchConsumes(text[skipped..], emoji, parseCustom);
      assert text[skipped..][n..] == rest;
    } else if |text| >= 2 {
      EmojisSkip(text, emoji, parseCustom, |text| - 1);
      assert text[|text| - 1..][1..] == [];
    } else {
      assert text[0..] == text;
    }
  }

  /**
   * Draining the scanner (`collect`) yields `Emojis` and stops. Without the
   * empty entry, every step either consumes text or ends the scan.
   */
  method CollectAll(text: string, emoji: seq<string>, parseCustom: string -> Option<(string, nat)>) returns (all: seq<Reaction>)
    requires [] !in emoji
    ensures all == Emojis(text, emoji, parseCustom)
  {
    all := [];
    var t := text;
    while true
      invariant all + Emojis(t, emoji, parseCustom) == Emojis(text, emoji, parseCustom)
      decreases |t|
    {
      var r, rest;
      ghost var skipped;
      r, rest, skipped := NextEmoji(t, emoji, parseCustom);
      NextEmojiStep(t, emoji, parseCustom, r, rest, skipped);
      if r.None? {
        return;
      }
      all := all + [r.value];
      t := rest;
    }
  }

  /** The scanner as the older generation's `Iter`: the text still to scan and the emoji table. */
  class Iter {
    var text: string
    const emoji: seq<string>
    const parseCustom: string -> Option<(string, nat)>

    /** `Iter::new`, with the directory listing given as the file names it holds. */
    constructor (text: string, fileNames: seq<string>, parseCustom: string -> Option<(string, nat)>)
      ensures this.text == text && this.parseCustom == parseCustom
      ensures emoji == SortedTable(fileNames)
      ensures StrictlySorted(emoji) && (forall e :: e in emoji <==> e in Table(fileNames))
      ensures [] !in emoji
    {
      this.text := text;
      this.parseCustom := parseCustom;
      var table := EmojiTable(fileNames);
      this.emoji := table;
    }

    /** `Iter::next`: consumes the text up to and including the next emoji. */
    method Next() returns (r: Option<Reaction>)
      modifies this
      ensures r.Some? ==> Emojis(old(text), emoji, parseCustom) == [r.value] + Emojis(text, emoji, parseCustom)
      ensures r.None? ==> Emojis(old(text), emoji, parseCustom) == [] && text == []
      requires [] !in emoji
    {
      var rest;
      ghost var skipped;
      r, rest, skipped := NextEmoji(text, emoji, parseCustom);
      NextEmojiStep(text, emoji, parseCustom, r, rest, skipped);
      text := rest;
    }
  }
}
