/**
 * The command-text cursor of the newer bot generation. Each `eat_*` function
 * takes the command text as a `&mut &str` and advances it past what it
 * consumed; here the cursor is the `cmd` argument and its new position the
 * `rest` result.
 *
 * Id parsing (`UserId`/`RoleId::from_str`) and the person lookups are
 * function-valued parameters; a person and a lookup error are type
 * parameters.
 */
module CommandParse {
  import opened Wrappers
  import opened Text

  predicate IsSpace(c: char) { c == ' ' }
  predicate IsNotSpace(c: char) { c != ' ' }
  predicate IsNotCloseAngle(c: char) { c != '>' }

  /** `w` is the first word of `cmd`: the longest prefix without a space. */
  predicate IsFirstWord(cmd: string, w: string) {
    w <= cmd && ' ' !in w && (|w| == |cmd| || cmd[|w|] == ' ')
  }

  /** The first word is determined by the text. */
  lemma FirstWordUnique(cmd: string, a: string, b: string)
    requires IsFirstWord(cmd, a) && IsFirstWord(cmd, b)
    ensures a == b
  {
    assert a == cmd[..|a|] && b == cmd[..|b|];
  }

  /** Where the cursor stands after `eat_word`: past the first word and the spaces after it. */
  function AfterWord(cmd: string): (r: string)
    ensures |r| <= |cmd| && r == cmd[|cmd| - |r|..]
    ensures r == [] || r[0] != ' '
  {
    var t := cmd[Run(cmd, IsNotSpace)..];
    t[Run(t, IsSpace)..]
  }

  /** The text of a `<…>` mention at the start of `cmd`: everything up to and including the first `>`. */
  function MentionText(cmd: string): (m: Option<string>)
    ensures m.Some? <==> |cmd| > 0 && cmd[0] == '<' && '>' in cmd
    ensures m.Some? ==> |m.value| > 0 && m.value <= cmd && m.value[0] == '<' && m.value[|m.value| - 1] == '>'
    ensures m.Some? ==> '>' !in m.value[..|m.value| - 1]
  {
    if |cmd| > 0 && cmd[0] == '<' && '>' in cmd then
      var k := Run(cmd, IsNotCloseAngle);
      assert k < |cmd|;
      assert cmd[..k + 1][..k] == cmd[..k];
      Some(cmd[..k + 1])
    else None
  }

  /**
   * `eat_optional_prefix`. The source drops one byte, which is one character
   * exactly when the prefix is ASCII; a longer prefix that matches would make
   * the slice panic, so callers must not pass one.
   */
  method EatOptionalPrefix(cmd: string, prefix: char) returns (eaten: bool, rest: string)
    requires (prefix as int) < 0x80 || !([prefix] <= cmd)
    ensures eaten <==> |cmd| > 0 && cmd[0] == prefix
    ensures eaten ==> cmd == [prefix] + rest
    ensures !eaten ==> rest == cmd
  {
    if |cmd| > 0 && cmd[0] == prefix {
      rest := cmd[1..];
      eaten := true;
    } else {
      rest := cmd;
      eaten := false;
    }
  }

  /** `eat_whitespace`: strips leading spaces, one at a time. */
  method EatWhitespace(cmd: string) returns (rest: string)
    ensures |rest| <= |cmd| && cmd == Repeat(' ', |cmd| - |rest|) + rest
    ensures rest == [] || rest[0] != ' '
  {
    rest := cmd;
    var eaten := true;
    while eaten
      invariant |rest| <= |cmd| && cmd == Repeat(' ', |cmd| - |rest|) + rest
      invariant !eaten ==> rest == [] || rest[0] != ' '
      decreases |rest| + (if eaten then 1 else 0)
    {
      var before := rest;
      eaten, rest := EatOptionalPrefix(rest, ' ');
      if eaten {
        assert Repeat(' ', |cmd| - |rest|) == Repeat(' ', |cmd| - |before|) + [' '];
      }
    }
  }

  /** `next_word`: the characters before the first space; `None` when there are none. */
  method NextWord(cmd: string) returns (word: Option<string>)
    ensures word.None? <==> cmd == [] || cmd[0] == ' '
    ensures word.Some? ==> IsFirstWord(cmd, word.value)
  {
    var w := "";
    var i := 0;
    while i < |cmd| && cmd[i] != ' '
      invariant i <= |cmd| && w == cmd[..i] && ' ' !in w
    {
      w := w + [cmd[i]];
      i := i + 1;
    }
    word := if w == [] then None else Some(w);
  }

  /** The first word as a function, for use in specifications. */
  lemma FirstWordRun(cmd: string, w: string)
    requires IsFirstWord(cmd, w)
    ensures Run(cmd, IsNotSpace) == |w|
  {
    RunUnique(cmd, IsNotSpace, |w|);
  }

  /** `eat_word`: removes the first word and the spaces after it; no word, no change. */
  method EatWord(cmd: string) returns (word: Option<string>, rest: string)
    ensures word.None? ==> rest == cmd && (cmd == [] || cmd[0] == ' ')
    ensures word.Some? ==> IsFirstWord(cmd, word.value) && |word.value| > 0
    ensures word.Some? ==> (|word.value| + |rest| <= |cmd|
      && cmd == word.value + Repeat(' ', |cmd| - |word.value| - |rest|) + rest)
    ensures word.Some? ==> rest == AfterWord(cmd)
  {
    word := NextWord(cmd);
    if word.Some? {
      var t := cmd[|word.value|..];
      rest := EatWhitespace(t);
      AfterWordOf(cmd, word.value, rest);
    } else {
      rest := cmd;
    }
  }

  /** The first word, then spaces, then a rest not starting with a space: that rest is `AfterWord`. */
  lemma AfterWordOf(cmd: string, w: string, rest: string)
    requires IsFirstWord(cmd, w)
    requires |rest| <= |cmd| - |w|
    requires cmd[|w|..] == Repeat(' ', |cmd| - |w| - |rest|) + rest
    requires rest == [] || rest[0] != ' '
    ensures cmd == w + Repeat(' ', |cmd| - |w| - |rest|) + rest
    ensures rest == AfterWord(cmd)
  {
    var t := cmd[|w|..];
    assert cmd == w + t;
    FirstWordRun(cmd, w);
    RunUnique(t, IsSpace, |t| - |rest|);
  }

  /**
   * `eat_user_mention` and `eat_role_mention`, which differ only in the id
   * parser: the characters up to the first `>` are collected and parsed; on
   * success the whole first word is eaten, otherwise nothing is.
   */
  method EatMention<Id>(cmd: string, parseId: string -> Option<Id>) returns (id: Option<Id>, rest: string)
    ensures id.Some? <==> MentionText(cmd).Some? && parseId(MentionText(cmd).value).Some?
    ensures id.Some? ==> id == parseId(MentionText(cmd).value) && rest == AfterWord(cmd)
    ensures id.None? ==> rest == cmd
  {
    if |cmd| == 0 || cmd[0] != '<' || '>' !in cmd {
      return None, cmd;
    }
    var mention := "";
    var i := 0;
    while cmd[i] != '>'
      invariant i < |cmd| && mention == cmd[..i] && '>' in cmd[i..]
      invariant forall j :: 0 <= j < i ==> cmd[j] != '>'
      decreases |cmd| - i
    {
      mention := mention + [cmd[i]];
      assert cmd[i..] == [cmd[i]] + cmd[i + 1..];
      i := i + 1;
    }
    mention := mention + ['>'];
    RunUnique(cmd, IsNotCloseAngle, i);
    assert mention == cmd[..i + 1];
    var parsed := parseId(mention);
    if parsed.Some? {
      var word;
      word, rest := EatWord(cmd);
      return parsed, rest;
    }
    return None, cmd;
  }

  /** A guild's roles, by id. */
  type Roles = map<nat, string>

  /** The roles whose name is exactly `name`. */
  function RolesNamed(roles: Roles, name: string): set<nat> {
    set r | r in roles && roles[r] == name
  }

  /**
   * `eat_role_full`: a role mention counts only when nothing follows it
   * (otherwise the cursor is put back); without a mention, the whole text
   * must be the name of exactly one role of the guild, and the cursor is left
   * where it was.
   */
  method EatRoleFull(cmd: string, parseRole: string -> Option<nat>, guild: Option<Roles>) returns (role: Option<nat>, rest: string)
    ensures role.Some? ==> rest == [] || rest == cmd
    ensures rest != cmd ==> role.Some? && rest == []
    ensures MentionText(cmd).Some? && parseRole(MentionText(cmd).value).Some? ==>
      (if AfterWord(cmd) == [] then role == parseRole(MentionText(cmd).value) && rest == [] else role.None? && rest == cmd)
    ensures !(MentionText(cmd).Some? && parseRole(MentionText(cmd).value).Some?) ==>
      rest == cmd && (role.Some? <==> guild.Some? && |RolesNamed(guild.value, cmd)| == 1)
    ensures !(MentionText(cmd).Some? && parseRole(MentionText(cmd).value).Some?) && role.Some? ==>
      RolesNamed(guild.value, cmd) == {role.value}
  {
    var original := cmd;
    var mentioned, after := EatMention(cmd, parseRole);
    if mentioned.Some? {
      if after == [] {
        return mentioned, after;
      } else {
        return None, original;
      }
    } else if guild.Some? {
      var named := RolesNamed(guild.value, cmd);
      if |named| == 1 {
        var r :| r in named;
        assert |named - {r}| == 0;
        assert named == {r};
        return Some(r), cmd;
      }
      return None, cmd;
    } else {
      return None, cmd;
    }
  }

  predicate IsNameChar(c: char) { c != '@' && c != '#' && c != ':' }

  /**
   * `^@([^@#:]{2,32})#([0-9]{4})?`: the name, the discriminator if four
   * digits follow the `#`, and the length of the match. The name class
   * excludes `#`, so the name is the maximal run after `@` and must be
   * followed by `#`.
   */
  function MatchUsername(cmd: string): (m: Option<(string, Option<nat>, nat)>)
    ensures m.Some? ==> |m.value.0| + 2 <= m.value.2 <= |cmd|
    ensures m.Some? ==> 2 <= |m.value.0| <= 32 && forall i :: 0 <= i < |m.value.0| ==> IsNameChar(m.value.0[i])
    ensures m.Some? ==> cmd[..m.value.2] == "@" + m.value.0 + "#" + cmd[|m.value.0| + 2..m.value.2]
    ensures m.Some? ==> (m.value.1.Some? <==> m.value.2 == |m.value.0| + 6)
    ensures m.Some? && m.value.1.Some? ==>
      AllDigits(cmd[|m.value.0| + 2..m.value.2]) && m.value.1.value == DecimalValue(cmd[|m.value.0| + 2..m.value.2])
    ensures m.Some? && m.value.1.None? ==>
      m.value.2 == |m.value.0| + 2 && !(m.value.2 + 4 <= |cmd| && AllDigits(cmd[m.value.2..m.value.2 + 4]))
  {
    if |cmd| == 0 || cmd[0] != '@' then None
    else
      var r := Run(cmd[1..], IsNameChar);
      if r < 2 || r > 32 || 1 + r >= |cmd| || cmd[1 + r] != '#' then None
      else
        var after := 2 + r;
        assert cmd[..after] == "@" + cmd[1..1 + r] + "#";
        if after + 4 <= |cmd| && AllDigits(cmd[after..after + 4]) then
          assert cmd[..after + 4] == cmd[..after] + cmd[after..after + 4];
          Some((cmd[1..1 + r], Some(DecimalValue(cmd[after..after + 4])), after + 4))
        else Some((cmd[1..1 + r], None, after))
  }

  /**
   * Every text starting with `@`, a name of 2 to 32 allowed characters and
   * `#` is matched, with that name, and with the discriminator exactly when
   * four digits follow.
   */
  lemma MatchUsernameComplete(name: string, tail: string)
    requires 2 <= |name| <= 32 && forall i :: 0 <= i < |name| ==> IsNameChar(name[i])
    ensures var cmd := "@" + name + "#" + tail;
      MatchUsername(cmd).Some? && MatchUsername(cmd).value.0 == name
      && (|tail| >= 4 && AllDigits(tail[..4]) ==>
            MatchUsername(cmd).value.1 == Some(DecimalValue(tail[..4])) && MatchUsername(cmd).value.2 == |name| + 6)
      && (!(|tail| >= 4 && AllDigits(tail[..4])) ==>
            MatchUsername(cmd).value.1 == None && MatchUsername(cmd).value.2 == |name| + 2)
  {
    var cmd := "@" + name + "#" + tail;
    assert cmd[1..] == name + ("#" + tail);
    RunAfter(name, "#" + tail, IsNameChar);
    assert cmd[1..1 + |name|] == name;
    assert cmd[1 + |name|] == '#';
    if |tail| >= 4 {
      assert cmd[|name| + 2..|name| + 6] == tail[..4];
    }
  }

  /** The first word with an optional leading `@` removed. */
  function StripAt(w: string): string {
    if |w| > 0 && w[0] == '@' then w[1..] else w
  }

  /** The mention branch of `eat_person` applies: the text starts with a `<…>` mention holding a user id. */
  predicate MentionHit(cmd: string, parseUser: string -> Option<nat>) {
    MentionText(cmd).Some? && parseUser(MentionText(cmd).value).Some?
  }

  /**
   * The name half of `eat_person`: `@name#1234` or `@name#` is looked up by
   * name and discriminator; an error ends the search, and a person found
   * moves the cursor past the match. Otherwise the first word, without a
   * leading `@`, is looked up by name alone, and a person found moves the
   * cursor past the word. With nothing found, or an error, the cursor stays.
   */
  ghost function NameLookup<P, E>(cmd: string,
                                  fromDiscord: (string, Option<nat>) -> Result<Option<P>, E>): (r: (Result<Option<P>, E>, string))
    ensures |r.1| <= |cmd| && r.1 == cmd[|cmd| - |r.1|..]
    ensures r.0.Err? || r.0.value.None? ==> r.1 == cmd
  {
    var u := MatchUsername(cmd);
    var byName := if u.Some? then fromDiscord(u.value.0, u.value.1) else Ok(None);
    if u.Some? && (byName.Err? || byName.value.Some?) then
      (byName, if byName.Err? then cmd else cmd[u.value.2..])
    else
      var n := Run(cmd, IsNotSpace);
      if n == 0 then (Ok(None), cmd)
      else
        var found := fromDiscord(StripAt(cmd[..n]), None);
        (found, if found.Ok? && found.value.Some? then AfterWord(cmd) else cmd)
  }

  /**
   * What `eat_person` returns and where it leaves the cursor. A mention is
   * looked up by snowflake, and only a failed lookup puts the cursor back;
   * anything else is looked up by name.
   */
  ghost function PersonLookup<P, E>(cmd: string, parseUser: string -> Option<nat>,
                                    fromSnowflake: nat -> Result<Option<P>, E>,
                                    fromDiscord: (string, Option<nat>) -> Result<Option<P>, E>): (r: (Result<Option<P>, E>, string))
    ensures |r.1| <= |cmd| && r.1 == cmd[|cmd| - |r.1|..]
    ensures r.0.Err? ==> r.1 == cmd
    ensures r.0.Ok? && r.0.value.None? ==> r.1 == cmd || (MentionHit(cmd, parseUser) && r.1 == AfterWord(cmd))
  {
    if MentionHit(cmd, parseUser) then
      var found := fromSnowflake(parseUser(MentionText(cmd).value).value);
      (found, if found.Err? then cmd else AfterWord(cmd))
    else
      var byName := NameLookup(cmd, fromDiscord);
      assert byName.0.Err? || byName.0.value.None? ==> byName.1 == cmd;
      byName
  }

  /** A mention holding an id decides the lookup: the snowflake's person, consuming the mention unless the lookup errs. */
  lemma PersonLookupMention<P, E>(cmd: string, parseUser: string -> Option<nat>,
                                  fromSnowflake: nat -> Result<Option<P>, E>,
                                  fromDiscord: (string, Option<nat>) -> Result<Option<P>, E>)
    requires MentionHit(cmd, parseUser)
    ensures var lookup := PersonLookup(cmd, parseUser, fromSnowflake, fromDiscord);
      lookup.0 == fromSnowflake(parseUser(MentionText(cmd).value).value)
      && (lookup.0.Ok? ==> lookup.1 == AfterWord(cmd))
  {
  }

  /** `eat_person`, with the cursor as `cmd` and its new position as `rest`. */
  method EatPerson<P, E>(cmd: string, parseUser: string -> Option<nat>,
                         fromSnowflake: nat -> Result<Option<P>, E>,
                         fromDiscord: (string, Option<nat>) -> Result<Option<P>, E>)
    returns (person: Result<Option<P>, E>, rest: string)
    ensures person == PersonLookup(cmd, parseUser, fromSnowflake, fromDiscord).0
    ensures rest == PersonLookup(cmd, parseUser, fromSnowflake, fromDiscord).1
  {
    var original := cmd;
    var userId, after := EatMention(cmd, parseUser);
    if userId.Some? {
      var found := fromSnowflake(userId.value);
      match found {
        case Ok(opt) =>
          return Ok(opt), after;
        case Err(e) =>
          return Err(e), original;
      }
    }
    if |cmd| > 0 && cmd[0] == '@' && '#' in cmd {
      var captures := MatchUsername(cmd);
      if captures.Some? {
        var (name, discr, len) := captures.value;
        var found := fromDiscord(name, discr);
        if found.Err? {
          return Err(found.error), cmd;
        }
        if found.value.Some? {
          return Ok(found.value), cmd[len..];
        }
      }
    }
    var word := NextWord(cmd);
    if word.Some? {
      FirstWordRun(cmd, word.value);
      assert word.value == cmd[..Run(cmd, IsNotSpace)];
      var w := StripAt(word.value);
      var found := fromDiscord(w, None);
      if found.Err? {
        return Err(found.error), cmd;
      }
      if found.value.Some? {
        var eaten;
        eaten, rest := EatWord(cmd);
        return Ok(found.value), rest;
      }
    }
    return Ok(None), cmd;
  }
}
