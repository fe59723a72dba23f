# wurstminebot, modelled in Dafny

wurstminebot is the Discord bot of the Wurstmineberg Minecraft server. The
repository holds two generations of it: the older bot under `src/`, and the
newer library and command-line bot under `crate/`. This project models the
text and data handling that sits between the bot's Discord, Minecraft and
Twitch calls, and proves properties of it. It covers both generations.

- **Minecraft log classifier** (`envelope.dfy`, `chat_patterns.dfy`,
  `log_crate.dfy`, `log_legacy.dfy`). A log line matches the envelope
  `date time [thread/LEVEL]: body`, or it stays unknown. The body is then
  classified in source order into chat, action chat, a player-UUID
  announcement, an advancement (challenge, goal or task), or unknown. Each
  regular expression is written twice: as a hand-made matcher, and as a
  declarative predicate. A lemma proves the two agree in both directions.
  Each world's handler loop is a method. It keeps the nickname→UUID table
  and issues the webhook and channel messages as a list of effects.
- **Command cursor parser** (`parse.dfy`). The `eat_*` functions advance a
  `&mut &str` cursor. Each becomes a method that takes the cursor and returns
  what is left of it.
- **Emoji extraction** (`reactions.dfy`, `emoji_parts.dfy`,
  `emoji_text.dfy`):
  - the newer bot consumes a `MessagePart` tree in place;
  - the older bot scans text, preferring custom emoji, then the longest
    known Unicode emoji, else skipping one character;
  - the older bot builds its emoji table from the twemoji file names;
  - both define `nth_letter`.
- **Voice-channel map** (`voice.dfy`). The `BTreeMap<String, Vec<User>>`
  that `voice_state_update` and `guild_create` maintain is a class. Its
  invariant is that no channel is empty and every list is sorted by
  `(name, discriminator)` without duplicate keys.
- **People** (`people.dfy`):
  - the `people` rows and their JSON columns;
  - `from_discord`'s filter and uniqueness rule;
  - `mention`;
  - `minecraft_nick` and `twitch_nick`;
  - `update_discord_data` and `remove_discord_data`.
- **Discord→Minecraft relay and IPC** (`relay.dfy`).
- **Twitch→Minecraft routing** (`twitch_crate.dfy`, `twitch_legacy.dfy`):
  - how the nick map is built;
  - channel-name validation and its errors;
  - the relay text;
  - the reconnect loop of the newer bot.
- **Commands** (`commands.dfy`, `commands_legacy.dfy`): `iam`, `iamn`,
  `ping`, `poll`, `quit` (newer bot), `update` and `veto`.
- **Calendar** (`cal.dfy`):
  - event titles;
  - the two location texts;
  - the announcements `notifications` sends, in fetched order.

The newer classifier also recognises the `UUID of player … is …` line,
which feeds the avatar URL of relayed chat. The older classifier knows only
chat and action chat.

Conventions:
- Discord, the database, Twitch, the clock and the random number generator
  become parameters. A parameter is either a value (the loaded rows, the
  running worlds, a random draw) or a function (a foreign parser such as
  `UserId::from_str`, a database lookup, `PersonId::display`, `util::join`).
- What the bot sends is returned as a sequence of effects.
- Message text built with serenity's `MessageBuilder` is kept as the list
  of its pushes (`Messages.Segment`). `Messages.Raw` is the text with markup
  and escaping set aside.
- Strings are sequences of Unicode scalar values. A regex's character class
  is a predicate on characters.

## Model

| member | source | states |
|---|---|---|
| LogEnvelope.ParseThread | crate/wurstminebot/src/log.rs:89-94 | thread parsing never fails; it gives `Server` exactly for "Server thread" and otherwise keeps the name |
| LogEnvelope.ParseLevel | crate/wurstminebot/src/log.rs:106-113 | a level parses exactly when it is "INFO", "WARN" or "ERROR", and then to the level with that text |
| LogEnvelope.LevelRoundTrip | crate/wurstminebot/src/log.rs:106-113 | every level's text parses back to it and contains neither `/` nor `]` |
| LogEnvelope.LastIndex | crate/wurstminebot/src/log.rs:197 | finds the last `/` of the bracket, which is where the greedy `[^]]+` thread capture must end |
| LogEnvelope.SplitThreadLevelOf | crate/wurstminebot/src/log.rs:197 | `thread/LEVEL` with a non-empty thread splits back into that thread and level |
| LogEnvelope.SplitThreadLevelSound | crate/wurstminebot/src/log.rs:197 | a successful split reassembles to the bracket text, with a non-empty thread |
| LogEnvelope.TimestampSound | crate/wurstminebot/src/log.rs:197 | the timestamp matcher only accepts `digits-DD-DD DD:DD:DD` followed by ` [` |
| LogEnvelope.TimestampComplete | crate/wurstminebot/src/log.rs:197 | every well-formed timestamp followed by ` [` is found, with its exact length |
| LogEnvelope.BracketedCaptures | crate/wurstminebot/src/log.rs:197 | the captured thread is non-empty and has no `]`; the body is a non-empty line |
| LogEnvelope.BracketedShape | crate/wurstminebot/src/log.rs:197 | the text after the timestamp is exactly `thread/LEVEL]: body` for the captures |
| LogEnvelope.BracketedComplete | crate/wurstminebot/src/log.rs:197 | every such text is parsed back into its thread, level and body |
| LogEnvelope.Parse | crate/wurstminebot/src/log.rs:197 | every envelope the parser returns is a genuine match: its captures are well formed and render back to the line |
| LogEnvelope.ParseComplete | crate/wurstminebot/src/log.rs:197 | every line that renders from a well-formed envelope parses to it |
| LogEnvelope.ParseCorrect | crate/wurstminebot/src/log.rs:197 | the envelope parser returns an envelope exactly when the line matches the `REGULAR_LINE` pattern with those captures |
| LogEnvelope.ParseNoneIffNoMatch | src/log.rs:45 | no envelope is returned exactly when no envelope matches the line |
| ChatPatterns.MatchNameBetweenCorrect | crate/wurstminebot/src/log.rs:144-178 | `^pre([A-Za-z0-9_]{3,16})sep(rest)` is matched exactly by the maximal word run after `pre`, when the separator starts with a non-word character |
| ChatPatterns.MatchNameBetweenSound | crate/wurstminebot/src/log.rs:144-178 | a name match yields a 3–16 character word name and reassembles to the line |
| ChatPatterns.MatchNameBetweenComplete | crate/wurstminebot/src/log.rs:144-178 | every line `pre + name + sep + rest` with a valid name is matched with exactly that name and rest |
| ChatPatterns.NameBetweenSplit | crate/wurstminebot/src/log.rs:161 | a name-pattern match locates the prefix, the name as the maximal word run, and the separator |
| ChatPatterns.MatchChat | src/log.rs:43 | the captures the chat matcher returns form a `<name> msg` decomposition of the line |
| ChatPatterns.MatchAction | src/log.rs:44 | the captures the action matcher returns form a `* name msg` decomposition of the line |
| ChatPatterns.MatchChatCorrect | src/log.rs:43 | `CHAT_LINE` matches exactly `<name> msg` with a valid name and a non-empty one-line message |
| ChatPatterns.MatchActionCorrect | src/log.rs:44 | `CHAT_ACTION_LINE` matches exactly `* name msg` with a valid name and a non-empty one-line message |
| ChatPatterns.ChatActionStart | src/log.rs:43-44 | chat starts with `<`, action chat with `*` |
| ChatPatterns.MatchChatNone | src/log.rs:43 | the chat matcher fails exactly when the line has no chat decomposition |
| ChatPatterns.MatchActionNone | src/log.rs:44 | the action matcher fails exactly when the line has no action decomposition |
| CrateLog.ParseLine | crate/wurstminebot/src/log.rs:210-212 | line parsing is total: a regular line, or the unknown line holding the input unchanged |
| CrateLog.StripChatCorrect | crate/wurstminebot/src/log.rs:144 | chat with an optional `[Not Secure] ` prefix is matched exactly as the pattern says, and the prefix is never part of the sender |
| CrateLog.StripActionCorrect | crate/wurstminebot/src/log.rs:150 | the same for action chat |
| CrateLog.MatchUuid | crate/wurstminebot/src/log.rs:156 | the captures returned form `UUID of player name is uuid` with a lower-case hyphenated UUID |
| CrateLog.MatchAdvancement | crate/wurstminebot/src/log.rs:161-178 | the captures returned form `name` + the kind's phrase + `advancement]` |
| CrateLog.MatchUuidCorrect | crate/wurstminebot/src/log.rs:156 | the UUID matcher finds exactly `UUID of player name is uuid`, where `uuid` is lower-case hex in 8-4-4-4-12 groups |
| CrateLog.MatchAdvancementCorrect | crate/wurstminebot/src/log.rs:161-178 | each advancement matcher finds exactly `name` + its phrase + `[advancement]` |
| CrateLog.AdvancementStart | crate/wurstminebot/src/log.rs:161-178 | an advancement body starts with the player name, followed by the phrase |
| CrateLog.PhraseStart | crate/wurstminebot/src/log.rs:161-178 | every phrase starts with ` h`, and its sixth character tells the kind |
| CrateLog.PhrasesDiffer | crate/wurstminebot/src/log.rs:161-178 | the three phrases differ at their sixth character |
| CrateLog.UuidStart | crate/wurstminebot/src/log.rs:156 | a UUID line begins with the four word characters `UUID`, then ` o` |
| CrateLog.AdvancementsExclusive | crate/wurstminebot/src/log.rs:161-178 | a body is at most one kind of advancement, with one player and one advancement |
| CrateLog.UuidNotAdvancement | crate/wurstminebot/src/log.rs:156-178 | no body is both a UUID line and an advancement |
| CrateLog.ChatLikeStart | crate/wurstminebot/src/log.rs:144-150 | chat and action chat start with `<`, `*` or the `[Not Secure] ` marker, which is followed by `<` or `*` respectively |
| CrateLog.AdvancementFirst | crate/wurstminebot/src/log.rs:161 | an advancement body starts with a word character |
| CrateLog.ShowsUnique | crate/wurstminebot/src/log.rs:144-178 | at most one pattern matches a body, with at most one set of captures, so the source's order of trying never changes the result |
| CrateLog.ParseRegularLine | crate/wurstminebot/src/log.rs:143-181 | a classified body really matches the pattern of its result; an unknown body is kept unchanged |
| CrateLog.UnknownMeansNoMatch | crate/wurstminebot/src/log.rs:179-180 | a body is unknown only after every matcher has failed |
| CrateLog.ParseRegularLineComplete | crate/wurstminebot/src/log.rs:143-181 | a body that matches any pattern is never classified unknown |
| CrateLog.ParseRegularLineCorrect | crate/wurstminebot/src/log.rs:143-181 | the classifier returns `r` exactly when the body matches `r`'s pattern with `r`'s captures, or `r` is `Unknown(body)` and no pattern matches |
| CrateLog.ParseLineRegular | crate/wurstminebot/src/log.rs:196-204 | a line matching the envelope is regular, and only its body is classified |
| CrateLog.ParseLineUnknown | crate/wurstminebot/src/log.rs:210-212 | a line is unknown exactly when no envelope matches it |
| CrateLog.AdvancementMessageRaw | crate/wurstminebot/src/log.rs:275-283 | the advancement message reads player, then the kind's phrase, then advancement, then `]` |
| CrateLog.AdvancementBodyRaw | crate/wurstminebot/src/log.rs:275-283 | the message rebuilt from an advancement body's captures reads exactly like the body |
| CrateLog.AdvancementRelayReproduces | crate/wurstminebot/src/log.rs:271-283 | the relayed advancement reads exactly like the log body it was classified from |
| CrateLog.UuidAbsent | crate/wurstminebot/src/log.rs:243-270 | a nickname no line announced has no UUID entry |
| CrateLog.UuidFromLastAnnouncement | crate/wurstminebot/src/log.rs:270 | a nickname's entry is the UUID of its last announcement; later announcements overwrite earlier ones |
| CrateLog.LineIgnored | crate/wurstminebot/src/log.rs:286-288 | only UUID lines change the table; unknown lines send nothing |
| CrateLog.HandleWorld | crate/wurstminebot/src/log.rs:240-292 | the loop sends, in log order, each chat line through the world's webhook (with the head avatar once the sender's UUID is known) and each advancement to the channel; its final table maps each nickname to its last announced UUID; it ends with `FollowEnded` |
| CrateLog.HandleResult | crate/wurstminebot/src/log.rs:227-238 | with no worlds the handler fails with `NoWorlds`; a panicked task gives a task error; otherwise the last world's error |
| LegacyLog.ParseLine | src/log.rs:171-173 | line parsing is total: a regular line, or the unknown line holding the input unchanged |
| LegacyLog.ParseRegularLine | src/log.rs:127-143 | a body classified as chat or action chat matches that pattern with those captures; an unknown body is kept unchanged |
| LegacyLog.ShowsUnique | src/log.rs:43-44 | at most one of the two chat patterns matches a body, with one set of captures |
| LegacyLog.ParseRegularLineCorrect | src/log.rs:127-143 | the classifier gives plain chat, action chat or `Unknown(body)` exactly as the anchored patterns decide |
| LegacyLog.NotSecureIsUnknown | src/log.rs:140-142 | a body starting with `[Not Secure] ` is unknown in this generation |
| LegacyLog.ParseLineRegular | src/log.rs:157-165 | a line matching the envelope is regular, and only its fourth capture is classified |
| LegacyLog.ParseLineUnknown | src/log.rs:171-173 | a line is unknown exactly when no envelope matches it |
| LegacyLog.EffectsFromChat | src/log.rs:207-231 | every relayed message comes from a chat line that arrived while the context was stored and the channel had exactly one webhook, with that line's sender and text, through that webhook |
| LegacyLog.EveryChatRelayed | src/log.rs:208-228 | when the context, the channel and a webhook are present for every line, there are exactly as many relayed messages as chat lines |
| LegacyLog.WorldEffectsStep | src/log.rs:205-231 | each further line adds its own relay, and only when it is chat that arrived with the context and a webhook |
| LegacyLog.RelayText | src/log.rs:212-223 | the relayed message is attributed to the sender, reads as the message, and is italic exactly for actions |
| LegacyLog.HandleWorld | src/log.rs:202-235 | the loop sends, in log order, each chat line through the webhook the channel has when that line arrives, provided the context is stored at that moment; it ends with `FollowEnded` |
| CommandParse.FirstWordUnique | crate/wurstminebot/src/parse.rs:125-132 | a cursor has at most one first word |
| CommandParse.AfterWord | crate/wurstminebot/src/parse.rs:115-123 | what follows the first word and its spaces is a suffix of the cursor that does not start with a space |
| CommandParse.MentionText | crate/wurstminebot/src/parse.rs:73-90 | there is a candidate mention exactly when the cursor starts with `<` and contains `>`; it is the prefix up to the first `>` |
| CommandParse.EatOptionalPrefix | crate/wurstminebot/src/parse.rs:12-19 | returns true exactly when the cursor starts with the character, and then removes exactly it; otherwise the cursor is unchanged |
| CommandParse.EatWhitespace | crate/wurstminebot/src/parse.rs:111-113 | the cursor was some number of spaces followed by the new cursor, which does not start with a space |
| CommandParse.NextWord | crate/wurstminebot/src/parse.rs:125-132 | returns the longest prefix without a space, and None exactly when it is empty |
| CommandParse.FirstWordRun | crate/wurstminebot/src/parse.rs:125-132 | the first word is the maximal run of non-space characters |
| CommandParse.EatWord | crate/wurstminebot/src/parse.rs:115-123 | removes the returned word and then all following spaces; with no word, returns None and leaves the cursor unchanged |
| CommandParse.AfterWordOf | crate/wurstminebot/src/parse.rs:115-123 | a word, spaces and a rest that does not start with a space decompose the cursor uniquely |
| CommandParse.EatMention | crate/wurstminebot/src/parse.rs:92-109 | succeeds exactly when the text up to the first `>` parses as an id; then it consumes the first word and its spaces, otherwise the cursor is unchanged |
| CommandParse.EatRoleFull | crate/wurstminebot/src/parse.rs:53-71 | a mentioned role is returned only if nothing follows it, otherwise the cursor is restored; by name, a role is returned only if it is the only one named exactly like the cursor |
| CommandParse.MatchUsername | crate/wurstminebot/src/parse.rs:33-34 | a match is `@name#` with a 2–32 character name free of `@#:`, followed by four digits whose decimal value is the discriminator exactly when they are present, and the match length covers exactly that |
| CommandParse.MatchUsernameComplete | crate/wurstminebot/src/parse.rs:33-34 | every text `@name#…` with a valid name is matched with that name, with the discriminator and length 6 more than the name when four digits follow, else without and length 2 more |
| CommandParse.PersonLookup | crate/wurstminebot/src/parse.rs:21-50 | the cursor only ever loses a prefix, is restored after a lookup error, and stays put when no one is found except past a mention whose lookup found no one |
| CommandParse.NameLookup | crate/wurstminebot/src/parse.rs:32-49 | the name half of the lookup only ever moves the cursor past a prefix, and leaves it where it was after a lookup error or when no one is found |
| CommandParse.PersonLookupMention | crate/wurstminebot/src/parse.rs:23-30 | a mention holding an id decides the lookup on its own: the person for that snowflake, or the lookup error, with the mention consumed unless the lookup errs |
| CommandParse.EatPerson | crate/wurstminebot/src/parse.rs:21-50 | returns branch by branch what `PersonLookup` gives: a mention holding an id is looked up by snowflake, consuming the mention unless the lookup errs; else an `@name#discr` match is looked up first, and an error or a person found ends the search, a person consuming the match; else the first word without `@` is looked up by name, a person consuming the word and its spaces; else `Ok(None)` with the cursor unchanged |
| Reactions.NthLetter | crate/wurstminebot/src/emoji.rs:88-91 | the letter is the single code point U+1F1E6 + n, for n below 26 |
| Reactions.NthLetterInjective | src/emoji.rs:109-112 | distinct letters give distinct reactions |
| PartEmoji.EmojisOfCons | crate/wurstminebot/src/emoji.rs:50-62 | the emoji of a child list are the first child's, then the rest's (document order) |
| PartEmoji.NextEmoji | crate/wurstminebot/src/emoji.rs:50-73 | yields the first emoji in document order and leaves a part holding exactly the remaining ones; None exactly when there are none, and a nested part is then emptied |
| PartEmoji.Iter.Next | crate/wurstminebot/src/emoji.rs:78-80 | each call yields the next emoji of the tree and consumes it; None exactly when none are left |
| PartEmoji.CollectAll | crate/wurstminebot/src/emoji.rs:75-81 | draining the iterator yields exactly the tree's emoji in document order, and terminates |
| TextEmoji.SplitHyphenJoin | src/emoji.rs:65 | splitting a file-name stem at `-` and joining the groups gives the stem back |
| TextEmoji.StemOf | src/emoji.rs:58 | a stem captured from a file name is well formed: hyphen-separated groups of one to six lower-case hex digits |
| TextEmoji.StemOfCorrect | src/emoji.rs:58 | a file name gives a stem exactly when it is `h1-h2-….svg` with 1–6 lower-case hex digits per group |
| TextEmoji.HexValue | src/emoji.rs:65 | a hex group's value is below 16 to the power of its length |
| TextEmoji.HexGroupFitsU32 | src/emoji.rs:65 | a group of at most six hex digits always fits `u32`, so `from_str_radix` never fails on one |
| TextEmoji.DecodeGroups | src/emoji.rs:65 | the decoded emoji has at most one character per group, and is empty exactly when no group is a Unicode scalar value |
| TextEmoji.Entry | src/emoji.rs:63-66 | a file name's table entry is its decoded stem, when that is not empty |
| TextEmoji.TableIsTableAsWrittenWithoutEmpty | src/emoji.rs:60-67 | the corrected table is the source's table with only the empty string removed |
| TextEmoji.SurrogateNameGivesEmptyEntry | src/emoji.rs:65 | `d800.svg` puts the empty string into the source's table |
| TextEmoji.Insert | src/emoji.rs:65 | inserting into the ordered set adds exactly that element |
| TextEmoji.InsertSorted | src/emoji.rs:60-70 | insertion keeps the list strictly sorted by Rust's string order |
| TextEmoji.SortedTable | src/emoji.rs:60-70 | the table is strictly sorted, holds exactly the decoded entries, and has no empty string |
| TextEmoji.EmojiTable | src/emoji.rs:60-71 | the loop over the file names builds the strictly sorted, duplicate-free table of their non-empty entries |
| TextEmoji.MatchCustomCorrect | src/emoji.rs:80 | the custom-emoji matcher finds exactly a leading `<:name:digits>` with a name of at least two `[0-9A-Z_a-z]` characters |
| TextEmoji.MatchCustomSound | src/emoji.rs:80 | a custom match is a valid token at the start of the text |
| TextEmoji.MatchCustomComplete | src/emoji.rs:80 | every valid token at the start of the text is matched with its name and digits |
| TextEmoji.LastPrefix | src/emoji.rs:92 | finds the last table entry that is a prefix of the text, or reports that none is |
| TextEmoji.LastPrefixIsLongest | src/emoji.rs:92 | in a strictly sorted table, the last prefix found is the longest known prefix of the text |
| TextEmoji.MatchAt | src/emoji.rs:85-95 | a match at one position never consumes more than the text |
| TextEmoji.CustomFirst | src/emoji.rs:85-91 | a custom token that parses as an emoji id is taken before any Unicode emoji |
| TextEmoji.UnicodeLongest | src/emoji.rs:92-95 | a Unicode match is the longest table entry that starts the text, and consumes exactly it |
| TextEmoji.MatchAtNone | src/emoji.rs:85-95 | nothing matches exactly when there is no parsable custom token and no table entry starts the text |
| TextEmoji.EmptyEntryStalls | src/emoji.rs:92-94 | with the empty string in the table, a text with no other match yields the empty emoji and consumes nothing |
| TextEmoji.MatchConsumes | src/emoji.rs:88-94 | with no empty entry, every match consumes at least one character |
| TextEmoji.NextEmoji | src/emoji.rs:78-101 | yields the first match after skipping one character at a time over unmatched positions, leaving exactly the text after it; None leaves the text empty and means no position matched |
| TextEmoji.NothingLeftToTry | src/emoji.rs:96-99 | once at most one character is left without a match, no position at all can match |
| TextEmoji.EmojisSkip | src/emoji.rs:96-97 | skipping unmatched positions does not change the emoji still to come |
| TextEmoji.NextEmojiStep | src/emoji.rs:78-101 | one call yields the first emoji of the text and leaves a strictly shorter text holding the rest |
| TextEmoji.CollectAll | src/emoji.rs:75-101 | draining the iterator yields exactly the text's emoji, in order, and terminates |
| TextEmoji.Iter.Next | src/emoji.rs:78-101 | each call yields the next emoji of the remaining text and consumes it; None exactly when none are left, with the text then empty |
| Voice.KeyLessTransitive | crate/wurstminebot-cli/src/main.rs:169 | the `(name, discriminator)` order is transitive |
| Voice.KeyLessTrichotomy | crate/wurstminebot-cli/src/main.rs:169 | any two users have the same key or are ordered one way, never both |
| Voice.Retain | crate/wurstminebot-cli/src/main.rs:158 | `retain` keeps exactly the users with another id |
| Voice.RetainSorted | crate/wurstminebot-cli/src/main.rs:158 | `retain` keeps a list sorted |
| Voice.PlaceCorrect | crate/wurstminebot-cli/src/main.rs:169-172 | binary-search insertion keeps the list sorted; afterwards it holds the user and every earlier user whose key differs, and nothing else |
| Voice.UpdatedWellFormed | crate/wurstminebot-cli/src/main.rs:152-173 | the update keeps every list sorted without duplicate keys, and no channel empty |
| Voice.UpdatedUserOnlyInNewChannel | crate/wurstminebot-cli/src/main.rs:157-172 | afterwards the user is in the new channel, if any, and no user with that id is anywhere else |
| Voice.UpdatedOthersKept | crate/wurstminebot-cli/src/main.rs:157-172 | other users stay exactly where they were, except one with the same key in the new channel |
| Voice.BuiltWellFormed | crate/wurstminebot-cli/src/main.rs:88-101 | the map built from the voice states is well formed, and every listed user sits in the channel of one of the states |
| Voice.BuiltComplete | crate/wurstminebot-cli/src/main.rs:88-101 | nobody is lost: for every voice state in a channel, that channel is in the built map and lists a user with the state's name and discriminator |
| Voice.RetainAll | crate/wurstminebot-cli/src/main.rs:156-162 | the retain loop leaves every list without the user and collects exactly the channels it emptied |
| Voice.DropChannels | crate/wurstminebot-cli/src/main.rs:163-165 | the removal loop drops exactly the collected channels |
| Voice.RemoveUser | crate/wurstminebot-cli/src/main.rs:156-165 | the user leaves every list, and exactly the channels left empty are dropped |
| Voice.VoiceStates.VoiceStateUpdate | crate/wurstminebot-cli/src/main.rs:152-175 | the stored map becomes the old one with the user removed everywhere, emptied channels dropped and the user placed in its new channel; it stays well formed |
| Voice.VoiceStates.GuildCreate | src/main.rs:86-106 | the stored map is replaced by the one built from empty with the same insertion rule, is well formed, and lists every voice state's user (by name and discriminator) in that state's channel |
| DiscordRelay.WorldFor | crate/wurstminebot-cli/src/main.rs:142 | finds the first world configured for the channel, or reports that none is |
| DiscordRelay.RelayText | src/main.rs:139-144 | the relayed text ends with the message content, and for a channel without a guild name it is exactly `[Discord:#?] <author> content` |
| DiscordRelay.RelayTextShape | src/main.rs:139-141 | with a channel name, the text is `[Discord:#channel] <author> content` |
| DiscordRelay.RelayTextInjective | src/main.rs:139-144 | channel name, author and content can be read back from the relay text when the name has no `]` and the author no `>` |
| DiscordRelay.RelayLegacy | src/main.rs:137-146 | a message is relayed to `@a` exactly when its channel belongs to a world, as `[Discord:#channel] <author> content` |
| DiscordRelay.Relay | crate/wurstminebot-cli/src/main.rs:140-150 | a message is relayed exactly when its author is not a bot and its channel belongs to a world, as `tellraw @a` of `[Discord:#channel] <author> content` in that world |
| DiscordRelay.RelayGenerations | crate/wurstminebot-cli/src/main.rs:141 | the two relays disagree exactly on a bot's message in a world channel, and agree whenever the newer one relays |
| DiscordRelay.NicknameFor | src/main.rs:192 | the nickname is cleared exactly when the requested name is the username (or empty), and is otherwise the requested name |
| DiscordRelay.Dispatch | src/main.rs:179-205 | `quit` and `set-display-name` fail with `MissingContext` before the context is stored; `quit` shuts down and replies `shutdown complete`; `set-display-name` fails with `UserLookup` exactly when the user is not found, otherwise issues the nickname edit and replies `display name set` or `failed to set display name: <response>`, or fails with `EditMember` exactly when the edit errs otherwise; any other first word ends the listener with `UnknownCommand(args)` |
| DiscordRelay.SetDisplayNameEdits | src/main.rs:187-204 | a successful `set-display-name` edits the looked-up user, with the cleared or the requested nickname |
| People.Get | src/people.rs:62 | a non-null field value comes from that key of an object |
| People.PointerIndex | src/people.rs:80 | an array index token is the canonical decimal text of the index |
| People.PointerAppend | src/people.rs:80 | a JSON pointer path can be followed in two halves |
| People.MinecraftNickIsFirst | src/people.rs:79-81 | the Minecraft nick is the first entry of `minecraft.nicks`, when it is a string |
| People.TwitchNickIsLogin | src/people.rs:95-97 | the Twitch nick is the `twitch.login` string |
| People.MinecraftNick | src/people.rs:79-81 | the nick is the string at the JSON pointer `/minecraft/nicks/0` of `data`, and there is none when `data`, that path or a string there is missing |
| People.TwitchNick | src/people.rs:95-97 | the nick is the string at the JSON pointer `/twitch/login` of `data`, and there is none when `data`, that path or a string there is missing |
| People.SnowflakeRoundTrip | src/people.rs:40 | storing a `u64` id in the signed column and reading it back gives the id, and vice versa |
| People.Candidates | src/people.rs:57-71 | the candidates are exactly the rows with Discord data that pass the filter |
| People.FromDiscord | src/people.rs:72-76 | a found person is a row that passes the filter |
| People.CandidatesCount | src/people.rs:57-71 | a single matching row is the only candidate |
| People.NoCandidates | src/people.rs:57-71 | with no matching row there are no candidates |
| People.FromDiscordUnique | src/people.rs:72-76 | exactly one matching row is found |
| People.CandidatesAtLeastTwo | src/people.rs:57-71 | two matching rows give at least two candidates |
| People.FromDiscordAmbiguous | src/people.rs:72-76 | two matching rows make the lookup return None |
| People.Mention | src/people.rs:120-133 | with a snowflake the mention is `<@digits>`; without one it is the `name` string from `data` or the Wurstmineberg id |
| People.MentionOfStoredUser | src/people.rs:122-123 | a person with a stored snowflake is mentioned as that Discord user |
| People.MentionWithoutSnowflake | src/people.rs:124-130 | without a snowflake, the mention is the `name` string from `data` when there is one, and otherwise the Wurstmineberg id |
| People.DiscordDataOf | src/people.rs:106-113 | the stored Discord data fails exactly when there is no join date; otherwise it is an object with exactly the keys avatar, discriminator, joined, nick, roles and username, holding the avatar URL, discriminator, join date, nick, role ids in order, and username |
| People.SetDiscordData | src/people.rs:105-106 | exactly the rows with the snowflake get the new Discord data |
| People.FirstWithSnowflake | src/people.rs:114-115 | the returned row has the snowflake, or no row has it |
| People.UpdateDiscordData | src/people.rs:99-117 | the update fails, with the missing-join-date error, exactly when the member has no join date; otherwise every row with the member's snowflake gets the member's Discord data and every other row is kept, and the person returned is an updated row with that snowflake, or none when no row has it |
| People.UpdateThenFind | src/people.rs:102-117 | after the update, looking the member up by username and discriminator finds their row |
| People.RemoveDiscordData | src/people.rs:88-93 | exactly the rows with the user's snowflake lose their Discord data; the person returned has that snowflake and no Discord data, and there is none only when no row has the snowflake |
| People.FirstIsOnly | src/people.rs:114-115 | the only row with a snowflake is the one returned |
| People.RemoveThenNotFound | src/people.rs:88-93 | after `remove_discord_data`, `from_discord` never returns that user's row |
| CrateTwitch.NickMapKeys | crate/wurstminebot/src/twitch.rs:59-65 | the map's logins are exactly the logins of the query rows |
| CrateTwitch.NickMapLastWins | crate/wurstminebot/src/twitch.rs:63-65 | a login maps to the nick of the last row with that login |
| CrateTwitch.BuildNickMap | crate/wurstminebot/src/twitch.rs:59-65 | the query loop builds the map from empty by insertion |
| CrateTwitch.TellAll | crate/wurstminebot/src/twitch.rs:71-73 | one notice per running world, in world order, to the player |
| CrateTwitch.GreetingsCount | crate/wurstminebot/src/twitch.rs:69-74 | the greeting sends one join plus one notice per running world for each login in the iteration order |
| CrateTwitch.GreetingsJoins | crate/wurstminebot/src/twitch.rs:69-70 | the channels joined are exactly the mapped logins |
| CrateTwitch.GreetingsOnePerLogin | crate/wurstminebot/src/twitch.rs:69-74 | over the map's iteration order (each login once), the greeting sends exactly one join and one notice per running world for each login in the map |
| CrateTwitch.TellEachWorld | crate/wurstminebot/src/twitch.rs:71-73 | the loop over the running worlds sends one notice to each |
| CrateTwitch.Greet | crate/wurstminebot/src/twitch.rs:69-74 | the loop over the map joins each channel and then greets its player in every running world |
| CrateTwitch.RelayTextKind | crate/wurstminebot/src/twitch.rs:82-85 | relay text starts `[Twitch] `, followed by `*` for actions and `<` otherwise |
| CrateTwitch.Route | crate/wurstminebot/src/twitch.rs:78-93 | a channel not starting with `#` fails with `MalformedTwitchChannelName(channel)`, an unmapped one with `UnknownTwitchNick(channel)`; otherwise one notice to the mapped player per running world |
| CrateTwitch.ListenIgnoresOther | crate/wurstminebot/src/twitch.rs:95 | messages other than chat are ignored |
| CrateTwitch.ListenReconnects | crate/wurstminebot/src/twitch.rs:96 | a session ends in a reconnect exactly when a quit or end of stream comes before any chat message that fails to route |
| CrateTwitch.Relay | crate/wurstminebot/src/twitch.rs:75-98 | the relay loop sends the notices of `Listen` and ends with its outcome: routable chat goes to every running world, other messages are skipped, and the first failing route, quit or end of stream ends it |
| CrateTwitch.Session | crate/wurstminebot/src/twitch.rs:56-98 | one connection sends the greetings for the freshly queried nick map in its iteration order (each login once), then the relayed messages, and ends with the relay's outcome |
| LegacyTwitch.NickMapKeys | src/twitch.rs:25-27 | the map holds exactly the logins of members with both a Twitch login and a Minecraft nick |
| LegacyTwitch.NickMapLastWins | src/twitch.rs:25-27 | a login maps to the Minecraft nick of the last member with that login |
| LegacyTwitch.Route | src/twitch.rs:39-52 | a channel not starting with `#` fails with `MalformedTwitchChannelName`, an unmapped one with `UnknownTwitchNick`; otherwise `<twitch:name> data` goes to the mapped player |
| LegacyTwitch.RoutedStopsAtFirstFailure | src/twitch.rs:38-54 | the relay sends the routes of the messages before the first failing one, then ends with its error, or with `TwitchClientTerminated` when the stream ends |
| LegacyTwitch.ListenChat | src/twitch.rs:24-55 | joins exactly the mapped logins, then sends the route of each message up to the first failing one, and ends with that error (or `TwitchClientTerminated`) |
| Commands.Iam | crate/wurstminebot/src/commands.rs:44-53 | a self-assignable role is held afterwards, any other leaves the roles unchanged with `this role is not self-assignable`; `role added` is replied exactly when the role was self-assignable and not yet held |
| Commands.Iamn | crate/wurstminebot/src/commands.rs:57-66 | a self-assignable role is not held afterwards, any other leaves the roles unchanged; `role removed` is replied exactly when the role was self-assignable and held |
| Commands.IamIdempotent | crate/wurstminebot/src/commands.rs:44-66 | asking twice changes nothing the second time |
| Commands.IamIamnInverse | crate/wurstminebot/src/commands.rs:44-66 | `iamn` undoes an `iam` that added a role, and `iam` undoes an `iamn` that removed one |
| Commands.Pingception | crate/wurstminebot/src/commands.rs:73 | the rare reply is `BWO`, k times `R`, m times `N`, then `G` |
| Commands.Ping | crate/wurstminebot/src/commands.rs:70-77 | the reply is `pong` exactly when the rare draw fails, and otherwise the rare reply for the two draws |
| Commands.PingceptionInjective | crate/wurstminebot/src/commands.rs:73 | the rare reply determines both draws |
| Commands.RsThenN | crate/wurstminebot/src/commands.rs:73 | the `R`s form the maximal run after `BWO` |
| Commands.PingReplies | crate/wurstminebot/src/commands.rs:70-77 | every reply is `pong`, or starts with `BWO` and is 8 to 27 characters long |
| Commands.ParseU8 | crate/wurstminebot/src/commands.rs:86 | a parsed byte is below 256 |
| Commands.ParseU8RoundTrip | crate/wurstminebot/src/commands.rs:86 | every byte value parses back from its decimal text, with or without `+` |
| Commands.ParseU8Sound | crate/wurstminebot/src/commands.rs:86 | a parse succeeds only on an optional `+` and a digit string of that value |
| Commands.ParseU8Rejects | crate/wurstminebot/src/commands.rs:86 | a minus sign, the empty text and a lone `+` never parse |
| Commands.Letters | crate/wurstminebot/src/commands.rs:87-89 | the letter reactions are `nth_letter(0)` to `nth_letter(k-1)`, in order |
| Commands.LettersDistinct | crate/wurstminebot/src/commands.rs:87-89 | the letter reactions are pairwise distinct |
| Commands.PollCases | crate/wurstminebot/src/commands.rs:82-93 | with emoji, the poll reacts with exactly those in order; otherwise, with a byte argument n, with the first min(n, 26) letters; otherwise 👍 then 👎 |
| Commands.ReactLetters | crate/wurstminebot/src/commands.rs:86-89 | the letter loop issues the regional indicators A, B, … for the first min(n, 26) letters, in order |
| Commands.Poll | crate/wurstminebot/src/commands.rs:80-95 | the reactions issued are the message's emoji, else the first min(n, 26) letters, else 👍 👎 (as `PollCases` states), with `nth_letter` never called with 26 or more |
| Commands.Quit | crate/wurstminebot/src/commands.rs:97-103 | only an administrator shuts the bot down, after answering `shutting down…` |
| Commands.UpdateReply | crate/wurstminebot/src/commands.rs:110-113 | the reply is `Done!` exactly on success, otherwise the error's display and debug texts |
| Commands.Update | crate/wurstminebot/src/commands.rs:105-119 | the world updated is the channel's world; without one nothing is updated and the only reply is ephemeral; with one, `Updating <world> world…` is followed by the reply for that world's update outcome |
| Commands.VetoText | crate/wurstminebot/src/commands.rs:127-133 | the text reads `invite for <who> has been vetoed` |
| Commands.VetoTextInjective | crate/wurstminebot/src/commands.rs:127-133 | the vetoed party can be read back from the text |
| Commands.Veto | crate/wurstminebot/src/commands.rs:121-136 | a lookup error fails the command; a person `eat_person` finds is named by their mention; with no one found, the rest of the command after `eat_person` appears monospaced |
| LegacyCommands.Poll | src/commands.rs:34-49 | the same choice of reactions as the newer poll, over the emoji the text iterator yields with the corrected emoji table |
| LegacyCommands.ReactAll | src/commands.rs:36-39 | draining the emoji iterator reacts with the emoji already peeked and then every further emoji the iterator yields from the message text, in order |
| LegacyCommands.Veto | src/commands.rs:67-78 | the veto goes to the general channel; a lookup error fails the command; otherwise the text names the found person by `mention`, or the rest of the command monospaced |
| Calendar.GuestNames | crate/wurstminebot/src/cal.rs:47-50 | the guest names are the guests' display names, in guest order |
| Calendar.Title | crate/wurstminebot/src/cal.rs:44-58 | the loop over the guests builds the title `TitleOf` gives |
| Calendar.TitleShape | crate/wurstminebot/src/cal.rs:51-55 | a title is `tour of <area> for <names>`, or `server tour for <names>` without an area; `<names>` is the joined names, or `no one` |
| Calendar.TitleDependsOnNames | crate/wurstminebot/src/cal.rs:46-55 | the title depends only on the guests' display names |
| Calendar.IcsLocation | crate/wurstminebot/src/cal.rs:60-65 | the area then `Wurstmineberg`, or the spawn platform at Zucchini without an area |
| Calendar.DiscordLocation | crate/wurstminebot/src/cal.rs:67-72 | the same, with Zucchini linked to its wiki page |
| Calendar.LocationsAgree | crate/wurstminebot/src/cal.rs:60-72 | the two locations are equal with an area and differ only by the Zucchini link without one; both end in `Wurstmineberg` |
| Calendar.AnnouncementOf | crate/wurstminebot/src/cal.rs:93-102 | the text is `event starting` with a relative time tag; the embed has the colour, the title, the Discord location, and full-time start and end fields |
| Calendar.TimeTag | crate/wurstminebot/src/cal.rs:94 | a time tag is `<t:`, the decimal timestamp, `:`, the style character and `>` |
| Calendar.TimeTagInjective | crate/wurstminebot/src/cal.rs:94 | a time tag determines its timestamp |
| Calendar.AnnouncementStart | crate/wurstminebot/src/cal.rs:94 | two announcements with the same text announce the same start time |
| Calendar.Notifications | crate/wurstminebot/src/cal.rs:75-105 | draining the fetched list sends one announcement per event, each exactly once, in fetched (start-time) order |
| Text.LexLessTransitive | src/emoji.rs:60-70 | Rust's string order, which the emoji set is sorted by, is transitive |
| Text.LexLessTotal | src/emoji.rs:60-70 | any two different strings are ordered one way |
| Text.ProperPrefixIsLess | src/emoji.rs:92 | a proper prefix sorts before the string, which is why the last prefix found is the longest |
| Text.IntToDecimalInjective | crate/wurstminebot/src/cal.rs:94 | different timestamps give different decimal texts |

## Left out

- Log following (`follow`: file I/O and the `chase` watcher) and the spawning
  of one asynchronous task per world in `handle`. The handler loops take the parsed lines as a finite
  sequence. `handle` is modelled from the outcomes of its tasks
  (`CrateLog.HandleResult`). The older `handle` has the same shape and is not
  repeated.
- Timestamps are checked for the digit pattern only. The source discards the
  timestamp, thread and level captures, and the model does too.
- Discord, the database, Twitch and Minecraft calls become parameters or
  returned effects. A failing call (`?` on a Discord, database or Minecraft
  call) is not modelled. Each loop describes the run in which every call
  succeeds.
- `HashMap` iteration order in the newer Twitch greeting loop is a parameter
  (`order`). Which order the map uses is not modelled.
- serenity's argument splitting (`Args::single`, `Args::message`) is not
  modelled. The poll argument is given as the first word, or as None.
- `MessageBuilder` escaping (`push_safe`, `push_mono_safe`,
  `push_italic_safe`) is kept as a tag on each pushed segment. What the
  escaping does to the text is not modelled.
- `TextEmoji.Iter.constructor`: `Iter::new` reads the twemoji directory. The
  listing is a parameter, and I/O and file-name decoding failures are not
  modelled.
- The foreign parsers `UserId::from_str`, `RoleId::from_str`,
  `EmojiIdentifier::from_str` and `Uuid` parsing are function parameters. The
  message-part parser of the newer bot is not part of this model: a message
  is given as its `MessagePart` tree.
- `crate/wurstminebot/src/people.rs` is not part of this model, because its
  lookups are SQL queries. `Person::from_snowflake`, `PersonId::display` and
  `util::join` are function parameters. In the older `veto`, the cursor
  parser `src/parse.rs` is not part of this model; it is the `eatPerson`
  parameter of `LegacyCommands.Veto`.
- `ping`'s random draws and `notifications`' clock and `sleep` are
  parameters, or are left out. `notifications` is given the fetched events,
  already in start-time order as the query returns them.
- The older `ping` replies through `msg.reply`, which adds a mention of the
  author. That prefix is not modelled.
- The Twitch runner's termination payload (`TwitchClientTerminated(done)`)
  is reduced to the bare error.
- IPC transport (TCP, `shlex`), the mail fallback of `notify_thread_crash`,
  `voice::dump_info`, configuration loading, `http.rs` and the Python
  bindings are outside the modelled core.
- `CommandParse.EatOptionalPrefix`: the source slices off one byte. The model
  requires an ASCII prefix character, or a cursor that does not start with
  it. With a non-ASCII prefix the slice would panic at a non-character
  boundary.
- `People.Mention`: it requires a snowflake or a Wurstmineberg id, because
  the source panics without either.
- `People.FromDiscord`: it requires a discriminator between 1 and 9999 and
  readable stored Discord data (a string username, and a `u64`
  discriminator when one is asked for), because the source panics
  otherwise.
- `Commands.Ping`: it requires the draws to lie in the source's ranges
  (3 ≤ k < 20, 1 ≤ m < 5). The draws themselves are inputs.
- `Voice.VoiceStates.GuildCreate`: the voice states are a sequence in the
  guild's order. The source iterates a `HashMap`.
- `LegacyTwitch.ListenChat`: the join and `tellraw` calls are not sequenced
  with each other. The method returns the set of joined channels and the
  list of notices.
- The older `quit` command (`src/commands.rs:51-65`) is not modelled. Its
  body only calls `shut_down`, and the owner check is the serenity option
  `owners_only`, so the bot has no logic of its own there.
- `DiscordRelay.Dispatch`: it requires a first word, and two more after
  `set-display-name`. The source indexes `args[0]`, `args[1]` and `args[2]`
  unchecked (`src/main.rs:179,190-191`), so an empty line or a short
  `set-display-name` panics the IPC thread; that panic is not modelled. A
  user id that does not parse and a user that cannot be fetched are both
  `UserLookup`.
- `CrateLog.HandleWorld`: the channel's webhook is one input for the whole
  run. The source asks for the webhooks again for every chat line, so a
  webhook that changes while the world runs is not modelled (the older
  `LegacyLog.HandleWorld` takes the answer per line).
- `CrateTwitch.Session`: it models one connection attempt. The outer `loop`
  that reconnects after a `Reconnect` outcome is left to the caller, because
  it never terminates.

## Findings

| source | as written | input that shows it | evidently intended | confidence | as-written member | corrected member |
|---|---|---|---|---|---|---|
| src/emoji.rs:65 | a twemoji file whose hex groups are all invalid code points adds the empty string to the emoji table; `text.starts_with("")` then always holds, so on text with no other match `next` yields an empty emoji without consuming anything, and iteration never ends | a file named `d800.svg` (a surrogate, not a `char`) and a poll message without emoji | only non-empty decoded file names enter the table | low (not executed; the official twemoji set may contain no such file) | TextEmoji.SurrogateNameGivesEmptyEntry | TextEmoji.EmojiTable |
