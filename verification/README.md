# fuzzle-bot, modelled in Dafny

This project models the pure logic of fuzzle-bot, a Telegram bot for tagging and searching stickers. The logic sits inside the bot's I/O code. It covers:

- the current tree under `fuzzle/` and the older tree under `src/`;
- the tag search engine crate;
- the theme script of the Mini App page.

Every operation is a pure function over Dafny values: sequences, maps, `string` as `seq<char>` and unbounded integers. Its contract says what the source promises. Database reads, Telegram calls, clocks, HMAC and emoji recognition are parameters or are left out, as listed below.

The modules follow the source:

- **Wire formats.**
  - The nom literal grammars and combinators: `Literals`, `Nom`, `TagLists`.
  - Callback data: `CallbackData`, `LegacyCallbackData`.
  - Inline-query text: `InlineData`, `LegacyInlineData`.
  - Result ids: `ResultId`, `LegacyResultId`.
  - The paging cursor: `Pagination`.
  - The start parameter: `StartParameters`.
  - Command escaping: `CommandUtil`, `LegacyCommandUtil`.
- **The tag model.**
  - The CSV loops: `TagMaps`, `TagManager`, `LegacyTagManager`, `E621Tags`.
  - The transitive closure of implications: `ImplicationClosure`.
  - Categories and the count and rating tags: `Categories`, `TagUtil`.
- **Suggestions.**
  - Merging scored lists: `TagSuggestion`.
  - The rule language and its two parsers: `Rules`, `RuleFile`, `LegacyRuleFile`.
  - Reverse implication: `Implied`.
  - The vote-and-cap combiner: `CombineSuggestions`.
- **Handlers.**
  - Dialog state: `DialogStates`.
  - Hidden commands: `HiddenCommands`.
  - Callback buttons: `CallbackHandler`.
  - Inline queries: `InlineQueryHandler`.
  - Message routing: `MessageHandler`, `LegacyMessageHandler`.
  - Keyboards: `Keyboards`, `LegacyKeyboards`.
- **Database text.**
  - SQL builders: `QueryBuilder`, `LegacyQueryBuilder`.
  - Export folds: `Export`, `LegacyExport`.
  - Ordering helper: `DatabaseUtil`.
- **Web login.** `Auth` and `LegacyAuth`, with `Hex`.
- **Utilities.**
  - User-facing errors: `BotErrors`.
  - Relative time: `RelativeTime`.
  - Telegram helpers: `BotUtil`.
  - Keyword limit: `LimitKeywords`.
  - Thumbnail grid: `Thumb`.
  - Colour histogram: `Histogram`.
  - Nearest matches: `TopMatches`.
  - Emoji normalisation: `Emojis`.
- **Search.** The trigram search engine: `TagSearchEngine`.
- **The page script.** `Theme`.
- **Shared helpers.** `Wrappers`, `Strings`, `Decimal`, `Ordering`.

Where the older and current trees differ, each has its own module. Shared logic is written once and the older module imports it.

## Model

| member | source | states |
|---|---|---|
| Literals.StickerIdLiteral | fuzzle/src/util/parsers.rs:10-12 | a sticker id is the longest non-empty prefix of ASCII letters, digits, `-` and `_`; it fails, at the input, exactly when the first character is none of these |
| Literals.SetNameLiteral | fuzzle/src/util/parsers.rs:21-23 | a set name is the longest non-empty prefix of ASCII letters, digits and `_`; fails exactly when the input does not start with one |
| Literals.TagLiteral | fuzzle/src/util/parsers.rs:14-19 | a tag is the longest non-empty prefix of letters, digits and `_-()/<>!?':.^`; the word never holds `,`, `;` or a space, which separate tags in lists |
| Literals.LegacyTagLiteral | src/util/parsers.rs:14-25 | the older tag grammar: letters, digits and `_-()/<`, longest non-empty prefix |
| Literals.LiteralExact | fuzzle/src/util/parsers.rs:10-23 | a word of the class followed by a rest that does not continue it is read back exactly, with that rest left over |
| Literals.LegacyTagIsTag | src/util/parsers.rs:14-25 | every tag the older grammar accepts is accepted by the current one |
| Literals.SetNameIsStickerId | fuzzle/src/util/parsers.rs:10-23 | every set name is also a well-formed sticker id |
| CallbackData.TagOperationDisplay | fuzzle/src/callback/callback_data.rs:34-45 | a tag operation prints as its kind letter (`t` for tag, `u` for untag), a `;`, and the tag itself |
| CallbackData.TagOperationRoundTrip | fuzzle/src/callback/callback_data.rs:20-45 | reading back a printed tag operation with a well-formed tag gives the same operation and consumes everything |
| CallbackData.ParseStickerData | fuzzle/src/callback/callback_data.rs:373-386 | the sticker form is accepted only after `s;` |
| CallbackData.StickerDataRoundTrip | fuzzle/src/callback/callback_data.rs:373-386 | `s;{id};{op}`, with or without an operation, is read back whole to the same sticker id and operation |
| CallbackData.ParseUserInfo | fuzzle/src/callback/callback_data.rs:340-345 | the user-info form is accepted only after `userinfo;` |
| CallbackData.ParseOrder | fuzzle/src/callback/callback_data.rs:316-323 | the order form succeeds exactly when the text starts with `order;` and the JSON reader accepts the rest; it then consumes the whole rest and yields the order the reader produced |
| CallbackData.OrderFromJson | fuzzle/src/callback/callback_data.rs:316-323 | a discriminant is accepted only when the rest, with JSON white space trimmed from both ends, is exactly the printed form of that order |
| CallbackData.OrderFromJsonPadded | fuzzle/src/callback/callback_data.rs:316-323 | any run of space, tab, line feed or carriage return on either side of a printed order still reads back as that order |
| CallbackData.ParseOrderPadded | fuzzle/src/callback/callback_data.rs:316-323 | `order;` followed by a white-space-padded discriminant parses to that order with nothing left over |
| CallbackData.ParseSetCategory | fuzzle/src/callback/callback_data.rs:325-332 | the category form is accepted only after `cat;` |
| CallbackData.ParseMerge | fuzzle/src/callback/callback_data.rs:204-220 | the merge form is accepted only after `merge;` |
| CallbackData.Parse | fuzzle/src/callback/callback_data.rs:158-181 | a callback payload is accepted exactly when some alternative reads it and nothing is left over, and the value is that alternative's |
| CallbackData.RoundTrip | fuzzle/src/callback/callback_data.rs:398-481 | every payload whose tags, sticker ids and user id satisfy their grammars is read back from its printed form to the same value |
| CallbackData.EmptyRejected | fuzzle/src/callback/callback_data.rs:494-498 | the empty payload is a parse error |
| CallbackData.StickerOperationSamples | fuzzle/src/callback/callback_data.rs:500-524 | `s;5uh33fj84;t;male` and `s;5uh33fj84;u;male` read as a tag and an untag of `male` on sticker `5uh33fj84` |
| CallbackData.KeywordSamples | fuzzle/src/callback/callback_data.rs:526-540 | `help` and `start` read as their variants and print back unchanged |
| CallbackData.KeywordTrailingRejected | fuzzle/src/callback/callback_data.rs:158-202 | `help;` is rejected: the keyword alternative wins and the end-of-input test after it fails without trying the others |
| CallbackData.UnknownCategoryNormalised | fuzzle/src/callback/callback_data.rs:325-332 | category number 2, which names no category, reads as "no category", which prints as `cat;none`, so two payloads read to one value |
| LegacyCallbackData.ParseStickerData | src/callback/callback_data.rs:176-190 | the older sticker form is accepted only after `s;`; its operation is required |
| LegacyCallbackData.ParseRemoveBlacklist | src/callback/callback_data.rs:168-174 | accepted only after `removebl;` |
| LegacyCallbackData.ParseUserInfo | src/callback/callback_data.rs:145-151 | accepted only after `userinfo;` |
| LegacyCallbackData.ParseOrder | src/callback/callback_data.rs:134-143 | succeeds exactly when the text starts with `order;` and the JSON reader accepts the rest, consuming all of it |
| LegacyCallbackData.ParseOrderPadded | src/callback/callback_data.rs:134-143 | `order;` followed by a discriminant padded with JSON white space parses to that order with nothing left over |
| LegacyCallbackData.TryFrom | src/callback/callback_data.rs:192-204 | a payload is accepted exactly when the grammar reads it and leaves nothing over; otherwise it is an error |
| LegacyCallbackData.RoundTrip | src/callback/callback_data.rs:207-236 | every older payload whose tag, sticker id and user id satisfy the older grammars reads back from its printed form to the same value |
| LegacyCallbackData.EmptyRejected | src/callback/callback_data.rs:249-254 | the empty payload is an error |
| LegacyCallbackData.StickerOperationSamples | src/callback/callback_data.rs:255-280 | the tag and untag examples read to the expected sticker operations |
| LegacyCallbackData.KeywordSamples | src/callback/callback_data.rs:281-296 | `help` and `start` read as their variants and print back unchanged |
| LegacyCallbackData.UnconsumedRejected | src/callback/callback_data.rs:196-202 | `info;` is read as `info` with `;` left over, and so refused by the consumption test |
| LegacyCallbackData.CurrentTagCharRejected | src/callback/callback_data.rs:28-33 | a tag holding `:`, which only the current grammar allows, is printed but not read back: the older tree cannot read every payload it prints |
| InlineData.TagKindFromStr | fuzzle/src/inline/data.rs:94-109 | a tag kind is read from a `u8`; text that is no `u8` is a parse error at position 0 carrying the text, `1` gives the alias kind and any other number the default main kind |
| InlineData.TagKindRoundTrip | fuzzle/src/inline/data.rs:94-109 | every kind is read back from its discriminant |
| InlineData.TagKindSamples | fuzzle/src/inline/data.rs:103-108 | `7`, no discriminant, falls back to the main kind; `x` is an error at position 0 |
| InlineData.Enclosed | fuzzle/src/inline/data.rs:308 | `({prefix}{literal})` succeeds only after the prefix, yields a non-empty word of the literal's class and consumes input |
| InlineData.StickerTags | fuzzle/src/inline/data.rs:306-315 | the sticker-tagging mode is entered only after `(s:` |
| InlineData.SetTags | fuzzle/src/inline/data.rs:316-331 | the set tag/untag mode is entered only after `(se:` or `(su:` |
| InlineData.UserSets | fuzzle/src/inline/data.rs:351-355 | the user-sets mode is entered only after `(usersets:` and holds a user id between 0 and the largest `i64` |
| InlineData.AddToSet | fuzzle/src/inline/data.rs:362-380 | the add-to-set mode consumes the whole input, and a title, when present, is never empty |
| InlineData.ContinuousTags | fuzzle/src/inline/data.rs:411-423 | the continuous tagging mode is entered only after `(cont)` or `(-cont)` |
| InlineData.WithRest | fuzzle/src/inline/data.rs:385-402 | a keyword mode takes the whole rest of the input unchanged: the input is the keyword followed by the value |
| InlineData.ReadItem | fuzzle/src/inline/data.rs:267-270 | an item read from a search consumes input, and an item read as a tag satisfies the tag grammar |
| InlineData.TagsAndEmojis | fuzzle/src/inline/data.rs:260-301 | the search reading never fails and always yields a sticker search |
| InlineData.Alternatives | fuzzle/src/inline/data.rs:303-446 | the mode choice never fails, because its last alternative, the search, always succeeds |
| InlineData.AlternativesShrink | fuzzle/src/inline/data.rs:303-446 | no mode returns more input than it was given |
| InlineData.Parse | fuzzle/src/inline/data.rs:453-461 | a query is accepted exactly when only white space follows the chosen mode; an error reports the unread text, non-empty, and its position, which with the text's length adds up to the input's length |
| InlineData.ItemsExact | fuzzle/src/inline/data.rs:260-270 | tags and emojis printed with single spaces between them are read back in order, up to one trailing blank |
| InlineData.SearchRoundTrip | fuzzle/src/inline/data.rs:492-500 | a search whose emojis are printed first and whose first tag spells no mode prefix is read back to the same tags and emojis |
| InlineData.RoundTrip | fuzzle/src/inline/data.rs:464-563 | every well-formed query is read back from its printed form; the two free-text modes come back with the blank the printer put in front of the text |
| InlineData.ReparsedExact | fuzzle/src/inline/data.rs:464-563 | every well-formed query other than the two free-text modes is read back exactly |
| InlineData.EmptyStickerQuerySample | fuzzle/src/inline/data.rs:589-593 | the sticker query with no tags prints as `(s:asdf) ` |
| InlineData.StickerQuerySample | fuzzle/src/inline/data.rs:595-602 | one tag group prints with blanks between the tags |
| InlineData.StickerQueryGroupsSample | fuzzle/src/inline/data.rs:604-614 | tag groups are separated by `, ` |
| InlineData.SetTagSample | fuzzle/src/inline/data.rs:576-587 | `(se:asdf) dragon uwu` reads as tagging set `asdf` with one group `dragon uwu` |
| InlineData.PlainSearchSample | fuzzle/src/inline/data.rs:616-624 | `male female` reads as a search for both tags |
| InlineData.BlacklistSample | fuzzle/src/inline/data.rs:634-642 | `(blacklist) attribution` reads as the blacklist mode with that tag |
| InlineData.EmojiQuery | fuzzle/src/inline/data.rs:626-632 | a query that is one emoji, read completely by the emoji recogniser, is an emoji search with no tags |
| InlineData.ModeLikeTagMisread | fuzzle/src/inline/data.rs:303-446 | a search for the tag `(dup)` prints as `(dup)`, which reads back as the duplicate listing: the search printer and the mode reader disagree |
| InlineData.NegativeUserSetsMisread | fuzzle/src/inline/data.rs:351-355 | a negative user id prints as `(usersets:-n) ` but reads back as a search for one tag, since the id is read as unsigned digits |
| InlineData.UserSetsFallsThrough | fuzzle/src/inline/data.rs:351-446 | after `(usersets:-` every mode but the search fails, so the text is read as a search |
| LegacyInlineData.Spaces | src/inline/data.rs:179-181 | skipping blanks leaves a suffix that does not start with a blank |
| LegacyInlineData.ParseMode | src/inline/data.rs:124-178 | the older mode choice never fails; when it picks the plain search it has read nothing |
| LegacyInlineData.NoParenMode | src/inline/data.rs:124-178 | text that does not open with `(` is a plain search from its first character |
| LegacyInlineData.ParseQuery | src/inline/data.rs:124-193 | reading a query never fails, it is a plain search exactly when the mode is, and every tag it keeps satisfies the older tag grammar |
| LegacyInlineData.TryFrom | src/inline/data.rs:195-209 | a query is accepted exactly when nothing is left unread; otherwise the error carries the unread, non-empty rest |
| LegacyInlineData.LegacyTagsBack | src/inline/data.rs:185 | tags joined by single blanks are read back to the same list with nothing left |
| LegacyInlineData.SearchRoundTrip | src/inline/data.rs:211-252 | a plain search without emoji whose first tag does not open with `(` is read back to the same tags |
| LegacyInlineData.EmojiSearchRoundTrip | src/inline/data.rs:211-252 | a plain search with an emoji printed in front of its tags is read back to the same emoji and tags |
| LegacyInlineData.RoundTrip | src/inline/data.rs:211-252 | every well-formed older query is read back from its printed form |
| LegacyInlineData.QuerySamples | src/inline/data.rs:281-291 | the sticker query prints as `(s:asdf) ` with no tags and `(s:asdf) male female` with two |
| LegacyInlineData.PlainSearchSample | src/inline/data.rs:292-300 | `male female` reads as a plain search for both tags |
| LegacyInlineData.BlacklistOneTag | src/inline/data.rs:313-321 | `(blacklist) ` followed by one tag reads as the blacklist mode with that tag |
| LegacyInlineData.EmojiQuery | src/inline/data.rs:302-311 | a query that is one emoji, read completely, is an emoji search without tags |
| LegacyInlineData.ModeLikeTagMisread | src/inline/data.rs:124-193 | `(blacklist)` is itself a valid older tag; a search for it prints as `(blacklist)` and reads back as the blacklist mode with no tags |
| TagLists.SeparatedWords | fuzzle/src/inline/data.rs:233-242 | a separated word list keeps only words of the literal's class, never returns more input than it was given, and is empty exactly when no word starts the input |
| TagLists.WordsExact | fuzzle/src/inline/data.rs:233-242 | words joined by single blanks, followed by text that ends the list, are read back to the same words with that text left over |
| TagLists.Ms0 | fuzzle/src/inline/data.rs:236 | skipping white space leaves a suffix that does not start with white space |
| TagLists.ParseTags | fuzzle/src/inline/data.rs:233-242 | every tag read satisfies the tag grammar |
| TagLists.Groups | fuzzle/src/inline/data.rs:247 | comma-separated groups always hold at least one group, since reading a group never fails, and every tag in them satisfies the tag grammar |
| TagLists.NonEmpty | fuzzle/src/inline/data.rs:251 | dropping empty groups keeps only non-empty groups taken from the input and never lengthens it |
| TagLists.NonEmptyKeeps | fuzzle/src/inline/data.rs:251 | a list of non-empty groups is kept unchanged |
| TagLists.CommaSeparatedTags | fuzzle/src/inline/data.rs:244-253 | the groups returned are all non-empty |
| TagLists.GroupsExact | fuzzle/src/inline/data.rs:244-253 | non-empty groups of valid tags printed with `, ` between groups are read back group for group |
| TagLists.CommaSeparatedTagsExact | fuzzle/src/inline/data.rs:244-253 | what the query printers write after a mode prefix, a blank and then the groups, is read back to the same groups with nothing left |
| ResultId.Alphanumeric1 | fuzzle/src/inline/result_id.rs:49 | reads the longest non-empty run of ASCII letters and digits, failing at the input when there is none |
| ResultId.Parse | fuzzle/src/inline/result_id.rs:21-57 | an id is accepted exactly when some alternative reads the whole text; the value is what that alternative read |
| ResultId.PrefixesDiffer | fuzzle/src/inline/result_id.rs:31-56 | no variant's prefix is matched by an alternative tried before it |
| ResultId.RoundTrip | fuzzle/src/inline/result_id.rs:59-70 | every id whose payload satisfies its grammar is read back from its printed form |
| ResultId.TrailingInputRejected | fuzzle/src/inline/result_id.rs:56 | a sticker id followed by text that cannot continue it is rejected by the end-of-input test |
| ResultId.OtherNeedsAlphanumeric | fuzzle/src/inline/result_id.rs:49 | an `o:` id with a blank in its description prints but does not read back |
| LegacyResultId.ParseResult | src/inline/result_id.rs:30-40 | a sticker result is read only after `s:` and a tag result only after `t:` |
| LegacyResultId.TryFrom | src/inline/result_id.rs:16-28 | an id is accepted exactly when it is read and nothing is left over |
| LegacyResultId.AlternativesDisjoint | src/inline/result_id.rs:30-40 | no text starts with both `s:` and `t:`, so the first character decides the alternative |
| LegacyResultId.RoundTrip | src/inline/result_id.rs:42-49 | every older id whose payload satisfies its grammar is read back from its printed form |
| LegacyResultId.UnconsumedRejected | src/inline/result_id.rs:36 | a tag result `a:b`, valid only in the current grammar, is printed but rejected when read back |
| Pagination.FromQueryOffset | fuzzle/src/inline/pagination.rs:11-30 | without a `;` the first page is served with the freshly drawn seed; an error is possible only when the text holds a `;`; a page that is read keeps the page size, an offset that fits `usize` and a seed that fits `i32` |
| Pagination.NextQueryOffset | fuzzle/src/inline/pagination.rs:32-38 | the cursor is empty, meaning no more results, exactly when the page came back shorter than the page size |
| Pagination.ParseCursor | fuzzle/src/inline/pagination.rs:15-23 | `{offset};{seed}`, with anything after a further `;`, reads back as exactly that offset and seed |
| Pagination.NextPageAdvances | fuzzle/src/inline/pagination.rs:32-38 | following a full page's cursor advances the offset by one page and keeps the seed, so the random order holds across pages |
| Pagination.ShortPageRestarts | fuzzle/src/inline/pagination.rs:32-38 | a short page's cursor reads back as the first page with a fresh seed |
| Pagination.RejectsBadOffset | fuzzle/src/inline/pagination.rs:21 | a non-numeric offset is an error, not a default |
| StartParameters.Display | fuzzle/src/message/command/start_parameter.rs:25-33 | only the regular parameter prints as the empty text |
| StartParameters.FromStr | fuzzle/src/message/command/start_parameter.rs:13-22 | exactly the four texts `""`, `blacklist`, `help` and `beep` are accepted; anything else is refused with the invalid-parameter message |
| StartParameters.RoundTrip | fuzzle/src/message/command/start_parameter.rs:13-33 | printing then reading gives the parameter back, and every accepted text is the printed form of what it reads to |
| StartParameters.DisplayInjective | fuzzle/src/message/command/start_parameter.rs:25-33 | distinct parameters print differently |
| CommandSeparator.CommandNameLen | fuzzle/src/message/command/util.rs:5 | the command name is the maximal run of ASCII letters right after the first character |
| CommandSeparator.FixSeparator | fuzzle/src/message/command/util.rs:4-9 | the rewrite keeps the length, changes the text exactly when a `/`, a non-empty run of ASCII letters and a `_` open it, and then only at a `_` |
| CommandSeparator.FixSeparatorExact | fuzzle/src/message/command/util.rs:4-9 | `/name_rest` becomes `/name rest` for every ASCII-letter name |
| CommandSeparator.FixSeparatorIdempotent | fuzzle/src/message/command/util.rs:4-9 | rewriting a second time changes nothing |
| CommandUtil.FixUnderlineCommandSeparatorAndNormalize | fuzzle/src/message/command/util.rs:4-9 | the normalised command is the separator-rewritten text with its leading and trailing White_Space runs cut off: a segment of the rewritten text, preceded and followed only by white space, and neither starting nor ending with white space |
| CommandUtil.NormalizeSeparatedCommand | fuzzle/src/message/command/util.rs:4-9 | `/name_args`, with arguments not ending in white space, becomes `/name args` |
| CommandUtil.EscapeStickerUniqueIdForCommand | fuzzle/src/message/command/util.rs:12-14 | an escaped sticker id contains no `-` |
| CommandUtil.EscapedPrefix | fuzzle/src/message/command/util.rs:12-14 | an `_`-free text that starts the escaped id also starts the id itself |
| CommandUtil.EscapeRoundTrip | fuzzle/src/message/command/util.rs:12-19 | unescaping undoes escaping for every id in which `_uwu` does not occur |
| CommandUtil.EscapeRoundTripCounterexample | fuzzle/src/message/command/util.rs:12-19 | `_uwu-` escapes to a text that unescapes to `-uwu_`, so the assumption in the source's comment is needed |
| CommandUtil.EscapeRoundTripSamples | fuzzle/src/message/command/util.rs:32-44 | the ten ids of the unit test come back unchanged |
| LegacyCommandUtil.FixUnderlineCommandSeparator | src/message/command/util.rs:3-7 | the older rewrite keeps the length and changes the text only when it opens with `/`, ASCII letters and `_` |
| LegacyCommandUtil.EscapeStickerUniqueIdForCommand | src/message/command/util.rs:9-14 | an escaped id contains no `-` |
| LegacyCommandUtil.EscapeRoundTrip | src/message/command/util.rs:9-19 | unescaping undoes escaping for every id without `_` |
| LegacyCommandUtil.EscapeRoundTripCounterexample | src/message/command/util.rs:9-19 | `_-` escapes to `____`, which unescapes to `-_` |
| Emojis.NewFromStringSingle | fuzzle/src/util/emoji.rs:10-13 | the stored emoji text neither starts nor ends with a variation selector and is no longer than the input |
| Emojis.ToStringWithVariant | fuzzle/src/util/emoji.rs:21-23 | the text sent to Telegram is the stored text followed by one emoji-presentation selector |
| Emojis.NewKeepsInterior | fuzzle/src/util/emoji.rs:10-13 | the stored text is a contiguous middle part of the input, and what was cut off at either end is selectors only |
| Emojis.NormalizeWithVariant | fuzzle/src/util/emoji.rs:10-23 | re-reading the text sent to Telegram gives the same emoji |
| Emojis.SelectorInsensitive | fuzzle/src/util/emoji.rs:10-13 | an emoji with a trailing emoji-presentation selector is the same emoji as without it |
| Emojis.AllSelectorsVanish | fuzzle/src/util/emoji.rs:10-13 | a text of selectors only is trimmed to nothing |
| Emojis.HotBeverageSample | fuzzle/src/util/emoji.rs:70-72 | the hot-beverage emoji with and without its selector is one emoji |
| Categories.ToU8 | fuzzle/src/tags/category.rs:7-17 | a category's number is at most 99, and 99 is the rating category's |
| Categories.FromU8 | fuzzle/src/tags/category.rs:5-17 | a number names a category exactly when it is 0, 1, 3, 4, 5, 7, 8 or 99, and then it is that category's number |
| Categories.FromToU8 | fuzzle/src/tags/category.rs:5-17 | every category is read back from its number |
| TagMaps.InsertPairs | fuzzle/src/tags/tag_manager.rs:67-105 | inserting a fixed table: every key of the table is present, the last pair naming a key gives its value, keys the table does not name keep their value, and no other key appears |
| TagMaps.InsertPairsIdempotent | fuzzle/src/tags/tag_manager.rs:67-105 | inserting the same table twice gives the same map as inserting it once |
| TagMaps.Insert | fuzzle/src/tags/tag_manager.rs:119-143 | after the insertion loop every admitted row's key is present; each key is either untouched from before or holds the value of a row that wrote it, and the last row writing a key decides its value; keys no row writes keep their old value |
| TagMaps.Push | fuzzle/src/tags/tag_manager.rs:326-329 | `entry(a).or_default().push(c)` appends `c` to the list of `a`, creating it, and changes no other list |
| TagMaps.ConsequentsOf | fuzzle/src/tags/tag_manager.rs:318-331 | the consequents the rows give an antecedent are exactly those of the rows naming it |
| TagMaps.Append | fuzzle/src/tags/tag_manager.rs:318-331 | appending rows extends each antecedent's list by its consequents in row order and adds exactly the antecedents some row names |
| TagMaps.InsertTagRows | fuzzle/src/tags/tag_manager.rs:119-143 | every admitted tag row is present; each tag is old or holds the category of a row naming it, the last such row deciding; tags no admitted row names keep their category |
| TagMaps.InsertAliasRows | fuzzle/src/tags/tag_manager.rs:245-260 | every allowed alias row whose target is a known tag is inserted; every new or changed alias comes from such a row and points to a known tag; when all aliases pointed to known tags before, they still do |
| TagMaps.AcceptedConsequents | fuzzle/src/tags/tag_manager.rs:316-335 | the accepted consequents of an antecedent are exactly those of rows with an allowed status whose two tags are both known |
| TagMaps.ConsequentsAccepted | fuzzle/src/tags/tag_manager.rs:316-335 | the generic append loop, given the implication rule, contributes exactly the accepted consequents |
| TagMaps.AppendImplicationRows | fuzzle/src/tags/tag_manager.rs:316-335 | the implication lists grow by the accepted consequents in row order, and an antecedent appears exactly when it was there or gained a consequent |
| TagMaps.Invert | fuzzle/src/tags/tag_manager.rs:343-348 | inverting one list adds the antecedent under each of its consequents and changes nothing else |
| TagMaps.InvertAll | fuzzle/src/tags/tag_manager.rs:342-349 | inverting the visited antecedents lists under each tag exactly the visited antecedents that imply it |
| TagMaps.ComputeInverse | fuzzle/src/tags/tag_manager.rs:339-357 | the inverse lists, sorted without duplicates, hold under each tag exactly the antecedents implying it, and a tag has an inverse list exactly when something implies it |
| TagMaps.InverseOrderIrrelevant | fuzzle/src/tags/tag_manager.rs:339-357 | the inverse does not depend on the order the hash map is visited in |
| TagMaps.InverseFromEmpty | fuzzle/src/tags/tag_manager.rs:339-357 | starting empty, `a` is listed under `c` exactly when `a` implies `c` |
| TagMaps.GetImplications | fuzzle/src/tags/tag_manager.rs:450-455 | a known tag or a tag with implications gets its list, empty when it has none; an unknown tag gets nothing |
| TagMaps.GetImplicationsIncludingSelf | fuzzle/src/tags/tag_manager.rs:458-468 | the same answer with the tag itself appended |
| TagMaps.ResolveExact | fuzzle/src/tags/tag_manager.rs:433-441 | a query resolves exactly when it is a tag or an alias; a tag resolves to itself before an alias to its target |
| TagMaps.ResolvesToKnown | fuzzle/src/tags/tag_manager.rs:433-441 | while every alias points to a known tag, exact resolution names a known tag |
| TagManager.New | fuzzle/src/tags/tag_manager.rs:35-49 | a new manager has empty maps, match distance 0.5, only `active` relations allowed and exactly the three sticker tags banned |
| TagManager.CategoryOf | fuzzle/src/tags/tag_manager.rs:122-124 | a CSV category number names a category exactly when it is 0, 1, 3, 4, 5, 7, 8 or 99, and then that category's number |
| TagManager.AdmitSkips | fuzzle/src/tags/tag_manager.rs:119-143 | a tag row is inserted exactly when none of the skip conditions holds (too few posts, no category, an ignored meta or artist tag, a character below its own minimum, a banned name), with the category its number names |
| TagManager.AddDefaultTags | fuzzle/src/tags/tag_manager.rs:67-105 | every default tag is present afterwards with the category of the last table entry naming it, tags the table does not name keep their category, every tag is old or a default, and the other maps are unchanged |
| TagManager.AddDefaultTagsIdempotent | fuzzle/src/tags/tag_manager.rs:67-105 | adding the default tags a second time changes nothing |
| TagManager.AddTagsFromCsv | fuzzle/src/tags/tag_manager.rs:109-154 | every row that is not skipped is present; every changed tag comes from such a row with its category; a banned name is never added; no tag is removed; the other maps are unchanged |
| TagManager.AddDefaultAliases | fuzzle/src/tags/tag_manager.rs:158-235 | every default alias is present and points where the last table entry naming it says, aliases the table does not name are unchanged, every alias is old or a default, and tags and implications are unchanged |
| TagManager.AddDefaultAliasesIdempotent | fuzzle/src/tags/tag_manager.rs:158-235 | adding the default aliases a second time changes nothing |
| TagManager.AddAliasesFromCsv | fuzzle/src/tags/tag_manager.rs:245-260 | every allowed row with a known target is inserted, every new alias comes from such a row and names a known tag, and aliases that all named known tags still do |
| TagManager.AddDefaultImplications | fuzzle/src/tags/tag_manager.rs:262-286 | exactly the four fixed consequents are appended to their antecedents, and no other list changes |
| TagManager.ComputeTransitiveImplications | fuzzle/src/tags/tag_manager.rs:290-312 | the closure keeps the keys, keeps each original list in front, adds nothing twice, is transitive, and lists under each tag exactly the tags reachable from it |
| TagManager.AddImplicationsFromCsv | fuzzle/src/tags/tag_manager.rs:316-335 | each list grows by its accepted consequents in CSV order, and every added pair joins two known tags |
| TagManager.ComputeInverseImplications | fuzzle/src/tags/tag_manager.rs:339-357 | the inverse lists are sorted without duplicates, and from an empty inverse `a` is listed under `c` exactly when `a` implies `c` |
| TagManager.ClosestMatchingTag | fuzzle/src/tags/tag_manager.rs:492-512 | the lowercased query is returned when it is a tag, its alias's target when it is an alias, and otherwise the fuzzy matcher's answer for it |
| TagManager.ClosestMatchingTags | fuzzle/src/tags/tag_manager.rs:481-486 | one `(query, match)` pair per query, in order |
| TagManager.MatchesAreKnown | fuzzle/src/tags/tag_manager.rs:492-512 | with aliases that name known tags and a fuzzy matcher that proposes known tags, every match is a known tag |
| LegacyTagManager.New | src/tags/tag_manager.rs:25-34 | a new older manager has empty maps, match distance 0.5 and only `active` relations allowed |
| LegacyTagManager.Allowed | src/tags/tag_manager.rs:173-177 | a status is allowed exactly when it is in the allowed list |
| LegacyTagManager.TryFrom | src/tags/tag_manager.rs:409-423 | the older conversion accepts exactly 0, 1, 3, 4, 5, 7 and 8, never yields the rating, and otherwise fails naming the value |
| LegacyTagManager.TryFromAgrees | src/tags/tag_manager.rs:409-423 | the two trees read every category number alike except 99, which only the current tree reads, as the rating |
| LegacyTagManager.Admit | src/tags/tag_manager.rs:87-100 | a row is admitted exactly when it has enough posts, a valid category and is not a meta tag while those are ignored |
| LegacyTagManager.AddDefaultTags | src/tags/tag_manager.rs:49-77 | every default tag is present with the category of the last table entry naming it, tags the table does not name keep their category, every tag is old or a default, and the other maps are unchanged |
| LegacyTagManager.AddDefaultTagsIdempotent | src/tags/tag_manager.rs:49-77 | adding the default tags a second time changes nothing |
| LegacyTagManager.AddTagsFromCsv | src/tags/tag_manager.rs:80-106 | every admitted row is present and every changed tag comes from one; a rating or an ignored meta tag can never be imported |
| LegacyTagManager.AddDefaultAliases | src/tags/tag_manager.rs:109-171 | every default alias is present and points where the last table entry naming it says, aliases the table does not name are unchanged, every alias is old or a default, and tags and implications are unchanged |
| LegacyTagManager.AddDefaultAliasesIdempotent | src/tags/tag_manager.rs:109-171 | adding the default aliases a second time changes nothing |
| LegacyTagManager.AddAliasesFromCsv | src/tags/tag_manager.rs:180-193 | every allowed row with a known target is inserted, and every new alias comes from such a row and names a known tag |
| LegacyTagManager.AddDefaultImplications | src/tags/tag_manager.rs:196-215 | exactly the three fixed consequents are appended, and no other list changes |
| LegacyTagManager.AddImplicationsFromCsv | src/tags/tag_manager.rs:218-237 | each list grows by its accepted consequents in CSV order, and every added pair joins two known tags |
| LegacyTagManager.ComputeInverseImplications | src/tags/tag_manager.rs:240-258 | the inverse lists are sorted without duplicates and gain exactly the antecedents implying each tag |
| LegacyTagManager.ClosestMatchingTag | src/tags/tag_manager.rs:373-393 | the lowercased query when it is a tag, its alias's target when it is an alias, otherwise the fuzzy matcher's answer |
| LegacyTagManager.ClosestMatchingTags | src/tags/tag_manager.rs:363-368 | the matches of the queries that have one; a query without a match is dropped, so the list is as long as the queries exactly when all of them match |
| E621Tags.AddTagsFromCsv | fuzzle/src/tags/e621_tags.rs:68-115 | every row that passes the filter is present; every changed tag comes from such a row with its category; a banned name is never added; aliases and implications are unchanged |
| E621Tags.AddAliasesFromCsv | fuzzle/src/tags/e621_tags.rs:117-135 | every allowed row with a known target is inserted, every new alias comes from such a row and names a known tag, and aliases that all named known tags still do |
| E621Tags.AddImplicationsFromCsv | fuzzle/src/tags/e621_tags.rs:137-160 | each list grows by its accepted consequents in CSV order, and every added pair joins two known tags |
| E621Tags.Load | fuzzle/src/tags/e621_tags.rs:39-66 | the loaded maps hold no banned tag, no meta or artist tag, only tags with a row of at least 400 posts, aliases that all name known tags, and implications between known tags only |
| ImplicationClosure.AddMissing | fuzzle/src/tags/tag_manager.rs:300-305 | appending the tags not yet present keeps the list in front, ends with exactly the union of both, and adds nothing twice |
| ImplicationClosure.Extend | fuzzle/src/tags/tag_manager.rs:297-306 | one tag's pass adds, without repeats, exactly the tags that the previous round's lists give for its implied tags |
| ImplicationClosure.Round | fuzzle/src/tags/tag_manager.rs:295-307 | one round of the `while has_changed` loop keeps the keys, keeps every list in front, adds nothing twice, and adds to a tag's list exactly the implications of its implications |
| ImplicationClosure.ReachesTrans | fuzzle/src/tags/tag_manager.rs:290-312 | reachability through implication lists is transitive |
| ImplicationClosure.RoundReaches | fuzzle/src/tags/tag_manager.rs:295-307 | every tag a round adds is reachable from the tag in the original lists |
| ImplicationClosure.RoundPathReaches | fuzzle/src/tags/tag_manager.rs:295-307 | a path through the lists after a round is a path of reachability before it |
| ImplicationClosure.RoundGrows | fuzzle/src/tags/tag_manager.rs:293-308 | a round that changes the map adds a (tag, implied tag) pair and stays within the finite set of pairs the keys and implied tags can form, so the loop ends |
| ImplicationClosure.Shrinks | fuzzle/src/tags/tag_manager.rs:293-308 | the loop's measure, pairs still missing from that finite set, drops on every round that changes the map |
| ImplicationClosure.Closure | fuzzle/src/tags/tag_manager.rs:290-312 | the loop ends at a map that a further round leaves unchanged, with the same keys, the original lists in front, nothing added twice, and only reachable tags added |
| ImplicationClosure.FixpointTransitive | fuzzle/src/tags/tag_manager.rs:293-308 | a map a round leaves unchanged is transitive: whatever an implied tag implies is implied too |
| ImplicationClosure.ClosureExact | fuzzle/src/tags/tag_manager.rs:290-312 | after the loop a tag's list holds exactly the tags reachable from it |
| ImplicationClosure.PathInClosed | fuzzle/src/tags/tag_manager.rs:290-312 | in a transitive map containing the original lists, the end of every original path is listed under its start |
| TagUtil.CharacterCount | src/tags/util.rs:29-38 | a tag names a character count exactly when it is one of the five count tags, and the count prints back as that tag |
| TagUtil.RatingOf | src/tags/util.rs:40-47 | a tag names a rating exactly when it is one of the three rating tags, and the rating prints back as that tag |
| TagUtil.CountRoundTrip | src/tags/util.rs:29-66 | every count is recognised from the tag it prints as |
| TagUtil.RatingRoundTrip | src/tags/util.rs:40-76 | every rating is recognised from the tag it prints as |
| TagUtil.CountTagsListed | src/tags/util.rs:13-51 | the list of count tags names every count in the derived order, from zero to multiple, and holds no rating tag |
| TagUtil.CountNotRating | src/tags/util.rs:29-47 | no tag is both a count tag and a rating tag |
| TagSuggestion.TagsOf | fuzzle/src/tags/tag_suggestions/tag_suggestion.rs:8-11 | the tags of a suggestion list, position for position |
| TagSuggestion.ScoreOfAppend | fuzzle/src/tags/tag_suggestions/tag_suggestion.rs:21-34 | a tag's total score over two concatenated lists is the sum of its totals in each |
| TagSuggestion.RankedTransitive | fuzzle/src/tags/tag_suggestions/tag_suggestion.rs:25-32 | the output order, higher score first and equal scores by ascending tag, is transitive |
| TagSuggestion.RankedTotal | fuzzle/src/tags/tag_suggestions/tag_suggestion.rs:25-32 | any two distinct suggestions are ordered one way or the other |
| TagSuggestion.InsertRanked | fuzzle/src/tags/tag_suggestions/tag_suggestion.rs:32 | inserting into a ranked list keeps it ranked and adds exactly the new element |
| TagSuggestion.RankAll | fuzzle/src/tags/tag_suggestions/tag_suggestion.rs:32 | ranking distinct suggestions gives a ranked permutation of them |
| TagSuggestion.Totals | fuzzle/src/tags/tag_suggestions/tag_suggestion.rs:26-31 | each group's suggestion carries its tag and the sum of that tag's scores |
| TagSuggestion.Merge | fuzzle/src/tags/tag_suggestions/tag_suggestion.rs:21-34 | the merged list holds each tag of either input exactly once, with the sum of its scores in both, in non-increasing score order with equal scores in ascending tag order, and is no longer than the two inputs together; the older tree's `merge` (src/tags/tag_suggestions/tag_suggestion.rs:15-27, `group_by` in place of `chunk_by`) is the same code and is modelled by this member |
| TagSuggestion.MergeSymmetric | fuzzle/src/tags/tag_suggestions/tag_suggestion.rs:21-34 | merging `a` with `b` gives the same list as merging `b` with `a`, in both trees (the older copy is src/tags/tag_suggestions/tag_suggestion.rs:15-27) |
| TagSuggestion.MergeGroupsDuplicates | fuzzle/src/tags/tag_suggestions/tag_suggestion.rs:21-34 | two suggestions for one tag merge into one with the summed score |
| Rules.StringRuleFor | fuzzle/src/tags/tag_suggestions/rules.rs:59-78 | a call becomes a string rule exactly when its function is one of the five known ones, keeping its argument and the rule's tags |
| Rules.AddEmojis | fuzzle/src/tags/tag_suggestions/rules.rs:53-58 | each listed emoji's tag list is extended by the rule's tags once per time it is listed, and no other emoji's list changes |
| Rules.AddLhs | fuzzle/src/tags/tag_suggestions/rules.rs:51-80 | one left-hand item fails exactly when it calls an unknown function, naming it; otherwise it adds its string rule or its emoji tags and nothing else |
| Rules.AddLhsList | fuzzle/src/tags/tag_suggestions/rules.rs:51-80 | a left-hand side fails exactly when one of its calls names an unknown function; otherwise it appends its string rules in order and its tags to each emoji it lists |
| Rules.BuildFrom | fuzzle/src/tags/tag_suggestions/rules.rs:43-83 | building from rules fails exactly when some call names an unknown function; otherwise the string rules are all of the file's calls in order and each emoji collects the tags of every rule that lists it |
| Rules.Build | fuzzle/src/tags/tag_suggestions/rules.rs:36-85 | the same from empty tables |
| Rules.ApplyStringRules | fuzzle/src/tags/tag_suggestions/rules.rs:88-123 | a tag is returned exactly when a string rule carrying it matches: `any_str` in the lowercased name and title, `title`/`name` anywhere and `title_suffix`/`name_suffix` at the end of the title or name |
| Rules.EmojiRuleTags | fuzzle/src/tags/tag_suggestions/rules.rs:133-141 | a tag is collected exactly when one of the sticker's emojis has a rule carrying it |
| Rules.SuggestionScoreGrows | fuzzle/src/tags/tag_suggestions/rules.rs:162-170 | the score of a tag hit once is 0.5, rises with every further hit up to five, and never exceeds 0.9 |
| Rules.SuggestTags | fuzzle/src/tags/tag_suggestions/rules.rs:126-154 | each hit tag is suggested once, in ascending tag order, with the score for the number of times it was hit; no other tag is suggested |
| Rules.NameSuffixSample | fuzzle/src/tags/tag_suggestions/rules.rs:292-293 | a set named `FoxByNaL`, with a title that triggers no other rule, is suggested only `nowandlater` |
| Rules.FriendsSample | fuzzle/src/tags/tag_suggestions/rules.rs:295-296 | the set "Fox and Friends" named `foxfriends` is suggested only `duo`, once for the `friends` in its name and title and once for the ` and ` in its title |
| Rules.NsfwSample | fuzzle/src/tags/tag_suggestions/rules.rs:298-299 | the set titled and named `FoxNsfw` is suggested only `questionable` and `explicit` |
| RuleFile.CallItem | fuzzle/src/tags/tag_suggestions/rules.rs:185-191 | a call item is a function name of letters, digits and `_` with a quoted argument free of `"`, and consumes input |
| RuleFile.RhsItem | fuzzle/src/tags/tag_suggestions/rules.rs:204-210 | a right-hand item is a well-formed tag |
| RuleFile.RuleItem | fuzzle/src/tags/tag_suggestions/rules.rs:212-220 | a rule read has at least one left-hand item and at least one tag, each well-formed |
| RuleFile.ParseRules | fuzzle/src/tags/tag_suggestions/rules.rs:222-224 | a file read holds at least one rule, all well-formed; anything else is a syntax error |
| RuleFile.Parse | fuzzle/src/tags/tag_suggestions/rules.rs:36-85 | an unknown-function error names a function that is not one of the five |
| RuleFile.LhsListReads | fuzzle/src/tags/tag_suggestions/rules.rs:193-202 | printed left-hand items separated by blanks are read back up to the `=>` |
| RuleFile.TagListReads | fuzzle/src/tags/tag_suggestions/rules.rs:204-210 | printed tags separated by blanks are read back up to the `;` |
| RuleFile.RuleReads | fuzzle/src/tags/tag_suggestions/rules.rs:212-220 | a printed rule on its own line is read back to the same rule |
| RuleFile.ParseRulesShown | fuzzle/src/tags/tag_suggestions/rules.rs:222-224 | a printed file of well-formed rules is read back to the same rules |
| RuleFile.ParseShown | fuzzle/src/tags/tag_suggestions/rules.rs:36-85 | parsing a printed file builds the same tables as building from its rules directly |
| RuleFile.BlankRejected | fuzzle/src/tags/tag_suggestions/rules.rs:222-224 | a file of nothing but white space is a syntax error, since at least one rule is required |
| LegacyRuleFile.Ws | src/tags/tag_suggestions/rules.rs:216-229 | skipping padding leaves a suffix that does not start with white space |
| LegacyRuleFile.StringItem | src/tags/tag_suggestions/rules.rs:190-194 | a quoted string is non-empty, free of `"`, and consumes input |
| LegacyRuleFile.CallItem | src/tags/tag_suggestions/rules.rs:201-214 | a call is an identifier free of blank, `=`, `;` and `(`, followed by a parenthesised quoted string, and consumes input |
| LegacyRuleFile.LhsItem | src/tags/tag_suggestions/rules.rs:196-219 | a left-hand item is a call or a token, each well-formed |
| LegacyRuleFile.RhsItem | src/tags/tag_suggestions/rules.rs:207-221 | a right-hand item is a token free of blank, `=` and `;` |
| LegacyRuleFile.RuleItem | src/tags/tag_suggestions/rules.rs:223-227 | a rule read has at least one left-hand item and one tag, each well-formed |
| LegacyRuleFile.ParseRaw | src/tags/tag_suggestions/rules.rs:189-230 | a file read holds at least one rule, all well-formed |
| LegacyRuleFile.Cook | src/tags/tag_suggestions/rules.rs:55-86 | a call item stays the same call, and only a token becomes an emoji item |
| LegacyRuleFile.CookRule | src/tags/tag_suggestions/rules.rs:47-86 | a rule keeps its tags, and each left-hand item is converted in place |
| LegacyRuleFile.ErrorExcerptAsWritten | src/tags/tag_suggestions/rules.rs:36-43 | as written, the error excerpt exists only when the end of the error lies at or beyond the larger of its start and 50, and within the input |
| LegacyRuleFile.ShortErrorPanics | src/tags/tag_suggestions/rules.rs:36-43 | an error that ends before position 50 makes the excerpt's range start after its end, which panics instead of reporting the error |
| LegacyRuleFile.ErrorExcerpt | src/tags/tag_suggestions/rules.rs:36-43 | the corrected excerpt ends with the erroneous text and shows at most 50 characters before it: exactly 50 when there are that many, otherwise everything from the start of the input |
| LegacyRuleFile.Parse | src/tags/tag_suggestions/rules.rs:35-92 | an unknown-function error names a function that is not one of the five, and a syntax error carries an excerpt of at most 51 characters; the excerpt is taken around the character where this grammar stops, which approximates the span chumsky reports |
| LegacyRuleFile.RuleReads | src/tags/tag_suggestions/rules.rs:223-229 | a printed rule followed by a line break is read back to the same rule |
| LegacyRuleFile.ParseRawShown | src/tags/tag_suggestions/rules.rs:189-230 | a printed file of well-formed rules is read back to the same rules |
| LegacyRuleFile.ParseShown | src/tags/tag_suggestions/rules.rs:35-92 | parsing a printed file builds the same tables as building from its converted rules |
| LegacyRuleFile.BlankRejected | src/tags/tag_suggestions/rules.rs:229 | a file of nothing but white space is refused |
| Implied.Flattened | fuzzle/src/tags/tag_suggestions/implied.rs:16-24 | the flattened lookups hold exactly the inverse implications of the known tags, a tag without any contributing nothing |
| Implied.ScoresGrow | fuzzle/src/tags/tag_suggestions/implied.rs:40-48 | both score tables start at 0.1 for a single hit and rise strictly with every further hit up to five, never falling after |
| Implied.SuggestByReverseImplication | fuzzle/src/tags/tag_suggestions/implied.rs:12-38 | exactly the tags reached by some known tag's inverse implications are suggested, each once, scored by how many known tags reached it, ranked by non-increasing score with ties in ascending tag order |
| Implied.Suggest | fuzzle/src/tags/tag_suggestions/implied.rs:12-48 | every suggestion scores between 0.1 and 0.6: 0.1 exactly for a tag one known tag implies, 0.6 exactly for one five or more imply |
| Implied.LegacySuggest | src/tags/tag_suggestions/implied.rs:9-44 | in the older tree every suggestion scores between 0.1 and 0.99: 0.1 exactly for a tag one known tag implies, 0.99 exactly for one five or more imply |
| Implied.UnknownContributesNothing | fuzzle/src/tags/tag_suggestions/implied.rs:19-21 | a known tag that has no inverse implications changes nothing in the suggestions |
| Implied.MoreHitsRankHigher | fuzzle/src/tags/tag_suggestions/implied.rs:28-37 | of two suggestions, the one ranked first was reached at least as often as the later one, unless it was reached five or more times |
| CombineSuggestions.SourceTags | fuzzle/src/tags/tag_suggestions/suggest_tags.rs:226-232 | a source contributes at most 30 distinct tags, all its own, and at least one when it has any |
| CombineSuggestions.Sources | fuzzle/src/tags/tag_suggestions/suggest_tags.rs:223-236 | the sources that remain are the non-empty truncated ones, each of at most 30 distinct tags |
| CombineSuggestions.VotesCountSources | fuzzle/src/tags/tag_suggestions/suggest_tags.rs:238-247 | the votes of a tag are the number of sources that name it |
| CombineSuggestions.Candidates | fuzzle/src/tags/tag_suggestions/suggest_tags.rs:238-305 | the candidates are every tag some source names and every default tag, once each, ordered by non-increasing votes |
| CombineSuggestions.WithoutTags | fuzzle/src/tags/tag_suggestions/suggest_tags.rs:260 | a candidate is kept exactly when the sticker does not already carry it |
| CombineSuggestions.Cap | fuzzle/src/tags/tag_suggestions/suggest_tags.rs:251-273 | every category may keep at least two suggestions |
| CombineSuggestions.Capped | fuzzle/src/tags/tag_suggestions/suggest_tags.rs:267-275 | only categorised candidates are kept, no category exceeds its cap (15 general, 5 species, 5 meta, 2 otherwise), and a categorised candidate is dropped only when its category is full |
| CombineSuggestions.CappedKeepsVotes | fuzzle/src/tags/tag_suggestions/suggest_tags.rs:267-275 | capping keeps the vote order |
| CombineSuggestions.Combine | fuzzle/src/tags/tag_suggestions/suggest_tags.rs:218-280 | at most 20 distinct tags, none on the sticker, each categorised and from a source or the defaults, ordered by votes, within every cap; with fewer than 20, a candidate left out either is on the sticker, has no category, or belongs to a full category |
| HiddenCommands.ParseTagList | fuzzle/src/message/command/hidden.rs:45-51 | the pieces are free of `,`, there is at least one, and joining them with `,` gives back the argument |
| HiddenCommands.TagListKeepsEmpty | fuzzle/src/message/command/hidden.rs:49 | an empty piece between two commas is kept, not dropped |
| HiddenCommands.TagListRoundTrip | fuzzle/src/message/command/hidden.rs:45-51 | a non-empty list of comma-free tags, joined with `,`, splits back into the same list |
| HiddenCommands.SelfAndImplied | fuzzle/src/tags/tag_manager.rs:458-468 | a tag that is known, as a tag or by its implications, yields itself and all it implies; an unknown tag yields nothing |
| HiddenCommands.Expand | fuzzle/src/message/command/hidden.rs:748-757 | the expansion holds exactly the known tags of the list and everything they imply |
| HiddenCommands.GetTagImplicationsIncludingSelf | fuzzle/src/message/command/hidden.rs:708-726 | nothing is returned exactly when none of the tags is known; otherwise the sorted, duplicate-free expansion |
| HiddenCommands.ExpansionEmpty | fuzzle/src/message/command/hidden.rs:725 | the expansion is empty exactly when none of the tags is known |
| HiddenCommands.Excluding | fuzzle/src/message/command/hidden.rs:736 | a tag is kept exactly when it is not among the fixed ones |
| HiddenCommands.AddNewTagsToContinuousTag | fuzzle/src/message/command/hidden.rs:728-740 | the result is sorted without duplicates and holds exactly the current and added tags that are not fixed by the other section |
| HiddenCommands.AddNewTagsIdempotent | fuzzle/src/message/command/hidden.rs:728-740 | adding the same tags a second time changes nothing |
| HiddenCommands.ModifyContinuousTag | fuzzle/src/message/command/hidden.rs:742-782 | the state changes exactly when the user was not yet in continuous tag mode; a tag is removed when it was or is newly removed and not newly added, and added when it was or is newly added and is not removed; every newly added tag ends up added; the recommended stickers are kept |
| HiddenCommands.ModifyContinuousTagIdempotent | fuzzle/src/message/command/hidden.rs:742-782 | repeating the same change in continuous tag mode leaves the state unchanged and reports no state change |
| HiddenCommands.SuggestStickerContinuousTag | fuzzle/src/message/command/hidden.rs:958-979 | the tags are kept and the suggested sticker's file id is appended to the already recommended ones |
| HiddenCommands.SuggestKeepsState | fuzzle/src/message/command/hidden.rs:958-979 | a well-formed state stays well-formed, and every earlier and the new file id is remembered |
| HiddenCommands.BlacklistTag | fuzzle/src/message/command/hidden.rs:552-561 | the tag ends the blacklist, exactly once; the other entries keep their order; nothing else is added |
| HiddenCommands.BlacklistTagIdempotent | fuzzle/src/message/command/hidden.rs:552-561 | blacklisting the same tag twice gives the same list as once |
| HiddenCommands.SetTagId | fuzzle/src/message/command/hidden.rs:872-916 | the state changes exactly when the user was not in the tag creator; a main id replaces the tag id, an alias is added once, the linked user is set only when a username is known, and nothing else changes |
| HiddenCommands.SetAliasIdempotent | fuzzle/src/message/command/hidden.rs:892-897 | setting the same alias twice leaves the creator as after the first time |
| HiddenCommands.ErrorAt | fuzzle/src/message/command/hidden.rs:133-138 | a parse error's position plus the length of its rest is the input's length, and the rest is the input from that position |
| HiddenCommands.ReportSetArgs | fuzzle/src/message/command/hidden.rs:123-140 | a report is a reason and a set name; an error points at the unparsed rest of the input |
| HiddenCommands.ReportSetArgsReads | fuzzle/src/message/command/hidden.rs:123-140 | a 64-bit reason number, white space and a set name are read back as the reason and the name |
| HiddenCommands.ReportSetUnknownReason | fuzzle/src/message/command/hidden.rs:126-129 | a number that names no reason is an error at position 0 |
| HiddenCommands.NewStickerSetArgs | fuzzle/src/message/command/hidden.rs:142-154 | a new set is a sticker id and a non-empty title taken from the end of the input; an error points at the unparsed rest |
| HiddenCommands.NewStickerSetArgsReads | fuzzle/src/message/command/hidden.rs:142-154 | a sticker id, white space and a title not starting with white space are read back as the id and the whole title |
| HiddenCommands.NewStickerSetMissingTitle | fuzzle/src/message/command/hidden.rs:144 | a sticker id followed only by white space is an error at the end of the input |
| CallbackHandler.RemoveAlias | fuzzle/src/callback/callback_handler.rs:324-337 | outside the tag creator the callback is refused as the wrong mode; inside it every copy of the alias is removed, every other alias keeps its number of copies, and nothing else in the form changes |
| CallbackHandler.RemoveAddedAlias | fuzzle/src/callback/callback_handler.rs:324-337 | removing an alias that was just added restores the form as it was |
| CallbackHandler.ToggleExampleSticker | fuzzle/src/callback/callback_handler.rs:356-373 | outside the tag creator the callback is refused; inside it the sticker becomes an example exactly when it was not one: every copy is dropped, or one copy appended; the other examples keep their number of copies, and nothing else changes |
| CallbackHandler.ToggleExampleTwice | fuzzle/src/callback/callback_handler.rs:369-373 | toggling a new example sticker twice restores the form |
| CallbackHandler.CreateTag | fuzzle/src/callback/callback_handler.rs:1446-1492 | a tag can be requested exactly when it has at least two examples, its id is not also an alias, and it is an artist with a linked channel or a character with a linked user; too few examples gives the examples message; another category is an internal error |
| CallbackHandler.AliasAsMainTagRejected | fuzzle/src/callback/callback_handler.rs:1454-1459 | choosing one of the aliases as the main tag makes the request fail |
| CallbackHandler.ToggleRecommendSticker | fuzzle/src/callback/callback_handler.rs:436-466 | outside the recommender the callback is refused; a sticker toggled into one list gains one copy there and loses every copy in the other, a sticker toggled out of a list loses every copy there and the other list is untouched, other stickers keep their counts, and disjoint lists stay disjoint |
| CallbackHandler.ToggleRecommendTwice | fuzzle/src/callback/callback_handler.rs:452-466 | toggling a new sticker twice with the same button restores both lists |
| CallbackHandler.Implying | fuzzle/src/callback/callback_handler.rs:1271-1275 | exactly the current tags whose implications contain the removed tag |
| CallbackHandler.TagsThatShouldBeRemoved | fuzzle/src/callback/callback_handler.rs:1266-1278 | the removed tag, last, and every current tag that implies it |
| CallbackHandler.RemoveContinuousTag | fuzzle/src/callback/callback_handler.rs:1281-1321 | outside continuous tag mode the callback is refused; otherwise the tag and every tag implying it leave both lists, all other tags stay, the recommended stickers are kept and a well-formed state stays well-formed |
| CallbackHandler.RemoveContinuousTagIdempotent | fuzzle/src/callback/callback_handler.rs:1281-1321 | removing the same tag again changes nothing |
| CallbackHandler.RemoveBlacklistTag | fuzzle/src/callback/callback_handler.rs:1346-1358 | every copy of the tag leaves the blacklist and every other entry keeps its number of copies |
| CallbackHandler.UnblacklistAfterBlacklist | fuzzle/src/callback/callback_handler.rs:1346-1358 | removing a tag right after blacklisting it gives the same list as removing it from the original |
| CallbackHandler.UnblacklistAbsent | fuzzle/src/callback/callback_handler.rs:1346-1358 | removing a tag that is not blacklisted changes nothing |
| CallbackHandler.LastDot | fuzzle/src/callback/callback_handler.rs:1260 | the position of the last `.`, or none when there is none |
| CallbackHandler.CreateStickerName | fuzzle/src/callback/callback_handler.rs:1259-1264 | a path without `.` becomes `sticker.bin`; otherwise `sticker.` followed by everything after the last `.` |
| CallbackHandler.StickerNameKeepsExtension | fuzzle/src/callback/callback_handler.rs:1259-1264 | a file name keeps its final extension, whatever dots its stem holds |
| InlineQueryHandler.Missing | fuzzle/src/inline/inline_query_handler.rs:105-114 | exactly the typed tags that matched nothing |
| InlineQueryHandler.Resolved | fuzzle/src/inline/inline_query_handler.rs:116-119 | when every typed tag matched, the matches in input order |
| InlineQueryHandler.TreatMissingTagsAsErrors | fuzzle/src/inline/inline_query_handler.rs:102-123 | success exactly when every typed tag matched, giving the matches in order; otherwise a not-found error naming the tags that matched nothing, in input order |
| InlineQueryHandler.MissingEmpty | fuzzle/src/inline/inline_query_handler.rs:115 | nothing is missing exactly when every typed tag matched |
| InlineQueryHandler.MissingConcat | fuzzle/src/inline/inline_query_handler.rs:105-114 | the tags missing from two lists are those missing from each, in order |
| InlineQueryHandler.LastInputAndOtherMatches | fuzzle/src/inline/inline_query_handler.rs:125-145 | no input gives the suggestions for nothing; otherwise it succeeds exactly when every earlier input, joined with `_`, matches a tag, and gives those matches in order and the suggestions for the last input |
| InlineQueryHandler.AllTagsListReadsBack | fuzzle/src/inline/inline_query_handler.rs:237-241 | the comma-joined tag list of a suggested command splits back into the resolved tags followed by the suggestion |
| InlineQueryHandler.Page | fuzzle/src/inline/inline_query_handler.rs:234-235 | the page is the entries from the skip on, at most a page size of them, in order |
| InlineQueryHandler.StickerSuggestions | fuzzle/src/inline/inline_query_handler.rs:229-235 | the requested page of the suggested tags the sticker does not carry yet, in suggestion order: at most a page, each suggested and not already on the sticker |
| InlineQueryHandler.RequireSomeResults | fuzzle/src/inline/inline_query_handler.rs:196-206 | an error naming the list exactly when the first page is empty |
| InlineQueryHandler.LaterEmptyPageEndsQuietly | fuzzle/src/inline/inline_query_handler.rs:246-250 | an empty later page is no error and offers no further page |
| InlineQueryHandler.Partition | fuzzle/src/inline/inline_query_handler.rs:302-303 | the tags split, without loss, into those not starting with `-` and those that do |
| InlineQueryHandler.StripDash | fuzzle/src/inline/inline_query_handler.rs:310-313 | each negated tag loses exactly its leading `-` |
| InlineQueryHandler.QueryStickers | fuzzle/src/inline/inline_query_handler.rs:257-350 | an empty query shows recently used stickers, falling back to a blacklist-only query; a lone emoji queries by that emoji; otherwise the positive tags are resolved in order, the negated ones, with their dash removed and resolved in order, follow the user's blacklist, each emoji is passed as its text without variation selector; the search succeeds exactly when every plain tag and every dash-stripped negated tag resolves, and otherwise fails with the plain tags' misses, in order, when there are any, else with the negated tags' misses |
| InlineQueryHandler.TagSearch | fuzzle/src/inline/inline_query_handler.rs:309-346 | the plain tags are resolved one for one, the dash-stripped negated tags are resolved one for one after the user's blacklist, and the search succeeds exactly when every plain and every dash-stripped negated tag resolves; a failure names the unresolved plain tags, in order, when there are any (they are checked first), else the unresolved negated ones |
| InlineQueryHandler.NegatedTagIsBlacklisted | fuzzle/src/inline/inline_query_handler.rs:302-326 | a query of one negated known tag searches with no tags and that tag added to the end of the user's blacklist |
| InlineQueryHandler.MatchingSets | fuzzle/src/inline/inline_query_handler.rs:1148-1156 | exactly the sets whose lowercased id or title contains the term |
| InlineQueryHandler.FilterOwnedSets | fuzzle/src/inline/inline_query_handler.rs:1146-1157 | the first 49 sets, in their order, whose id or title contains the lowercased title filter; when no more than 49 match, all of them |
| InlineQueryHandler.NoTitleShowsFirstSets | fuzzle/src/inline/inline_query_handler.rs:1146-1157 | without a title filter the first 49 sets are shown |
| MessageHandler.TrimPrefixRepeats | fuzzle/src/message/message_handler.rs:62 | the result is a suffix of the input that no longer starts with the prefix |
| MessageHandler.TrimPrefixOnce | fuzzle/src/message/message_handler.rs:62 | one copy of the prefix before a rest that does not start with it is removed exactly |
| MessageHandler.SetNameFromUrl | fuzzle/src/message/message_handler.rs:57-69 | a link names a set exactly when its host is `t.me` and its path starts with `/addstickers/`; the name has no leading `/addstickers/` and no trailing `/` |
| MessageHandler.SetLinkRoundTrip | fuzzle/src/message/message_handler.rs:57-69 | the link to a set, with or without a trailing slash, gives back the set's name |
| MessageHandler.OtherLinksIgnored | fuzzle/src/message/message_handler.rs:67 | a link to another host or path names no set |
| MessageHandler.SetNamesConcat | fuzzle/src/message/message_handler.rs:74-76 | the set names of two lists of links are those of each, in order |
| MessageHandler.SetNamesFromLinks | fuzzle/src/message/message_handler.rs:71-77 | every name found comes from one of the links, and every link naming a set contributes its name |
| MessageHandler.UrlsConcat | fuzzle/src/message/message_handler.rs:44-55 | the links of two lists of entities are those of each, in order |
| MessageHandler.CaptionLinksFirst | fuzzle/src/message/message_handler.rs:36-42 | the set names from the caption come before those from the text |
| MessageHandler.DispatchIsFirstDecisive | fuzzle/src/message/message_handler.rs:114-151 | the command run, or the error reported, is that of the first command set whose parse is not an unknown-command error, the admin set counting only for admins |
| MessageHandler.HandleTextMessage | fuzzle/src/message/message_handler.rs:113-151 | the normalised text runs the command of the first command set that does not call it unknown, the admin set only for an admin; otherwise the last set's parse error is reported |
| MessageHandler.AdminOnlyAsLastResort | fuzzle/src/message/message_handler.rs:139-144 | an admin command runs exactly when the user is an admin, neither the regular nor the hidden commands know the text, and the admin commands parse it |
| MessageHandler.NonAdminIgnoresAdmin | fuzzle/src/message/message_handler.rs:139-150 | for a user who is not an admin the admin parse has no influence |
| MessageHandler.RouteMessage | fuzzle/src/message/message_handler.rs:185-201 | set links take precedence; otherwise text goes to the command handler, a sticker to the sticker handler, and anything else is an unhandled message type |
| MessageHandler.SetLinksBeforeText | fuzzle/src/message/message_handler.rs:189-192 | a message whose caption links a set is handled as set links, whatever text it has |
| MessageHandler.UrlsIncludes | fuzzle/src/message/message_handler.rs:44-55 | the link of every entity that has one is collected |
| MessageHandler.HandleStickerSetsReply | fuzzle/src/message/message_handler.rs:79-111 | a single known set shows its first sticker; otherwise every named set is queued for processing, in order |
| LegacyMessageHandler.SameDispatch | src/message/handler.rs:94-134 | the older nested matches run the same command, or report the same error, as the first decisive command set |
| LegacyMessageHandler.LegacyStickerReply | src/message/handler.rs:136-176 | a sticker in a set is tagged, keeping the continuous tag mode; a sticker outside any set gets the continuous-mode reply exactly when that mode is on |
| LegacyMessageHandler.LegacyRouteMessage | src/message/handler.rs:178-212 | the older handler routes set links, text and stickers as the current one does, and answers exactly the messages the current one reports as unhandled |
| LegacyMessageHandler.SetsAlwaysProcessed | src/message/handler.rs:73-92 | set links are always queued for processing, with no shortcut for a single known set |
| Keyboards.Flatten | fuzzle/src/message/keyboard.rs:99 | a tag is in the flattened layout exactly when it is in one of its rows |
| Keyboards.FlattenConcat | fuzzle/src/message/keyboard.rs:99 | flattening two layouts one after the other flattens each in turn |
| Keyboards.Chunks2 | fuzzle/src/message/keyboard.rs:103-105 | rows of one or two tags, half as many as the tags rounded up, that flatten back to the tags in order |
| Keyboards.FreshTags | fuzzle/src/message/keyboard.rs:93-101 | exactly the tags that are neither a count nor a rating and are not already laid out, in order |
| Keyboards.MinCount | fuzzle/src/message/keyboard.rs:28-32 | the smallest character count among the tags, none when no tag is a count |
| Keyboards.FirstRating | fuzzle/src/message/keyboard.rs:33 | the rating of the first tag that is one, none when no tag is |
| Keyboards.GenderRows | fuzzle/src/message/keyboard.rs:70-91 | no gender rows for zero characters, one for a single character, three for more, always led by male, female and ambiguous gender |
| Keyboards.HeadLayout | fuzzle/src/message/keyboard.rs:26-91 | without both a count and a rating the layout stops after a count row and a rating row, listing every choice when one is missing; with both it is the rating and count row followed by the gender rows |
| Keyboards.TaggingLayout | fuzzle/src/message/keyboard.rs:26-119 | the layout starts with the head rows, is only those when the head stops early, and continues with rows of one or two tags |
| Keyboards.PresentTagsShown | fuzzle/src/message/keyboard.rs:93-105 | every tag of the sticker that is not a count or rating gets a button |
| Keyboards.TagRowsFresh | fuzzle/src/message/keyboard.rs:93-119 | the present-tag rows repeat nothing from the head, and the suggestion rows repeat nothing from the head or the present tags |
| Keyboards.TagToButton | fuzzle/src/message/keyboard.rs:690-707 | a tag on the sticker shows a check mark and untags it; any other tag shows its name and tags it |
| Keyboards.TagButtonFlips | fuzzle/src/message/keyboard.rs:695-705 | the button untags and is marked exactly when the sticker carries the tag |
| Keyboards.LayoutToKeyboard | fuzzle/src/message/keyboard.rs:674-688 | each row of tags becomes a row of their buttons |
| Keyboards.MainMenu | fuzzle/src/message/keyboard.rs:637-658 | the first row opens the sticker's set page and its explore page |
| Keyboards.Footer | fuzzle/src/message/keyboard.rs:125-160 | an add-more-tags query button, a lock toggle when bulk tagging is locked or the sticker is a meta sticker, and an exit button in continuous tag mode |
| Keyboards.Tagging | fuzzle/src/message/keyboard.rs:19-163 | the main menu, then the layout as buttons, then the footer unless the head stopped early |
| Keyboards.EarlyKeyboardHasNoFooter | fuzzle/src/message/keyboard.rs:40-67 | a sticker without both a count and a rating gets just the main menu and the two choice rows, all tag buttons |
| Keyboards.ContinuousEndsWithExit | fuzzle/src/message/keyboard.rs:155-160 | in continuous tag mode the last row is the exit button |
| Keyboards.SetRow | fuzzle/src/message/keyboard.rs:491-495 | one set button when both stickers are in the same set, otherwise one for each |
| Keyboards.Merge | fuzzle/src/message/keyboard.rs:484-507 | the set row, then a merge and a don't-merge button for the two stickers |
| Keyboards.MergeDone | fuzzle/src/message/keyboard.rs:510-516 | only the set row remains |
| Keyboards.SetButtonsDistinct | fuzzle/src/message/keyboard.rs:484-516 | the set buttons link to different sets, and the finished keyboard keeps the same set row |
| Keyboards.ContinuousTagKeyboard | fuzzle/src/message/keyboard.rs:248-276 | two tag-selection rows, one removal row per added then removed tag, and the exit button when cancelling is offered |
| Keyboards.EveryListedTagRemovable | fuzzle/src/message/keyboard.rs:261-266 | every tag in either list has a row that removes it |
| LegacyKeyboards.AppendMissing | src/message/keyboard.rs:117-121 | the suggestions stay first, each common tag is added once unless already suggested, and nothing else is added |
| LegacyKeyboards.PadSuggestions | src/message/keyboard.rs:107-122 | with ten or more suggestions nothing is added; with fewer, every common tag appears |
| LegacyKeyboards.LegacyTaggingLayout | src/message/keyboard.rs:19-126 | the layout starts with the head rows, is only those when the head stops early, and continues with rows of one or two tags |
| LegacyKeyboards.CommonTagsShown | src/message/keyboard.rs:107-126 | with fewer than ten fresh suggestions every common tag gets a button |
| LegacyKeyboards.LegacyPresentTagsShown | src/message/keyboard.rs:83-95 | every tag of the sticker that is not a count or rating gets a button |
| LegacyKeyboards.LegacyTagToButton | src/message/keyboard.rs:284-301 | a tag on the sticker shows a check mark and untags it; any other tag tags it |
| LegacyKeyboards.SameButtonRule | src/message/keyboard.rs:289-299 | the older buttons carry the same text and operation as the current ones |
| LegacyKeyboards.MakeTagKeyboard | src/message/keyboard.rs:13-152 | the layout as buttons, then, unless the head stopped early, the add-more-tags button and an empty row |
| QueryBuilder.New | fuzzle/src/database/query_builder.rs:26-35 | a new query keeps the required and excluded tags and has no emoji, limit, offset or order |
| QueryBuilder.PlaceholdersMatchBinds | fuzzle/src/database/query_builder.rs:62-130 | any sequence of fragments renders with exactly one `?` per bound value |
| QueryBuilder.SqlListShape | fuzzle/src/database/query_builder.rs:133-146 | a non-empty list renders as `(?, …, ?)` with one mark per item and binds the items in order |
| QueryBuilder.Generate | fuzzle/src/database/query_builder.rs:62-130 | the query binds the required tags and their count, the excluded tags, the emoji, the seed of a random order, then the limit (10 by default) and the offset (0 by default), and has one `?` for each |
| QueryBuilder.HavingIffTags | fuzzle/src/database/query_builder.rs:84-86 | the `HAVING` clause appears exactly when some tag is required or excluded |
| QueryBuilder.EmojiFilterIffEmoji | fuzzle/src/database/query_builder.rs:108-112 | the emoji filter appears exactly when emoji are given |
| QueryBuilder.ShuffledIffRandom | fuzzle/src/database/query_builder.rs:117-122 | the seeded shuffle appears exactly when the order is random |
| QueryBuilder.NewestIffNotRandom | fuzzle/src/database/query_builder.rs:117-118 | newest-first ordering appears exactly when the order is absent or latest first |
| QueryBuilder.Example1Binds | fuzzle/src/database/query_builder.rs:153-158 | one required and one excluded tag, limit 100 and offset 200 bind the tag, 1, the excluded tag, 100 and 200 |
| QueryBuilder.Example4Binds | fuzzle/src/database/query_builder.rs:190-199 | two emoji and no tags with a random order bind the two emoji, the seed, the limit and the offset |
| LegacyQueryBuilder.AsI64 | src/database/query_builder.rs:61 | the unsigned limit is reinterpreted as a signed 64-bit value congruent to it |
| LegacyQueryBuilder.AsI64Small | src/database/query_builder.rs:61-65 | a value below 2^63 is kept as is |
| LegacyQueryBuilder.LegacyNew | src/database/query_builder.rs:13-20 | a new query keeps its tags and has no limit or offset |
| LegacyQueryBuilder.WithLimit | src/database/query_builder.rs:23-26 | only the limit changes |
| LegacyQueryBuilder.WithOffset | src/database/query_builder.rs:29-32 | only the offset changes |
| LegacyQueryBuilder.ConditionsShape | src/database/query_builder.rs:44-58 | the conditions are one inclusion per required tag, then one exclusion per excluded tag, in order |
| LegacyQueryBuilder.LegacyGenerate | src/database/query_builder.rs:36-69 | the query binds the required then the excluded tags, then the limit and the offset as signed values, with one `?` for each |
| LegacyQueryBuilder.LegacyHeadText | src/database/query_builder.rs:41-43 | the query opens with the sticker select and the file-hash subquery's `WHERE ` |
| LegacyQueryBuilder.EmptyWhereIffNoTags | src/database/query_builder.rs:43-60 | as written, the subquery's `WHERE` is directly followed by `)` exactly when no tag is required or excluded |
| LegacyQueryBuilder.EmptySearchText | src/database/query_builder.rs:41-66 | a query without tags is the head and the tail with nothing between them, an empty `WHERE` |
| LegacyQueryBuilder.FixedGenerate | src/database/query_builder.rs:36-69 | the corrected query never has an empty `WHERE`, is the original whenever there is a tag, and binds the same values |
| LegacyQueryBuilder.Example1Frags | src/database/query_builder.rs:77-83 | one required and one excluded tag give the inclusion, `AND`, and the exclusion between the head and the tail |
| LegacyQueryBuilder.Example1Binds | src/database/query_builder.rs:77-83 | that query binds the two tags, 100 and 200 |
| LegacyQueryBuilder.Example2Binds | src/database/query_builder.rs:87-97 | two required and one excluded tag bind the three tags in order, 100 and 200 |
| Export.KeysOf | fuzzle/src/database/export.rs:65-71 | the keys are exactly the first components of the rows |
| Export.ValuesOfAbsent | fuzzle/src/database/export.rs:65-71 | a key that no row has collects nothing |
| Export.RowPlaced | fuzzle/src/database/export.rs:65-71 | every row's value lands in its key's list, after the values of the earlier rows with that key |
| Export.GroupRelations | fuzzle/src/database/export.rs:64-71 | every set in the rows is a key, mapped to its stickers in row order, and there are no other keys |
| Export.GroupStickers | fuzzle/src/database/export.rs:74-82 | every sticker file in the rows gets an entry listing its stickers in row order and no tags yet |
| Export.AddTags | fuzzle/src/database/export.rs:85-92 | after the tag rows, every file with a sticker or a tag has an entry with its stickers and its tags, each in row order |
| Export.ExportDatabase | fuzzle/src/database/export.rs:43-97 | the sets map each set to its stickers; the files map each file that has a sticker or a tag to its stickers and tags, all in row order |
| Export.TagOnlyFile | fuzzle/src/database/export.rs:85-92 | a file that only appears in the tag rows is exported with no stickers and its tags |
| LegacyExport.LastWins | src/database/export.rs:99-106 | a file's visual hash is absent exactly when no row names the file, and otherwise the last row's hash |
| LegacyExport.WithoutHashes | src/database/export.rs:79-96 | before the hash rows every file entry keeps its stickers and tags and has no visual hash |
| LegacyExport.AddHashes | src/database/export.rs:98-106 | after the hash rows every file with a sticker, tag or hash has an entry with its stickers, tags and the last hash given for it |
| LegacyExport.LegacyExportDatabase | src/database/export.rs:42-120 | the sets map each set to its stickers; the files map each file with a sticker, tag or hash to its stickers, tags and last visual hash |
| LegacyExport.LaterHashWins | src/database/export.rs:103-105 | of two hash rows for the same file, the later one is kept |
| Auth.CheckLinesFields | fuzzle/src/web/server/auth.rs:74-90 | the check lines are in strictly sorted order and hold, under their own names, exactly the date, first name, id, last name, photo URL and username that are present; the hash is never one of them |
| Auth.CheckStringSplits | fuzzle/src/web/server/auth.rs:86-89 | when no value holds a line break, splitting the check string at line breaks gives back exactly the `name=value` lines |
| Auth.CheckStringIgnoresHash | fuzzle/src/web/server/auth.rs:74-90 | the check string does not depend on the hash |
| Auth.Check | fuzzle/src/web/server/auth.rs:58-72 | the data pass exactly when a hash is present, decodes as hex, and verifies against the check string under the bot token |
| Auth.AsUnhashedAuthData | fuzzle/src/web/server/auth.rs:43-53 | the web-app user's id and names are carried over, the date is the one given, and there is no photo URL and no hash |
| Auth.UnhashedFailsCheck | fuzzle/src/web/server/auth.rs:43-72 | data converted from a web-app user without signing never pass the check, and carry no photo line |
| Auth.ParseInitData | fuzzle/src/web/server/auth.rs:147-152 | the init data parse exactly when there is a `hash` field; it is taken out and every other field is kept with its value |
| Auth.SortedKeys | fuzzle/src/web/server/auth.rs:174-176 | the keys come out strictly sorted and are exactly the map's keys |
| Auth.WebAppCheckStringOrderFree | fuzzle/src/web/server/auth.rs:173-179 | the web-app check string is the same whatever order the hash map yields its entries in |
| Auth.WebAppLines | fuzzle/src/web/server/auth.rs:173-179 | there is one line per field, and line `i` is the `i`-th smallest key with its value |
| Auth.WebAppCheck | fuzzle/src/web/server/auth.rs:156-171 | the check passes exactly when the hash is hex and the decoded signature verifies against the web-app check string |
| Auth.WebAppSignedPasses | fuzzle/src/web/server/auth.rs:156-171 | launch data whose hash is the hex of the signature of its own check string passes, whenever verification accepts what signing produces |
| Auth.IntoAuthData | fuzzle/src/web/server/auth.rs:181-193 | a missing `user` field and a `user` that does not parse are the two errors; otherwise the data carry the current time, no photo URL, and a hash |
| Auth.IntoAuthDataPassesCheck | fuzzle/src/web/server/auth.rs:181-193 | data produced by the conversion pass the login check whenever verification accepts what signing produces |
| Auth.OptionalUser | fuzzle/src/web/server/auth.rs:102-122 | no cookie gives no user, a cookie that does not parse is an error, and any user returned passes the check |
| Auth.RequireUser | fuzzle/src/web/server/auth.rs:134-143 | no cookie is unauthorized; a user returned has a hash and passes the check |
| Auth.RequireUserIff | fuzzle/src/web/server/auth.rs:102-143 | a user is admitted exactly when the cookie is present, parses, and its data pass the check |
| LegacyAuth.SameCheckLines | src/web/server/auth.rs:44-60 | the older check lines and check string are the current ones for the same fields |
| LegacyAuth.LegacyCheckLinesFields | src/web/server/auth.rs:44-60 | the older check lines are strictly sorted, hold exactly the present fields under their names, never the hash, and the string ignores the hash |
| LegacyAuth.LegacyCheck | src/web/server/auth.rs:31-42 | a hash that is not hex fails; a pass means the signature verifies against the check string |
| LegacyAuth.SameCheck | src/web/server/auth.rs:31-42 | the older check accepts exactly what the current one accepts for the same data with the hash present |
| LegacyAuth.LegacyAuthenticate | src/web/server/auth.rs:73-102 | a missing cookie is its own error; a success passed the check and found the user; an invalid-data error means the cookie parsed and failed the check |
| LegacyAuth.CheckBeforeLookup | src/web/server/auth.rs:83-100 | data that fail the check are rejected as invalid whatever the user lookup would do |
| BotErrors.TimeoutKinds | fuzzle/src/bot/bot_error.rs:52-59 | only HTTP-client, Telegram-request and download errors can be timeouts, and of the latter two only their network variants |
| BotErrors.InternalEndUserError | fuzzle/src/bot/bot_error.rs:111-113 | every internal error shows the same generic message at error severity |
| BotErrors.Excerpt | fuzzle/src/bot/bot_error.rs:126 | the excerpt is a prefix of the rest of the input, ten characters long or the whole rest when that is shorter |
| BotErrors.EndUserError | fuzzle/src/bot/bot_error.rs:140-145 | internal errors show the generic message; user errors show their own |
| BotErrors.UserEndUserError | fuzzle/src/bot/bot_error.rs:117-136 | a user error is shown as informational exactly for a wrong mode and an empty list; every other user error is shown as an error |
| BotErrors.ParseErrorShowsExcerpt | fuzzle/src/bot/bot_error.rs:126 | a parse error names the position and then shows the first ten characters of the rest of the input |
| BotErrors.UnknownCommandQuoted | fuzzle/src/bot/bot_error.rs:124 | the message for an unknown command contains the command as typed |
| BotErrors.TagsNotFoundNamesEach | fuzzle/src/bot/bot_error.rs:127 | the message for tags not found names every one of them |
| RelativeTime.TruncDiv | fuzzle/src/util/mod.rs:18-34 | division rounds toward zero, as chrono's whole-unit counts do, for past and future durations alike |
| RelativeTime.WholeUnits | fuzzle/src/util/mod.rs:18-34 | the whole number of units in a duration, toward zero, bounded on both sides by the unit length |
| RelativeTime.Classify | fuzzle/src/util/mod.rs:12-36 | each phrase is chosen exactly on its threshold interval, and its number lies in the range those thresholds allow: 1-59 minutes, 1-23 hours, 2-6 days, 2-8 weeks, and for the last phrase the number of whole thirty-day months elapsed, at least 2 |
| RelativeTime.ClassifyMonotone | fuzzle/src/util/mod.rs:16-35 | a longer time ago never yields an earlier phrase, and within one phrase (minutes, hours, days, weeks, months) the number never decreases |
| RelativeTime.RenderShape | fuzzle/src/util/mod.rs:16-35 | only the future phrase starts with `in `; every other phrase is `today` or a phrase ending in ` ago` whose first character is not `i` |
| RelativeTime.FormatRelativeTime | fuzzle/src/util/mod.rs:12-36 | a time after the clock reading is exactly the case written `in ...`; every past time is written `today` or `... ago` |
| BotUtil.ClassifiersDisjoint | fuzzle/src/util/bot.rs:4-28 | no API error is both the ignorable late-callback error and a wrong-file-id error |
| BotUtil.DecodeStickerSetId | fuzzle/src/util/bot.rs:38-57 | decoding succeeds exactly when the text is a 64-bit signed integer; ids with bits 24-31 all set give the upper half (rounded down) plus 2^32 and, as set part, the low four bits of the id, all others split into owner and a 32-bit set part that recombine to the id |
| BotUtil.DecodeInvertsEncoding | fuzzle/src/util/bot.rs:43-49 | an id built from a 32-bit signed owner and a 32-bit set part not in the long format decodes back to that owner and set part |
| DatabaseUtil.MinMax | fuzzle/src/database/util.rs:7-13 | the pair is the two arguments in order, smaller first, and keeps the given order when the first is smaller |
| DatabaseUtil.MinMaxSymmetric | fuzzle/src/database/util.rs:7-13 | swapping the arguments gives the same pair |
| LimitKeywords.LimitKeywords | fuzzle/src/simple_bot_api/mod.rs:117-123 | the result is a prefix of the keywords whose combined length is below 64, and the next keyword, if any, would bring it to 64 or more |
| LimitKeywords.LimitIsLongestPrefix | fuzzle/src/simple_bot_api/mod.rs:117-123 | every longer prefix reaches the limit, so the result is the longest prefix below it |
| Thumb.GetGridSize | fuzzle/src/sticker/thumb.rs:49-56 | no stickers is an error; otherwise the grid side is the smallest whose square holds the stickers, except that more than 9 stickers still get a side of 3 |
| Thumb.DrawnCount | fuzzle/src/sticker/thumb.rs:25-31 | the number of stickers drawn is all of them or a full grid, whichever is smaller |
| Thumb.CellInsideCanvas | fuzzle/src/sticker/thumb.rs:32-40 | every drawn sticker's cell lies inside the image |
| Thumb.CellDeterminesIndex | fuzzle/src/sticker/thumb.rs:38 | when the image is at least as wide as the grid, no two drawn stickers share a cell |
| Histogram.Bin | fuzzle/src/sticker/analysis/histogram.rs:75-77 | a channel value falls into one of 5 bins, the one whose share of 0-255 contains it |
| Histogram.BinMonotone | fuzzle/src/sticker/analysis/histogram.rs:75-77 | a brighter channel value never falls into a lower bin |
| Histogram.Weights | fuzzle/src/sticker/analysis/histogram.rs:73-80 | the weight map has an entry exactly for each bin triple some pixel falls into, holding the sum of those pixels' alpha |
| Histogram.AllColors | fuzzle/src/sticker/analysis/histogram.rs:86-92 | the 125 bin triples, the one at index `i` being the triple whose base-5 digits are `i` |
| Histogram.AllColorsIndex | fuzzle/src/sticker/analysis/histogram.rs:86-92 | every bin triple appears in the list, at its base-5 index |
| Histogram.AllColorsOrdered | fuzzle/src/sticker/analysis/histogram.rs:86-92 | the list is in red, then green, then blue order |
| Histogram.MaxWeight | fuzzle/src/sticker/analysis/histogram.rs:34 | the largest weight among the colours, zero when there are none |
| Histogram.MaxWeightZero | fuzzle/src/sticker/analysis/histogram.rs:34-35 | the largest weight is zero exactly when every weight is zero |
| Histogram.FromMap | fuzzle/src/sticker/analysis/histogram.rs:31-52 | an all-zero map gives the vector with a 1 first and 0 elsewhere; otherwise each colour's weight is scaled against the largest |
| Histogram.GetMap | fuzzle/src/sticker/analysis/histogram.rs:54-67 | the map holds exactly the colours whose entry is non-zero, each with its entry divided by 255 |
| Histogram.GetMapKeepsNonZero | fuzzle/src/sticker/analysis/histogram.rs:61-64 | the `i`-th colour is in the map exactly when the `i`-th entry is non-zero, with that entry over 255 |
| Histogram.EmptyImageUnitVector | fuzzle/src/sticker/analysis/histogram.rs:35-41 | an image whose pixels are all fully transparent gets the unit vector |
| TopMatches.New | src/sticker/analysis/measures.rs:30-37 | a new list is empty, keeps its capacity and bound, and satisfies the list invariant |
| TopMatches.Insert | src/sticker/analysis/measures.rs:45-49 | inserting keeps the list sorted and adds exactly the one match |
| TopMatches.Push | src/sticker/analysis/measures.rs:39-56 | the list stays sorted, at most `n` long, within the bound, with the worst distance the last one's; a match above the bound changes nothing; one within the bound is added while there is room |
| TopMatches.Items | src/sticker/analysis/measures.rs:58-60 | the items come out sorted and at most `n` of them |
| TopMatches.KeepsSmallest | src/sticker/analysis/measures.rs:39-56 | after any sequence of pushes onto a new list, the items are exactly the `n` smallest of the pushed matches within the bound, in order |
| TopMatches.RejectAbove | src/sticker/analysis/measures.rs:40-42 | when the list is full, a match above its last one is dropped, as the early return on the worst distance does |
| TopMatches.IgnoresAboveBound | src/sticker/analysis/measures.rs:40 | pushing a match above the distance bound leaves the list unchanged |
| Ordering.LessTotal | fuzzle/src/database/util.rs:8 | any two different strings are ordered one way or the other |
| Ordering.LessTransitive | fuzzle/src/database/util.rs:8 | the string order is transitive |
| Ordering.SortDedup | fuzzle/src/message/command/hidden.rs:722-723 | the result is strictly sorted and holds exactly the input's strings |
| Ordering.SortedUnique | fuzzle/src/message/command/hidden.rs:722-723 | two strictly sorted lists with the same strings are equal |
| TagSearchEngine.Trigrams | tag_search_engine/src/lib.rs:28-36 | every trigram has three characters; the empty string has none, and any other string has its padded first and last characters among them |
| TagSearchEngine.TrigramsBound | tag_search_engine/src/lib.rs:28-36 | a string of length `n` has at most `n + 2` trigrams |
| TagSearchEngine.JaccardRange | tag_search_engine/src/lib.rs:18-26 | the similarity lies between 0 and 1 and is 1 exactly for equal sets, the empty pair included |
| TagSearchEngine.JaccardSymmetric | tag_search_engine/src/lib.rs:18-26 | the similarity does not depend on the order of the two sets |
| TagSearchEngine.Merge | tag_search_engine/src/lib.rs:38-67 | the two-pointer loop computes the recursive merge of the two count lists |
| TagSearchEngine.MergeSorted | tag_search_engine/src/lib.rs:38-67 | merging two lists sorted by term gives a list sorted by term holding the terms of both |
| TagSearchEngine.MergePositive | tag_search_engine/src/lib.rs:38-67 | merging lists of positive counts gives positive counts |
| TagSearchEngine.MergeCountOf | tag_search_engine/src/lib.rs:38-67 | each term's count in the merge is its count in the left list plus its count in the right |
| TagSearchEngine.Merge1Sorted | tag_search_engine/src/lib.rs:69-81 | merging any non-empty number of sorted, positive count lists by halves gives a sorted, positive list |
| TagSearchEngine.Merge1Count | tag_search_engine/src/lib.rs:69-81 | each term's count after merging by halves is the sum of its counts in all the lists |
| TagSearchEngine.CountTermsSpec | tag_search_engine/src/lib.rs:83-92 | the result is sorted by term, each term's count is the number of sets holding it, and a term is listed exactly when some set holds it |
| TagSearchEngine.IndexedSets | tag_search_engine/src/lib.rs:254-257 | the sets looked up are sets of the index, one for each query trigram the index has |
| TagSearchEngine.CandidatesSpec | tag_search_engine/src/lib.rs:260-268 | a term is a candidate, with its similarity to the query, exactly when its count reaches the threshold |
| TagSearchEngine.TrigramCandidatesSpec | tag_search_engine/src/lib.rs:247-268 | a term is a trigram result exactly when it shares at least one trigram with the query and at least half as many as the query has, scored by its similarity to the query |
| TagSearchEngine.PushAllSpec | tag_search_engine/src/lib.rs:215-219 | pushing terms keeps the list free of duplicates and adds exactly the pushed terms |
| TagSearchEngine.MergeResults | tag_search_engine/src/lib.rs:207-245 | the corrected merge has no duplicates and holds exactly the terms of both result lists |
| TagSearchEngine.MergeResultsAsWritten | tag_search_engine/src/lib.rs:207-245 | as written, the merge can index past the end of the trigram results only when the trie results are the longer list |
| TagSearchEngine.AsWrittenAgreesWithoutTies | tag_search_engine/src/lib.rs:221-233 | when no term is in both lists, the loop as written gives the intended merge |
| TagSearchEngine.SharedTermLost | tag_search_engine/src/lib.rs:229 | a term found by both searches is replaced by another trigram result, and is missing from the merge as written |
| TagSearchEngine.SharedTermPanics | tag_search_engine/src/lib.rs:229 | a term found by both searches at a trie position past the end of the trigram results reads out of bounds |
| TagSearchEngine.MaxLen | tag_search_engine/src/lib.rs:143-147 | the longest term's length, zero for no terms |
| TagSearchEngine.New | tag_search_engine/src/lib.rs:140-154 | the engine keeps the terms, and its length bound is the longest term's |
| TagSearchEngine.Search | tag_search_engine/src/lib.rs:156-167 | an empty query, or one more than twice as long as the longest term, finds nothing; otherwise the results have no duplicates and are exactly the trie results and, for queries longer than one character, the trigram results |
| TagSearchEngine.Closest | tag_search_engine/src/lib.rs:169-172 | an empty or overlong query has no closest term |
| TagSearchEngine.ClosestSpec | tag_search_engine/src/lib.rs:169-204 | the answer is the better of the two top results when its score reaches the bound, the trigram one winning ties, and nothing otherwise |
| Theme.HexDigitsValue | fuzzle/public-assets/js/main.js:47-49 | `toString(16)` gives hex digits whose value is the number |
| Theme.ChannelIsByteHex | fuzzle/public-assets/js/main.js:47-49 | a channel below 256, zero-padded below 16, is exactly the two-digit lower-case hex of that byte |
| Theme.ChannelOverflow | fuzzle/public-assets/js/main.js:47-49 | a channel of 256 or more takes at least three hex digits |
| Theme.ParseColorToHexAsWritten | fuzzle/public-assets/js/main.js:36-53 | whatever the function accepts becomes `#` and at least six lower-case hex digits |
| Theme.ParseColorToHex | fuzzle/public-assets/js/main.js:36-53 | with channels clamped to a byte, whatever it accepts becomes `#` and exactly six lower-case hex digits |
| Theme.LongHexForm | fuzzle/public-assets/js/main.js:39-41 | `#` and six hex digits of either case, with any surrounding whitespace, become the same digits in lower case |
| Theme.ShortHexForm | fuzzle/public-assets/js/main.js:42-44 | `#` and three hex digits, with any surrounding whitespace, become each digit doubled, in lower case |
| Theme.RgbForm | fuzzle/public-assets/js/main.js:45-51 | `rgb(`/`rgba(` with three decimal channels separated by commas and optional spaces, and an optional alpha that is ignored, becomes the channels in hex |
| Theme.HexColorFixed | fuzzle/public-assets/js/main.js:39-41 | a normalised colour is read back unchanged |
| Theme.NormalFormFixed | fuzzle/public-assets/js/main.js:36-53 | normalising a normalised colour changes nothing |
| Theme.ExampleShortHex | fuzzle/public-assets/js/main.js:42-44 | `#0aF` becomes `#00aaff` |
| Theme.ExampleRgb | fuzzle/public-assets/js/main.js:45-51 | `rgb(255, 0, 128)` becomes `#ff0080` |
| Theme.ExampleRgba | fuzzle/public-assets/js/main.js:45-51 | `rgba(16, 16, 16, 0.5)` becomes `#101010`, the alpha dropped |
| Theme.RefusesOtherStart | fuzzle/public-assets/js/main.js:52 | a colour whose trimmed text is empty or starts with neither `#` nor `r` is refused |
| Theme.AcceptedForms | fuzzle/public-assets/js/main.js:36-53 | a colour is accepted exactly when its trimmed text is a long hex, a short hex, or an `rgb(a)` form, and clamping does not change which are accepted |
| Theme.UnclampedChannelOverflows | fuzzle/public-assets/js/main.js:46-50 | as written, `rgb(256,0,0)` becomes `#1000000`, seven digits, which is no CSS colour |
| Theme.ClampedChannel | fuzzle/public-assets/js/main.js:46-50 | with clamping, `rgb(256,0,0)` becomes `#ff0000` |
| Theme.OverflowLength | fuzzle/public-assets/js/main.js:46-50 | any channel of 256 or more makes the unclamped result longer than seven characters, while the clamped one is exactly seven |
| Theme.OverflowNotReparsed | fuzzle/public-assets/js/main.js:39-44 | such an over-long result is not itself accepted as a colour |
| Theme.SetCssProperty | fuzzle/public-assets/js/main.js:55-60 | without a document root nothing happens; otherwise the `--tg-` property is set to the value and every other property is unchanged |
| Theme.SetCssPropertyIdempotent | fuzzle/public-assets/js/main.js:55-60 | setting the same property to the same value twice is the same as once |
| Theme.DashedSpec | fuzzle/public-assets/js/main.js:29 | splitting at `_` and joining with `-` replaces each underscore by a dash and keeps every other character |
| Theme.ThemeNameShape | fuzzle/public-assets/js/main.js:29-30 | the property name is `--tg-theme-` and the key with dashes for underscores, eleven characters longer than the key |
| Theme.ApplyEntriesValue | fuzzle/public-assets/js/main.js:25-32 | after the loop a property holds the colour of the last entry that targets it with a parsable value, and any other property keeps what it had |
| Theme.ApplyEntriesIdempotent | fuzzle/public-assets/js/main.js:25-32 | running the loop twice over the same entries is the same as once |
| Theme.SkipsUnparsable | fuzzle/public-assets/js/main.js:28 | an entry whose value is not a colour writes nothing |
| Theme.SetThemeParamsAsWritten | fuzzle/public-assets/js/main.js:25-34 | as written the function always throws after its writes, on the undefined `Utils`, and stores nothing |
| Theme.SetThemeParams | fuzzle/public-assets/js/main.js:25-34 | as intended the same writes happen and the parameters are stored |
| Theme.SessionStorageGet | fuzzle/public-assets/js/main.js:4-13 | session storage wins when its read and parse succeed; local storage is used only when that throws; null when both throw |
| Theme.MissingKeyReadsNull | fuzzle/public-assets/js/main.js:6 | a key missing from session storage reads as the JSON `null` and does not fall back to local storage |
| Theme.SessionFirst | fuzzle/public-assets/js/main.js:5-7 | when session storage answers, local storage does not matter |
| Theme.InitThemeAsWritten | fuzzle/public-assets/js/main.js:2-23 | as written the page stops exactly when the stored launch parameters read as null, and never stores the theme |
| Theme.InitTheme | fuzzle/public-assets/js/main.js:2-23 | as intended the start-up code always runs to its end |
| Theme.MissingInitParamsCrash | fuzzle/public-assets/js/main.js:2-15 | with no launch parameters in session storage the page as written stops with a TypeError; the intended version leaves the page unchanged |
| Theme.ThemeApplied | fuzzle/public-assets/js/main.js:15-23 | a non-empty, parsable theme text gets its colours applied, and stored only in the intended version |
| Theme.NoThemeNoChange | fuzzle/public-assets/js/main.js:15-19 | no theme text, an unparsable one or a falsy one leaves the page unchanged |
| Nom.NomUnsignedRoundTrip | fuzzle/src/callback/callback_data.rs:343 | an unsigned number written in decimal and followed by anything is read back, with the rest left over |
| Nom.NomSignedRoundTrip | fuzzle/src/message/command/hidden.rs:125 | a signed number written in decimal and followed by anything is read back within its bounds, with the rest left over |
| Decimal.ParseSignedRoundTrip | fuzzle/src/util/bot.rs:39 | a 64-bit signed id written in decimal parses back to itself |
| Hex.Decode | fuzzle/src/web/server/auth.rs:60 | hex decoding fails exactly for an odd length or a character that is not a hex digit |
| Hex.EncodeShape | fuzzle/src/web/server/auth.rs:188 | hex encoding writes two lower-case hex digits per byte |
| Hex.EncodeDecode | fuzzle/src/web/server/auth.rs:188 | decoding what encoding produced gives back the bytes |
| Hex.DecodeEncode | fuzzle/src/web/server/auth.rs:60 | encoding what decoding produced gives the input in lower case |
| Decimal.ParseSigned | fuzzle/src/util/bot.rs:39 | a parse succeeds only within the type's range and only on text that starts with a digit or a sign |
| Strings.Without | fuzzle/src/callback/callback_handler.rs:1354-1358 | filtering out a value removes every copy of it, keeps every other element with its number of copies, and leaves a list without the value unchanged |
| Strings.WithoutAppend | fuzzle/src/callback/callback_handler.rs:1354-1358 | the filter keeps the remaining elements in their order: filtering a concatenation is concatenating the filtered parts |

## Left out

- Telegram, database, vector-database and inference calls: the handlers' reads, writes and replies, `perform_request`, the update listener and the error handler. Each handler decision is a function that returns the state or query the handler would use.
- The diesel/sqlx query bodies, schema and model wrappers. They are thin layers over an external SQL engine; only the SQL text builders are modelled.
- Cryptography from libraries: SHA-256 and HMAC. `Auth` takes signing and verification as parameters. The login age check is a TODO in the source and is not modelled.
- JSON (de)serialisation of cookies, init data and theme values. Parsing is a parameter returning an option.
- Unicode emoji recognition (the `emojis` tables, grapheme segmentation, `parse_first_emoji`). Emojis are opaque strings, and the recogniser is a parameter wherever a grammar reads one.
- Unicode `to_lowercase` is modelled as ASCII lower-casing (`Strings.AsciiLower`). The two agree on the ASCII tag names the bot stores.
- Lengths are counted in characters, while the source counts UTF-8 bytes. This affects `limit_keywords`, the search engine's length guards and `max_len`, and the error positions of the nom parsers. The two agree on ASCII input.
- chumsky error spans in the older rule parser are character offsets used as byte offsets. Since byte and character lengths are not distinguished here, that mismatch is not modelled.
- Floating point. Suggestion scores, Jaccard similarities and distances are `real`s, so rounding, NaN and signed zero are not modelled. This also covers:
  - TF-IDF;
  - cosine similarity;
  - the Sørensen–Dice fuzzy ranking behind `find_tags` and the fuzzy branch of `closest_matching_tag`, which are parameters;
  - the histogram's scaling of non-empty maps, which is a parameter;
  - the `-(score * 10000.0) as i64` sort keys.
- The trie's predictive search and both searches' ranking and `take(20)` are parameters of `TagSearchEngine.Search` and `TagSearchEngine.Closest`. Only the trigram set arithmetic, the counting merge, the candidate filter and the result merge are modelled.
- The search engine's test fixture (`max_len == 20` for the test's term list) is not restated as a lemma.
- `HashMap` iteration order. Where it could matter, the model proves it does not:
  - `Auth.WebAppCheckStringOrderFree` for the web-app check string;
  - `ImplicationClosure` for a round of the closure.
  Elsewhere it is an explicit parameter.
- Unstable sort by votes. `CombineSuggestions.Combine` keeps equal-vote candidates in source order, which is one of the orders `sort_unstable_by_key` may produce.
- `files.into_values()` in the current export drops the map keys and yields the values in unspecified order. `Export.ExportDatabase` returns the map itself.
- Image work: decoding, resizing and compositing thumbnails, the histogram image, visual hashes and duplicate detection. `Thumb` models only the grid size and the cell placement.
- Concurrency, metrics, periodic tasks, the web servers and UI, configuration and `main`.
- Constant tables with no behaviour: the default tag, alias and implication lists, default suggestions, texts, category colours and emojis. They are passed in as parameters where an operation reads them.
- `sessionStorageSet` (the `Utils` helper the page script calls) is not defined in the script. The model of `setThemeParams` only records whether the parameters are stored.
- The page script's `for (key in theme_params)` iterates in JavaScript's property order, and non-string values are coerced to text. The model takes the entries as a sequence of key/text pairs in that order.
- `parseInt` beyond 2^53 loses precision in JavaScript. The model reads channels as exact integers, which only changes channels far beyond any colour.
- The snapshot mismatch between `fuzzle/src/callback/callback_handler.rs` and the shown `callback_data.rs` (variants the handler matches that the data type lacks). Each file is modelled on its own terms.
- The older tree's `StickerOrder` and the `.order` builder call it relies on are not part of this model. `LegacyCallbackData` uses the current tree's `0`/`1` encoding.
- `LimitKeywords.LimitKeywords`: counts characters, not UTF-8 bytes, as noted above.
- `TagSearchEngine.Search`: the length guard compares character counts, not byte counts, as noted above.
- `TopMatches.Push`: distances are reals, so the `total_cmp` order on NaN and signed zero is not modelled.
- `TagSuggestion`: merged scores are exact sums, so floating-point summation order is not modelled.
- `Histogram.FromMap`: the scaling of a non-empty map is a parameter, not the `f32` arithmetic of the source.
- `Pagination.NextQueryOffset`: `current_offset + page_size` is a `usize` addition. Past 2^64 − 1 it panics in a debug build and wraps in a release build. The model adds exactly; `Pagination.NextPageAdvances` requires the sum to stay within `usize`.
- Read-only mode (`handle_readonly` and the `is_readonly` early returns in the callback handler, the hidden commands and the sticker import). Each of them replies or returns before the operation runs. The model describes the operation as it behaves when the bot is not read-only.
- The current message handler calls `fix_underline_command_separator`, but the current command utilities define only `fix_underline_command_separator_and_normalize`. `MessageHandler.HandleTextMessage` uses the latter.

## Findings

| source | as written | input that shows it | evidently intended | confidence | as-written member | corrected member |
|---|---|---|---|---|---|---|
| src/tags/tag_suggestions/rules.rs:38-41 | the error excerpt starts at `start.max(50)`, the larger of the error offset and 50 | any rule file shorter than 50 characters that fails to parse, such as `x`: the slice starts at 50, past the error's end, and panics | start the excerpt at most 50 characters before the error, never past the end | not executed | LegacyRuleFile.ErrorExcerptAsWritten, LegacyRuleFile.ShortErrorPanics | LegacyRuleFile.ErrorExcerpt |
| src/database/query_builder.rs:43-60 | `WHERE ` is emitted, then one condition per tag, then `)` | no required and no excluded tags: the text contains `WHERE )` | no `WHERE` clause, or a well-formed one, when there are no tags | not executed | LegacyQueryBuilder.EmptyWhereIffNoTags, LegacyQueryBuilder.EmptySearchText | LegacyQueryBuilder.FixedGenerate |
| tag_search_engine/src/lib.rs:229 | on equal terms the merge pushes `trigram_results[i]` | trie results `[b]` and trigram results `[a, b]`: the merge yields only `a`; trie `[a, b]` and trigram `[b]`: index 1 is past the end of the trigram list | push the shared term, `trigram_results[j]` | not executed | TagSearchEngine.SharedTermLost, TagSearchEngine.SharedTermPanics | TagSearchEngine.MergeResults |
| fuzzle/public-assets/js/main.js:46-50 | each `rgb()` channel is printed with `toString(16)` without clamping | `rgb(256,0,0)` becomes `#1000000`, which is not a CSS colour | clamp each channel to 0..255, giving `#ff0000` | not executed | Theme.UnclampedChannelOverflows, Theme.OverflowLength | Theme.ParseColorToHex, Theme.ClampedChannel |
| fuzzle/public-assets/js/main.js:33 | `setThemeParams` ends by calling the undefined `Utils` with the undefined `themeParams` | any theme: the call throws a ReferenceError, which the caller's `try` swallows, and nothing is stored | store the theme parameters that were applied | not executed | Theme.SetThemeParamsAsWritten | Theme.SetThemeParams |
| fuzzle/public-assets/js/main.js:2-15 | `initParams.tgWebAppThemeParams` is read without checking `initParams` | no `initParams` key in session storage: `JSON.parse(null)` is `null` and the property read throws a TypeError outside any `try` | treat missing launch parameters as having no theme | not executed | Theme.InitThemeAsWritten, Theme.MissingInitParamsCrash | Theme.InitTheme |

The storage helper of the page script falls back to local storage only when the session-storage read or its parse throws. A key that is simply missing reads as `null` and does not fall back, as `Theme.MissingKeyReadsNull` states. The model follows the code here.
