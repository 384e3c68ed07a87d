/** `InlineQueryData` of the current tree: the text of an inline query, which
    selects a mode by a parenthesised prefix and carries tags, emojis or ids.
    The grammar must consume everything up to trailing white space; a
    failure reports the position and the unread rest. The emoji recogniser
    `parse_emoji` is a parameter. */
module InlineData {
  import opened Wrappers
  import opened Strings
  import opened Decimal
  import opened Nom
  import opened Literals
  import opened Emojis
  import opened TagLists

  datatype SetOperation = SetTag | SetUntag

  /** `TagKind`, a `Primitive` enum with `Main = 0` (the default) and
      `Alias = 1`. */
  datatype TagKind = Main | Alias

  datatype SimilarityAspect = Color | Embedding

  datatype InlineQueryData =
    | SearchTagsForSticker(tags: seq<seq<string>>, uniqueId: string)
    | SearchTagsForStickerSet(tags: seq<seq<string>>, setName: string, operation: SetOperation)
    | SearchTagsForContinuousTagMode(tags: seq<seq<string>>, operation: SetOperation)
    | SearchTagsForBlacklist(blacklistTags: seq<string>)
    | SearchStickers(searchTags: seq<string>, emoji: seq<Emoji>)
    | ListAllTagsFromSet(stickerId: string)
    | AddToUserSet(stickerId: string, setTitle: Option<string>)
    | ListAllSetsThatContainSticker(stickerId: string)
    | ListOverlappingSets(stickerId: string)
    | ListSetStickersByDate(stickerId: string)
    | ListSimilarStickers(uniqueId: string, aspect: SimilarityAspect)
    | ListMostDuplicatedStickers
    | ListMostUsedEmojis
    | ListRecommendationModeRecommendations
    | SearchByEmbedding(query: string)
    | SetsByUserId(userId: int)
    | TagCreatorTagId(tagId: string, kind: TagKind)

  /** `UserError::ParseError(position, rest)`: where parsing stopped, as an
      offset into the input and as the unread text. */
  datatype ParseError = ParseError(position: nat, rest: string)

  // ---------------------------------------------------------------- tag kind

  /** `TagKind::from_str`: a `u8` in Rust's syntax, an unknown discriminant
      falling back to the default kind. */
  function TagKindFromStr(s: string): (r: Result<TagKind, ParseError>)
    ensures r.Failure? <==> ParseUnsigned(s, U8_MAX).None?
    ensures r.Failure? ==> r.error == ParseError(0, s)
    ensures r == Success(Alias) <==> ParseUnsigned(s, U8_MAX) == Some(1)
  {
    match ParseUnsigned(s, U8_MAX)
    case None => Failure(ParseError(0, s))
    case Some(n) => Success(if n == 1 then Alias else Main)
  }

  function TagKindToU8(k: TagKind): nat {
    if k == Main then 0 else 1
  }

  /** Every kind is read back from its discriminant. */
  lemma TagKindRoundTrip(k: TagKind)
    ensures TagKindFromStr(NatToString(TagKindToU8(k))) == Success(k)
  {
    ParseUnsignedRoundTrip(TagKindToU8(k), U8_MAX);
  }

  /** A number that is no discriminant gives the default, a non-number an
      error at position 0. */
  lemma TagKindSamples()
    ensures TagKindFromStr("7") == Success(Main)
    ensures TagKindFromStr("x") == Failure(ParseError(0, "x"))
  {
    assert NatToString(7) == "7";
    ParseUnsignedRoundTrip(7, U8_MAX);
    assert !IsAsciiDigit('x');
  }

  // ---------------------------------------------------------------- printing

  /** `{prefix}{w})` followed by `after`. */
  function Enclose(prefix: string, w: string, after: string): string {
    prefix + (w + (")" + after))
  }

  function EmojiTexts(es: seq<Emoji>): (r: seq<string>)
    ensures |r| == |es|
    ensures forall i :: 0 <= i < |es| ==> r[i] == ToStringWithVariant(es[i])
  {
    if |es| == 0 then [] else [ToStringWithVariant(es[0])] + EmojiTexts(es[1..])
  }

  function Display(d: InlineQueryData): string {
    match d
    case SearchTagsForSticker(tags, id) => Enclose("(s:", id, " " + ShowGroups(tags))
    case ListAllSetsThatContainSticker(id) => Enclose("(contains:", id, " ")
    case ListOverlappingSets(id) => Enclose("(overlap:", id, " ")
    case ListSetStickersByDate(id) => Enclose("(dates:", id, " ")
    case ListAllTagsFromSet(id) => Enclose("(settags:", id, " ")
    case AddToUserSet(id, title) => Enclose("(add:", id, " " + title.GetOr(""))
    case SearchStickers(tags, emoji) =>
      var es := Join(EmojiTexts(emoji), " ");
      if |es| > 0 then es + " " + Join(tags, " ") else Join(tags, " ")
    case SearchTagsForBlacklist(tags) => "(blacklist) " + Join(tags, " ")
    case SearchTagsForStickerSet(tags, name, op) =>
      Enclose(if op == SetTag then "(se:" else "(su:", name, " " + ShowGroups(tags))
    case TagCreatorTagId(id, kind) => (if kind == Main then "(tag) " else "(alias) ") + id
    case SearchTagsForContinuousTagMode(tags, op) =>
      (if op == SetTag then "(cont)" else "(-cont)") + (" " + ShowGroups(tags))
    case ListSimilarStickers(id, aspect) => Enclose(if aspect == Color then "(color:" else "(embed:", id, " ")
    case SearchByEmbedding(q) => "(embed) " + q
    case ListMostDuplicatedStickers => "(dup) "
    case ListMostUsedEmojis => "(emo) "
    case ListRecommendationModeRecommendations => "(rec) "
    case SetsByUserId(u) => Enclose("(usersets:", IntToString(u), " ")
  }

  // ----------------------------------------------------------------- parsing

  /** `terminated(preceded(tag(prefix), literal), tag(")"))` */
  function Enclosed(prefix: string, s: string, p: char -> bool): (r: PResult<string>)
    ensures r.Done? ==> prefix <= s && IsWord(r.value, p) && |r.rest| < |s|
  {
    if prefix <= s then
      match Literal(s[|prefix|..], p)
      case Fail(at) => Fail(at)
      case Done(r1, w) => if ")" <= r1 then Done(r1[1..], w) else Fail(r1)
    else Fail(s)
  }

  /** `(s:{id})` and comma-separated tag groups. */
  function StickerTags(s: string): (r: PResult<InlineQueryData>)
    ensures r.Done? ==> "(s:" <= s
  {
    var e := Enclosed("(s:", s, IsStickerIdChar);
    if e.Fail? then Fail(e.at)
    else
      var t := CommaSeparatedTags(e.rest);
      Done(t.1, SearchTagsForSticker(t.0, e.value))
  }

  /** `(se:{set})` or `(su:{set})` and comma-separated tag groups. */
  function SetTags(s: string): (r: PResult<InlineQueryData>)
    ensures r.Done? ==> "(se:" <= s || "(su:" <= s
  {
    var e := Enclosed("(se:", s, IsSetNameChar);
    var u := Enclosed("(su:", s, IsSetNameChar);
    if e.Done? then
      var t := CommaSeparatedTags(e.rest);
      Done(t.1, SearchTagsForStickerSet(t.0, e.value, SetTag))
    else if u.Done? then
      var t := CommaSeparatedTags(u.rest);
      Done(t.1, SearchTagsForStickerSet(t.0, u.value, SetUntag))
    else Fail(s)
  }

  /** `(usersets:{digits})`: `digit1` read as an `i64`; a value out of range
      makes the alternative fail. */
  function UserSets(s: string): (r: PResult<InlineQueryData>)
    ensures r.Done? ==> "(usersets:" <= s && r.value.SetsByUserId? && 0 <= r.value.userId <= I64_MAX
  {
    if "(usersets:" <= s then
      match NomUnsigned(s[10..], I64_MAX)
      case Fail(at) => Fail(at)
      case Done(r1, u) => if ")" <= r1 then Done(r1[1..], SetsByUserId(u)) else Fail(r1)
    else Fail(s)
  }

  /** `(add:{id})` and the trimmed rest of the input as an optional title. */
  function AddToSet(s: string): (r: PResult<InlineQueryData>)
    ensures r.Done? ==> "(add:" <= s && r.rest == ""
    ensures r.Done? ==> r.value.AddToUserSet? && (r.value.setTitle.Some? ==> r.value.setTitle.value != "")
  {
    var e := Enclosed("(add:", s, IsStickerIdChar);
    if e.Fail? then Fail(e.at)
    else
      var title := Trim(e.rest);
      Done("", AddToUserSet(e.value, if title == "" then None else Some(title)))
  }

  /** `(cont)` or `(-cont)` and comma-separated tag groups. */
  function ContinuousTags(s: string): (r: PResult<InlineQueryData>)
    ensures r.Done? ==> "(cont)" <= s || "(-cont)" <= s
  {
    if "(cont)" <= s then
      var t := CommaSeparatedTags(s[6..]);
      Done(t.1, SearchTagsForContinuousTagMode(t.0, SetTag))
    else if "(-cont)" <= s then
      var t := CommaSeparatedTags(s[7..]);
      Done(t.1, SearchTagsForContinuousTagMode(t.0, SetUntag))
    else Fail(s)
  }

  /** A keyword followed by the whole rest of the input, unchanged
      (`take_while(|c| true)`). */
  function WithRest(prefix: string, s: string): (r: PResult<string>)
    ensures r.Done? ==> prefix <= s && r.rest == "" && s == prefix + r.value
  {
    if prefix <= s then Done("", s[|prefix|..]) else Fail(s)
  }

  /** `Enclosed` over sticker ids, mapped into a variant. */
  function IdVariant(prefix: string, s: string): (r: PResult<string>)
    ensures r.Done? ==> prefix <= s && IsStickerId(r.value)
  {
    Enclosed(prefix, s, IsStickerIdChar)
  }

  // ------------------------------------------------------ tags and emojis

  datatype Item = TagItem(tag: string) | EmojiItem(emoji: Emoji)

  /** `alt((tag_literal, parse_emoji))`; an emoji parse that does not consume
      input counts as a failure. */
  function ReadItem(s: string, parseEmoji: EmojiParser): (r: PResult<Item>)
    ensures r.Done? ==> |r.rest| < |s|
    ensures r.Done? && r.value.TagItem? ==> IsTag(r.value.tag)
  {
    match TagLiteral(s)
    case Done(rest, t) => Done(rest, TagItem(t))
    case Fail(_) =>
      var e := parseEmoji(s);
      if e.Done? && |e.rest| < |s| then Done(e.rest, EmojiItem(e.value)) else Fail(s)
  }

  /** `separated_list0(multispace1, alt((tag_literal, parse_emoji)))` */
  function Items(s: string, parseEmoji: EmojiParser): (r: (seq<Item>, string))
    ensures |r.1| <= |s|
  {
    var first := ReadItem(s, parseEmoji);
    if first.Fail? then ([], s)
    else
      var t := MoreItems(first.rest, parseEmoji);
      ([first.value] + t.0, t.1)
  }

  function MoreItems(s: string, parseEmoji: EmojiParser): (r: (seq<Item>, string))
    ensures |r.1| <= |s|
    decreases |s|
  {
    var n := SpanLen(s, IsMultispace);
    if n == 0 then ([], s)
    else
      var next := ReadItem(s[n..], parseEmoji);
      if next.Fail? then ([], s)
      else
        var t := MoreItems(next.rest, parseEmoji);
        ([next.value] + t.0, t.1)
  }

  function TagsOf(its: seq<Item>): (r: seq<string>)
    ensures |r| <= |its|
  {
    if |its| == 0 then []
    else (if its[0].TagItem? then [its[0].tag] else []) + TagsOf(its[1..])
  }

  function EmojisOf(its: seq<Item>): (r: seq<Emoji>)
    ensures |r| <= |its|
  {
    if |its| == 0 then []
    else (if its[0].EmojiItem? then [its[0].emoji] else []) + EmojisOf(its[1..])
  }

  /** `parse_tags_and_emojis`: the items, tags and emojis each kept in order. */
  function TagsAndEmojis(s: string, parseEmoji: EmojiParser): (r: PResult<InlineQueryData>)
    ensures r.Done? && r.value.SearchStickers?
  {
    var t := Items(Ms0(s), parseEmoji);
    Done(Ms0(t.1), SearchStickers(TagsOf(t.0), EmojisOf(t.0)))
  }

  // ------------------------------------------------------------ alternatives

  /** The `alt` of `parse_inline_query_data`, in the source's order, taken in
      five consecutive groups. Its last alternative never fails. */
  function Alternatives(s: string, parseEmoji: EmojiParser): (r: PResult<InlineQueryData>)
    ensures r.Done?
  {
    var a := AlternativesA(s);
    if a.Done? then a else
    var b := AlternativesB(s);
    if b.Done? then b else
    var c := AlternativesC(s);
    if c.Done? then c else
    var d := AlternativesD(s);
    if d.Done? then d else
    AlternativesE(s, parseEmoji)
  }

  function AlternativesA(s: string): PResult<InlineQueryData> {
    var r0 := StickerTags(s);
    if r0.Done? then r0 else
    var r1 := SetTags(s);
    if r1.Done? then r1 else
    var r2 := IdVariant("(contains:", s);
    if r2.Done? then Done(r2.rest, ListAllSetsThatContainSticker(r2.value)) else
    var r3 := IdVariant("(overlap:", s);
    if r3.Done? then Done(r3.rest, ListOverlappingSets(r3.value)) else Fail(s)
  }

  function AlternativesB(s: string): PResult<InlineQueryData> {
    var r4 := IdVariant("(dates:", s);
    if r4.Done? then Done(r4.rest, ListSetStickersByDate(r4.value)) else
    var r5 := UserSets(s);
    if r5.Done? then r5 else
    var r6 := IdVariant("(settags:", s);
    if r6.Done? then Done(r6.rest, ListAllTagsFromSet(r6.value)) else
    AddToSet(s)
  }

  function AlternativesC(s: string): PResult<InlineQueryData> {
    if "(blacklist)" <= s then
      var t := ParseTags(s[11..]);
      Done(t.1, SearchTagsForBlacklist(t.0))
    else
    var r9 := WithRest("(tag)", s);
    if r9.Done? then Done("", TagCreatorTagId(r9.value, Main)) else
    var r10 := WithRest("(alias)", s);
    if r10.Done? then Done("", TagCreatorTagId(r10.value, Alias)) else
    var r11 := WithRest("(embed)", s);
    if r11.Done? then Done("", SearchByEmbedding(r11.value)) else Fail(s)
  }

  function AlternativesD(s: string): PResult<InlineQueryData> {
    if "(dup)" <= s then Done(s[5..], ListMostDuplicatedStickers)
    else if "(emo)" <= s then Done(s[5..], ListMostUsedEmojis)
    else if "(rec)" <= s then Done(s[5..], ListRecommendationModeRecommendations)
    else ContinuousTags(s)
  }

  function AlternativesE(s: string, parseEmoji: EmojiParser): (r: PResult<InlineQueryData>)
    ensures r.Done?
  {
    var r16 := IdVariant("(color:", s);
    if r16.Done? then Done(r16.rest, ListSimilarStickers(r16.value, Color)) else
    var r17 := IdVariant("(embed:", s);
    if r17.Done? then Done(r17.rest, ListSimilarStickers(r17.value, Embedding)) else
    TagsAndEmojis(s, parseEmoji)
  }

  /** `InlineQueryData::try_from`: the chosen alternative, trailing white
      space, then the end of the input; otherwise an error at the first
      unread character. */
  function Parse(s: string, parseEmoji: EmojiParser): (r: Result<InlineQueryData, ParseError>)
    ensures r.Success? <==> Ms0(Alternatives(s, parseEmoji).rest) == ""
    ensures r.Success? ==> r.value == Alternatives(s, parseEmoji).value
    ensures r.Failure? ==> r.error.rest != "" && r.error.position + |r.error.rest| == |s|
  {
    var a := Alternatives(s, parseEmoji);
    var rest := Ms0(a.rest);
    if rest == "" then Success(a.value)
    else
      assert |rest| <= |a.rest| <= |s| by { AlternativesShrink(s, parseEmoji); }
      Failure(ParseError(|s| - |rest|, rest))
  }

  /** No alternative returns more input than it was given. */
  lemma AlternativesShrink(s: string, parseEmoji: EmojiParser)
    ensures |Alternatives(s, parseEmoji).rest| <= |s|
  {
    GroupAShrinks(s);
    GroupBShrinks(s);
    GroupCShrinks(s);
    GroupDShrinks(s);
    GroupEShrinks(s, parseEmoji);
  }

  lemma GroupAShrinks(s: string)
    ensures AlternativesA(s).Done? ==> |AlternativesA(s).rest| <= |s|
  {
  }

  lemma GroupBShrinks(s: string)
    ensures AlternativesB(s).Done? ==> |AlternativesB(s).rest| <= |s|
  {
  }

  lemma GroupCShrinks(s: string)
    ensures AlternativesC(s).Done? ==> |AlternativesC(s).rest| <= |s|
  {
    if "(blacklist)" <= s {
      assert AlternativesC(s).rest == ParseTags(s[11..]).1;
    } else {
      assert AlternativesC(s).Done? ==> AlternativesC(s).rest == "";
    }
  }

  lemma GroupDShrinks(s: string)
    ensures AlternativesD(s).Done? ==> |AlternativesD(s).rest| <= |s|
  {
  }

  lemma GroupEShrinks(s: string, parseEmoji: EmojiParser)
    ensures |AlternativesE(s, parseEmoji).rest| <= |s|
  {
  }

  // ------------------------------------------------------------ round trips

  /** A sticker id or set name ends at the closing parenthesis. */
  lemma ParenEndsIds()
    ensures !IsStickerIdChar(')') && !IsSetNameChar(')')
  {
  }

  lemma EnclosedExact(prefix: string, w: string, after: string, p: char -> bool)
    requires IsWord(w, p) && !p(')')
    ensures Enclosed(prefix, Enclose(prefix, w, after), p) == Done(after, w)
  {
    var s := Enclose(prefix, w, after);
    assert s[..|prefix|] == prefix;
    assert s[|prefix|..] == w + (")" + after);
    LiteralExact(w, ")" + after, p);
    assert (")" + after)[1..] == after;
  }

  /** The title printed after `(add:{id}) ` is read back by trimming. */
  lemma TrimLeadingSpace(t: string)
    requires Trim(t) == t
    ensures Trim(" " + t) == t
  {
    assert (" " + t)[1..] == t;
    if t != "" {
      assert !IsWhiteSpace(t[0]);
    }
  }

  /** `parse_tags` reads back tags printed after a space. */
  lemma ParseTagsSpaced(tags: seq<string>)
    requires forall i :: 0 <= i < |tags| ==> IsTag(tags[i])
    ensures ParseTags(" " + Join(tags, " ")) == (tags, "")
  {
    Ms0Space(Join(tags, " "));
    if |tags| == 0 {
      assert Ms0("") == "";
    } else {
      TagCharsAreNotSpace();
      JoinStartsWithWord(tags, "");
      assert Join(tags, " ") + "" == Join(tags, " ");
      Ms0None(Join(tags, " "));
      ParseTagsExact(tags, "");
    }
  }

  /** An input that starts with none of a group's prefixes fails the whole
      group. */
  lemma AlternativesAFails(s: string)
    requires !("(s:" <= s) && !("(se:" <= s) && !("(su:" <= s) && !("(contains:" <= s) && !("(overlap:" <= s)
    ensures AlternativesA(s).Fail?
  {
  }

  lemma AlternativesBFails(s: string)
    requires !("(dates:" <= s) && !("(usersets:" <= s) && !("(settags:" <= s) && !("(add:" <= s)
    ensures AlternativesB(s).Fail?
  {
  }

  lemma AlternativesCFails(s: string)
    requires !("(blacklist)" <= s) && !("(tag)" <= s) && !("(alias)" <= s) && !("(embed)" <= s)
    ensures AlternativesC(s).Fail?
  {
  }

  lemma AlternativesDFails(s: string)
    requires !("(dup)" <= s) && !("(emo)" <= s) && !("(rec)" <= s) && !("(cont)" <= s) && !("(-cont)" <= s)
    ensures AlternativesD(s).Fail?
  {
  }

  lemma StickerInGroup(tags: seq<seq<string>>, id: string)
    requires IsStickerId(id)
    requires TagGroups(tags)
    ensures AlternativesA(Display(SearchTagsForSticker(tags, id))) == Done("", SearchTagsForSticker(tags, id))
  {
    var s := Display(SearchTagsForSticker(tags, id));
    PrefixOfAppend("(s:", id + (")" + (" " + ShowGroups(tags))));
    EnclosedExact("(s:", id, " " + ShowGroups(tags), IsStickerIdChar);
    CommaSeparatedTagsExact(tags);
  }

  lemma StickerRoundTrip(tags: seq<seq<string>>, id: string, parseEmoji: EmojiParser)
    requires IsStickerId(id)
    requires TagGroups(tags)
    ensures Alternatives(Display(SearchTagsForSticker(tags, id)), parseEmoji) == Done("", SearchTagsForSticker(tags, id))
  {
    var s := Display(SearchTagsForSticker(tags, id));
    PrefixOfAppend("(s:", id + (")" + (" " + ShowGroups(tags))));
    StickerInGroup(tags, id);
  }

  lemma SetTagInGroup(tags: seq<seq<string>>, name: string)
    requires IsSetName(name)
    requires TagGroups(tags)
    ensures AlternativesA(Display(SearchTagsForStickerSet(tags, name, SetTag))) == Done("", SearchTagsForStickerSet(tags, name, SetTag))
  {
    var s := Display(SearchTagsForStickerSet(tags, name, SetTag));
    PrefixOfAppend("(se:", name + (")" + (" " + ShowGroups(tags))));
    DifferAtPrefix("(s:", "(se:", s, 2);
    EnclosedExact("(se:", name, " " + ShowGroups(tags), IsSetNameChar);
    CommaSeparatedTagsExact(tags);
  }

  lemma SetTagRoundTrip(tags: seq<seq<string>>, name: string, parseEmoji: EmojiParser)
    requires IsSetName(name)
    requires TagGroups(tags)
    ensures Alternatives(Display(SearchTagsForStickerSet(tags, name, SetTag)), parseEmoji) == Done("", SearchTagsForStickerSet(tags, name, SetTag))
  {
    var s := Display(SearchTagsForStickerSet(tags, name, SetTag));
    PrefixOfAppend("(se:", name + (")" + (" " + ShowGroups(tags))));
    SetTagInGroup(tags, name);
  }

  lemma SetUntagInGroup(tags: seq<seq<string>>, name: string)
    requires IsSetName(name)
    requires TagGroups(tags)
    ensures AlternativesA(Display(SearchTagsForStickerSet(tags, name, SetUntag))) == Done("", SearchTagsForStickerSet(tags, name, SetUntag))
  {
    var s := Display(SearchTagsForStickerSet(tags, name, SetUntag));
    PrefixOfAppend("(su:", name + (")" + (" " + ShowGroups(tags))));
    DifferAtPrefix("(s:", "(su:", s, 2);
    DifferAtPrefix("(se:", "(su:", s, 2);
    EnclosedExact("(su:", name, " " + ShowGroups(tags), IsSetNameChar);
    CommaSeparatedTagsExact(tags);
  }

  lemma SetUntagRoundTrip(tags: seq<seq<string>>, name: string, parseEmoji: EmojiParser)
    requires IsSetName(name)
    requires TagGroups(tags)
    ensures Alternatives(Display(SearchTagsForStickerSet(tags, name, SetUntag)), parseEmoji) == Done("", SearchTagsForStickerSet(tags, name, SetUntag))
  {
    var s := Display(SearchTagsForStickerSet(tags, name, SetUntag));
    PrefixOfAppend("(su:", name + (")" + (" " + ShowGroups(tags))));
    SetUntagInGroup(tags, name);
  }

  lemma ContainsInGroup(id: string)
    requires IsStickerId(id)
    ensures AlternativesA(Display(ListAllSetsThatContainSticker(id))) == Done(" ", ListAllSetsThatContainSticker(id))
  {
    var s := Display(ListAllSetsThatContainSticker(id));
    PrefixOfAppend("(contains:", id + (")" + " "));
    DifferAtPrefix("(s:", "(contains:", s, 1);
    DifferAtPrefix("(se:", "(contains:", s, 1);
    DifferAtPrefix("(su:", "(contains:", s, 1);
    EnclosedExact("(contains:", id, " ", IsStickerIdChar);
  }

  lemma ContainsRoundTrip(id: string, parseEmoji: EmojiParser)
    requires IsStickerId(id)
    ensures Alternatives(Display(ListAllSetsThatContainSticker(id)), parseEmoji) == Done(" ", ListAllSetsThatContainSticker(id))
  {
    var s := Display(ListAllSetsThatContainSticker(id));
    PrefixOfAppend("(contains:", id + (")" + " "));
    ContainsInGroup(id);
  }

  lemma OverlapInGroup(id: string)
    requires IsStickerId(id)
    ensures AlternativesA(Display(ListOverlappingSets(id))) == Done(" ", ListOverlappingSets(id))
  {
    var s := Display(ListOverlappingSets(id));
    PrefixOfAppend("(overlap:", id + (")" + " "));
    DifferAtPrefix("(s:", "(overlap:", s, 1);
    DifferAtPrefix("(se:", "(overlap:", s, 1);
    DifferAtPrefix("(su:", "(overlap:", s, 1);
    DifferAtPrefix("(contains:", "(overlap:", s, 1);
    EnclosedExact("(overlap:", id, " ", IsStickerIdChar);
  }

  lemma OverlapRoundTrip(id: string, parseEmoji: EmojiParser)
    requires IsStickerId(id)
    ensures Alternatives(Display(ListOverlappingSets(id)), parseEmoji) == Done(" ", ListOverlappingSets(id))
  {
    var s := Display(ListOverlappingSets(id));
    PrefixOfAppend("(overlap:", id + (")" + " "));
    OverlapInGroup(id);
  }

  lemma DatesInGroup(id: string)
    requires IsStickerId(id)
    ensures AlternativesB(Display(ListSetStickersByDate(id))) == Done(" ", ListSetStickersByDate(id))
  {
    var s := Display(ListSetStickersByDate(id));
    PrefixOfAppend("(dates:", id + (")" + " "));
    EnclosedExact("(dates:", id, " ", IsStickerIdChar);
  }

  lemma DatesRoundTrip(id: string, parseEmoji: EmojiParser)
    requires IsStickerId(id)
    ensures Alternatives(Display(ListSetStickersByDate(id)), parseEmoji) == Done(" ", ListSetStickersByDate(id))
  {
    var s := Display(ListSetStickersByDate(id));
    PrefixOfAppend("(dates:", id + (")" + " "));
    DifferAtPrefix("(s:", "(dates:", s, 1);
    DifferAtPrefix("(se:", "(dates:", s, 1);
    DifferAtPrefix("(su:", "(dates:", s, 1);
    DifferAtPrefix("(contains:", "(dates:", s, 1);
    DifferAtPrefix("(overlap:", "(dates:", s, 1);
    AlternativesAFails(s);
    DatesInGroup(id);
  }

  lemma UserSetsInGroup(u: int)
    requires 0 <= u <= I64_MAX
    ensures AlternativesB(Display(SetsByUserId(u))) == Done(" ", SetsByUserId(u))
  {
    var s := Display(SetsByUserId(u));
    PrefixOfAppend("(usersets:", IntToString(u) + (")" + " "));
    DifferAtPrefix("(dates:", "(usersets:", s, 1);
    assert s[10..] == NatToString(u) + (")" + " ");
    NomUnsignedRoundTrip(u, ")" + " ", I64_MAX);
  }

  lemma UserSetsRoundTrip(u: int, parseEmoji: EmojiParser)
    requires 0 <= u <= I64_MAX
    ensures Alternatives(Display(SetsByUserId(u)), parseEmoji) == Done(" ", SetsByUserId(u))
  {
    var s := Display(SetsByUserId(u));
    PrefixOfAppend("(usersets:", IntToString(u) + (")" + " "));
    DifferAtPrefix("(s:", "(usersets:", s, 1);
    DifferAtPrefix("(se:", "(usersets:", s, 1);
    DifferAtPrefix("(su:", "(usersets:", s, 1);
    DifferAtPrefix("(contains:", "(usersets:", s, 1);
    DifferAtPrefix("(overlap:", "(usersets:", s, 1);
    AlternativesAFails(s);
    UserSetsInGroup(u);
  }

  lemma SetTagsListInGroup(id: string)
    requires IsStickerId(id)
    ensures AlternativesB(Display(ListAllTagsFromSet(id))) == Done(" ", ListAllTagsFromSet(id))
  {
    var s := Display(ListAllTagsFromSet(id));
    PrefixOfAppend("(settags:", id + (")" + " "));
    DifferAtPrefix("(dates:", "(settags:", s, 1);
    DifferAtPrefix("(usersets:", "(settags:", s, 1);
    EnclosedExact("(settags:", id, " ", IsStickerIdChar);
  }

  lemma SetTagsListRoundTrip(id: string, parseEmoji: EmojiParser)
    requires IsStickerId(id)
    ensures Alternatives(Display(ListAllTagsFromSet(id)), parseEmoji) == Done(" ", ListAllTagsFromSet(id))
  {
    var s := Display(ListAllTagsFromSet(id));
    PrefixOfAppend("(settags:", id + (")" + " "));
    DifferAtPrefix("(s:", "(settags:", s, 2);
    DifferAtPrefix("(se:", "(settags:", s, 3);
    DifferAtPrefix("(su:", "(settags:", s, 2);
    DifferAtPrefix("(contains:", "(settags:", s, 1);
    DifferAtPrefix("(overlap:", "(settags:", s, 1);
    AlternativesAFails(s);
    SetTagsListInGroup(id);
  }

  lemma AddInGroup(id: string, title: Option<string>)
    requires IsStickerId(id)
    requires title.Some? ==> title.value != "" && Trim(title.value) == title.value
    ensures AlternativesB(Display(AddToUserSet(id, title))) == Done("", AddToUserSet(id, title))
  {
    var s := Display(AddToUserSet(id, title));
    PrefixOfAppend("(add:", id + (")" + (" " + title.GetOr(""))));
    DifferAtPrefix("(dates:", "(add:", s, 1);
    DifferAtPrefix("(usersets:", "(add:", s, 1);
    DifferAtPrefix("(settags:", "(add:", s, 1);
    EnclosedExact("(add:", id, " " + title.GetOr(""), IsStickerIdChar);
    TrimLeadingSpace(title.GetOr(""));
  }

  lemma AddRoundTrip(id: string, title: Option<string>, parseEmoji: EmojiParser)
    requires IsStickerId(id)
    requires title.Some? ==> title.value != "" && Trim(title.value) == title.value
    ensures Alternatives(Display(AddToUserSet(id, title)), parseEmoji) == Done("", AddToUserSet(id, title))
  {
    var s := Display(AddToUserSet(id, title));
    PrefixOfAppend("(add:", id + (")" + (" " + title.GetOr(""))));
    DifferAtPrefix("(s:", "(add:", s, 1);
    DifferAtPrefix("(se:", "(add:", s, 1);
    DifferAtPrefix("(su:", "(add:", s, 1);
    DifferAtPrefix("(contains:", "(add:", s, 1);
    DifferAtPrefix("(overlap:", "(add:", s, 1);
    AlternativesAFails(s);
    AddInGroup(id, title);
  }

  lemma BlacklistInGroup(tags: seq<string>)
    requires forall i :: 0 <= i < |tags| ==> IsTag(tags[i])
    ensures AlternativesC(Display(SearchTagsForBlacklist(tags))) == Done("", SearchTagsForBlacklist(tags))
  {
    var s := Display(SearchTagsForBlacklist(tags));
    PrefixOfAppend("(blacklist)", " " + Join(tags, " "));
    assert s[11..] == " " + Join(tags, " ");
    ParseTagsSpaced(tags);
  }

  lemma BlacklistRoundTrip(tags: seq<string>, parseEmoji: EmojiParser)
    requires forall i :: 0 <= i < |tags| ==> IsTag(tags[i])
    ensures Alternatives(Display(SearchTagsForBlacklist(tags)), parseEmoji) == Done("", SearchTagsForBlacklist(tags))
  {
    var s := Display(SearchTagsForBlacklist(tags));
    PrefixOfAppend("(blacklist)", " " + Join(tags, " "));
    DifferAtPrefix("(s:", "(blacklist)", s, 1);
    DifferAtPrefix("(se:", "(blacklist)", s, 1);
    DifferAtPrefix("(su:", "(blacklist)", s, 1);
    DifferAtPrefix("(contains:", "(blacklist)", s, 1);
    DifferAtPrefix("(overlap:", "(blacklist)", s, 1);
    AlternativesAFails(s);
    DifferAtPrefix("(dates:", "(blacklist)", s, 1);
    DifferAtPrefix("(usersets:", "(blacklist)", s, 1);
    DifferAtPrefix("(settags:", "(blacklist)", s, 1);
    DifferAtPrefix("(add:", "(blacklist)", s, 1);
    AlternativesBFails(s);
    BlacklistInGroup(tags);
  }

  lemma TagIdInGroup(id: string)
    ensures AlternativesC(Display(TagCreatorTagId(id, Main))) == Done("", TagCreatorTagId(" " + id, Main))
  {
    var s := Display(TagCreatorTagId(id, Main));
    PrefixOfAppend("(tag)", " " + id);
    DifferAtPrefix("(blacklist)", "(tag)", s, 1);
    assert s[5..] == " " + id;
  }

  lemma TagIdRoundTrip(id: string, parseEmoji: EmojiParser)
    ensures Alternatives(Display(TagCreatorTagId(id, Main)), parseEmoji) == Done("", TagCreatorTagId(" " + id, Main))
  {
    var s := Display(TagCreatorTagId(id, Main));
    PrefixOfAppend("(tag)", " " + id);
    DifferAtPrefix("(s:", "(tag)", s, 1);
    DifferAtPrefix("(se:", "(tag)", s, 1);
    DifferAtPrefix("(su:", "(tag)", s, 1);
    DifferAtPrefix("(contains:", "(tag)", s, 1);
    DifferAtPrefix("(overlap:", "(tag)", s, 1);
    AlternativesAFails(s);
    DifferAtPrefix("(dates:", "(tag)", s, 1);
    DifferAtPrefix("(usersets:", "(tag)", s, 1);
    DifferAtPrefix("(settags:", "(tag)", s, 1);
    DifferAtPrefix("(add:", "(tag)", s, 1);
    AlternativesBFails(s);
    TagIdInGroup(id);
  }

  lemma AliasIdInGroup(id: string)
    ensures AlternativesC(Display(TagCreatorTagId(id, Alias))) == Done("", TagCreatorTagId(" " + id, Alias))
  {
    var s := Display(TagCreatorTagId(id, Alias));
    PrefixOfAppend("(alias)", " " + id);
    DifferAtPrefix("(blacklist)", "(alias)", s, 1);
    DifferAtPrefix("(tag)", "(alias)", s, 1);
    assert s[7..] == " " + id;
  }

  lemma AliasIdRoundTrip(id: string, parseEmoji: EmojiParser)
    ensures Alternatives(Display(TagCreatorTagId(id, Alias)), parseEmoji) == Done("", TagCreatorTagId(" " + id, Alias))
  {
    var s := Display(TagCreatorTagId(id, Alias));
    PrefixOfAppend("(alias)", " " + id);
    DifferAtPrefix("(s:", "(alias)", s, 1);
    DifferAtPrefix("(se:", "(alias)", s, 1);
    DifferAtPrefix("(su:", "(alias)", s, 1);
    DifferAtPrefix("(contains:", "(alias)", s, 1);
    DifferAtPrefix("(overlap:", "(alias)", s, 1);
    AlternativesAFails(s);
    DifferAtPrefix("(dates:", "(alias)", s, 1);
    DifferAtPrefix("(usersets:", "(alias)", s, 1);
    DifferAtPrefix("(settags:", "(alias)", s, 1);
    DifferAtPrefix("(add:", "(alias)", s, 2);
    AlternativesBFails(s);
    AliasIdInGroup(id);
  }

  lemma EmbeddingInGroup(q: string)
    ensures AlternativesC(Display(SearchByEmbedding(q))) == Done("", SearchByEmbedding(" " + q))
  {
    var s := Display(SearchByEmbedding(q));
    PrefixOfAppend("(embed)", " " + q);
    DifferAtPrefix("(blacklist)", "(embed)", s, 1);
    DifferAtPrefix("(tag)", "(embed)", s, 1);
    DifferAtPrefix("(alias)", "(embed)", s, 1);
    assert s[7..] == " " + q;
  }

  lemma EmbeddingRoundTrip(q: string, parseEmoji: EmojiParser)
    ensures Alternatives(Display(SearchByEmbedding(q)), parseEmoji) == Done("", SearchByEmbedding(" " + q))
  {
    var s := Display(SearchByEmbedding(q));
    PrefixOfAppend("(embed)", " " + q);
    DifferAtPrefix("(s:", "(embed)", s, 1);
    DifferAtPrefix("(se:", "(embed)", s, 1);
    DifferAtPrefix("(su:", "(embed)", s, 1);
    DifferAtPrefix("(contains:", "(embed)", s, 1);
    DifferAtPrefix("(overlap:", "(embed)", s, 1);
    AlternativesAFails(s);
    DifferAtPrefix("(dates:", "(embed)", s, 1);
    DifferAtPrefix("(usersets:", "(embed)", s, 1);
    DifferAtPrefix("(settags:", "(embed)", s, 1);
    DifferAtPrefix("(add:", "(embed)", s, 1);
    AlternativesBFails(s);
    EmbeddingInGroup(q);
  }

  lemma DuplicatedInGroup()
    ensures AlternativesD(Display(ListMostDuplicatedStickers)) == Done(" ", ListMostDuplicatedStickers)
  {
    var s := Display(ListMostDuplicatedStickers);
    PrefixOfAppend("(dup)", " ");
    assert s[5..] == " ";
  }

  lemma DuplicatedRoundTrip(parseEmoji: EmojiParser)
    ensures Alternatives(Display(ListMostDuplicatedStickers), parseEmoji) == Done(" ", ListMostDuplicatedStickers)
  {
    var s := Display(ListMostDuplicatedStickers);
    PrefixOfAppend("(dup)", " ");
    DifferAtPrefix("(s:", "(dup)", s, 1);
    DifferAtPrefix("(se:", "(dup)", s, 1);
    DifferAtPrefix("(su:", "(dup)", s, 1);
    DifferAtPrefix("(contains:", "(dup)", s, 1);
    DifferAtPrefix("(overlap:", "(dup)", s, 1);
    AlternativesAFails(s);
    DifferAtPrefix("(dates:", "(dup)", s, 2);
    DifferAtPrefix("(usersets:", "(dup)", s, 1);
    DifferAtPrefix("(settags:", "(dup)", s, 1);
    DifferAtPrefix("(add:", "(dup)", s, 1);
    AlternativesBFails(s);
    DifferAtPrefix("(blacklist)", "(dup)", s, 1);
    DifferAtPrefix("(tag)", "(dup)", s, 1);
    DifferAtPrefix("(alias)", "(dup)", s, 1);
    DifferAtPrefix("(embed)", "(dup)", s, 1);
    AlternativesCFails(s);
    DuplicatedInGroup();
  }

  lemma MostUsedEmojisInGroup()
    ensures AlternativesD(Display(ListMostUsedEmojis)) == Done(" ", ListMostUsedEmojis)
  {
    var s := Display(ListMostUsedEmojis);
    PrefixOfAppend("(emo)", " ");
    DifferAtPrefix("(dup)", "(emo)", s, 1);
    assert s[5..] == " ";
  }

  lemma MostUsedEmojisRoundTrip(parseEmoji: EmojiParser)
    ensures Alternatives(Display(ListMostUsedEmojis), parseEmoji) == Done(" ", ListMostUsedEmojis)
  {
    var s := Display(ListMostUsedEmojis);
    PrefixOfAppend("(emo)", " ");
    DifferAtPrefix("(s:", "(emo)", s, 1);
    DifferAtPrefix("(se:", "(emo)", s, 1);
    DifferAtPrefix("(su:", "(emo)", s, 1);
    DifferAtPrefix("(contains:", "(emo)", s, 1);
    DifferAtPrefix("(overlap:", "(emo)", s, 1);
    AlternativesAFails(s);
    DifferAtPrefix("(dates:", "(emo)", s, 1);
    DifferAtPrefix("(usersets:", "(emo)", s, 1);
    DifferAtPrefix("(settags:", "(emo)", s, 1);
    DifferAtPrefix("(add:", "(emo)", s, 1);
    AlternativesBFails(s);
    DifferAtPrefix("(blacklist)", "(emo)", s, 1);
    DifferAtPrefix("(tag)", "(emo)", s, 1);
    DifferAtPrefix("(alias)", "(emo)", s, 1);
    DifferAtPrefix("(embed)", "(emo)", s, 3);
    AlternativesCFails(s);
    MostUsedEmojisInGroup();
  }

  lemma RecommendationsInGroup()
    ensures AlternativesD(Display(ListRecommendationModeRecommendations)) == Done(" ", ListRecommendationModeRecommendations)
  {
    var s := Display(ListRecommendationModeRecommendations);
    PrefixOfAppend("(rec)", " ");
    DifferAtPrefix("(dup)", "(rec)", s, 1);
    DifferAtPrefix("(emo)", "(rec)", s, 1);
    assert s[5..] == " ";
  }

  lemma RecommendationsRoundTrip(parseEmoji: EmojiParser)
    ensures Alternatives(Display(ListRecommendationModeRecommendations), parseEmoji) == Done(" ", ListRecommendationModeRecommendations)
  {
    var s := Display(ListRecommendationModeRecommendations);
    PrefixOfAppend("(rec)", " ");
    DifferAtPrefix("(s:", "(rec)", s, 1);
    DifferAtPrefix("(se:", "(rec)", s, 1);
    DifferAtPrefix("(su:", "(rec)", s, 1);
    DifferAtPrefix("(contains:", "(rec)", s, 1);
    DifferAtPrefix("(overlap:", "(rec)", s, 1);
    AlternativesAFails(s);
    DifferAtPrefix("(dates:", "(rec)", s, 1);
    DifferAtPrefix("(usersets:", "(rec)", s, 1);
    DifferAtPrefix("(settags:", "(rec)", s, 1);
    DifferAtPrefix("(add:", "(rec)", s, 1);
    AlternativesBFails(s);
    DifferAtPrefix("(blacklist)", "(rec)", s, 1);
    DifferAtPrefix("(tag)", "(rec)", s, 1);
    DifferAtPrefix("(alias)", "(rec)", s, 1);
    DifferAtPrefix("(embed)", "(rec)", s, 1);
    AlternativesCFails(s);
    RecommendationsInGroup();
  }

  lemma ContTagInGroup(tags: seq<seq<string>>)
    requires TagGroups(tags)
    ensures AlternativesD(Display(SearchTagsForContinuousTagMode(tags, SetTag))) == Done("", SearchTagsForContinuousTagMode(tags, SetTag))
  {
    var s := Display(SearchTagsForContinuousTagMode(tags, SetTag));
    PrefixOfAppend("(cont)", " " + ShowGroups(tags));
    DifferAtPrefix("(dup)", "(cont)", s, 1);
    DifferAtPrefix("(emo)", "(cont)", s, 1);
    DifferAtPrefix("(rec)", "(cont)", s, 1);
    assert s[6..] == " " + ShowGroups(tags);
    CommaSeparatedTagsExact(tags);
  }

  lemma ContTagRoundTrip(tags: seq<seq<string>>, parseEmoji: EmojiParser)
    requires TagGroups(tags)
    ensures Alternatives(Display(SearchTagsForContinuousTagMode(tags, SetTag)), parseEmoji) == Done("", SearchTagsForContinuousTagMode(tags, SetTag))
  {
    var s := Display(SearchTagsForContinuousTagMode(tags, SetTag));
    PrefixOfAppend("(cont)", " " + ShowGroups(tags));
    DifferAtPrefix("(s:", "(cont)", s, 1);
    DifferAtPrefix("(se:", "(cont)", s, 1);
    DifferAtPrefix("(su:", "(cont)", s, 1);
    DifferAtPrefix("(contains:", "(cont)", s, 5);
    DifferAtPrefix("(overlap:", "(cont)", s, 1);
    AlternativesAFails(s);
    DifferAtPrefix("(dates:", "(cont)", s, 1);
    DifferAtPrefix("(usersets:", "(cont)", s, 1);
    DifferAtPrefix("(settags:", "(cont)", s, 1);
    DifferAtPrefix("(add:", "(cont)", s, 1);
    AlternativesBFails(s);
    DifferAtPrefix("(blacklist)", "(cont)", s, 1);
    DifferAtPrefix("(tag)", "(cont)", s, 1);
    DifferAtPrefix("(alias)", "(cont)", s, 1);
    DifferAtPrefix("(embed)", "(cont)", s, 1);
    AlternativesCFails(s);
    ContTagInGroup(tags);
  }

  lemma ContUntagInGroup(tags: seq<seq<string>>)
    requires TagGroups(tags)
    ensures AlternativesD(Display(SearchTagsForContinuousTagMode(tags, SetUntag))) == Done("", SearchTagsForContinuousTagMode(tags, SetUntag))
  {
    var s := Display(SearchTagsForContinuousTagMode(tags, SetUntag));
    PrefixOfAppend("(-cont)", " " + ShowGroups(tags));
    DifferAtPrefix("(dup)", "(-cont)", s, 1);
    DifferAtPrefix("(emo)", "(-cont)", s, 1);
    DifferAtPrefix("(rec)", "(-cont)", s, 1);
    DifferAtPrefix("(cont)", "(-cont)", s, 1);
    assert s[7..] == " " + ShowGroups(tags);
    CommaSeparatedTagsExact(tags);
  }

  lemma ContUntagRoundTrip(tags: seq<seq<string>>, parseEmoji: EmojiParser)
    requires TagGroups(tags)
    ensures Alternatives(Display(SearchTagsForContinuousTagMode(tags, SetUntag)), parseEmoji) == Done("", SearchTagsForContinuousTagMode(tags, SetUntag))
  {
    var s := Display(SearchTagsForContinuousTagMode(tags, SetUntag));
    PrefixOfAppend("(-cont)", " " + ShowGroups(tags));
    DifferAtPrefix("(s:", "(-cont)", s, 1);
    DifferAtPrefix("(se:", "(-cont)", s, 1);
    DifferAtPrefix("(su:", "(-cont)", s, 1);
    DifferAtPrefix("(contains:", "(-cont)", s, 1);
    DifferAtPrefix("(overlap:", "(-cont)", s, 1);
    AlternativesAFails(s);
    DifferAtPrefix("(dates:", "(-cont)", s, 1);
    DifferAtPrefix("(usersets:", "(-cont)", s, 1);
    DifferAtPrefix("(settags:", "(-cont)", s, 1);
    DifferAtPrefix("(add:", "(-cont)", s, 1);
    AlternativesBFails(s);
    DifferAtPrefix("(blacklist)", "(-cont)", s, 1);
    DifferAtPrefix("(tag)", "(-cont)", s, 1);
    DifferAtPrefix("(alias)", "(-cont)", s, 1);
    DifferAtPrefix("(embed)", "(-cont)", s, 1);
    AlternativesCFails(s);
    ContUntagInGroup(tags);
  }

  lemma ColorInGroup(id: string, parseEmoji: EmojiParser)
    requires IsStickerId(id)
    ensures AlternativesE(Display(ListSimilarStickers(id, Color)), parseEmoji) == Done(" ", ListSimilarStickers(id, Color))
  {
    var s := Display(ListSimilarStickers(id, Color));
    PrefixOfAppend("(color:", id + (")" + " "));
    EnclosedExact("(color:", id, " ", IsStickerIdChar);
    ColorFirst(s, id, parseEmoji);
  }

  /** A colour search read by the first alternative of the last group is
      that group's result. */
  lemma ColorFirst(s: string, id: string, parseEmoji: EmojiParser)
    requires Enclosed("(color:", s, IsStickerIdChar) == Done(" ", id)
    ensures AlternativesE(s, parseEmoji) == Done(" ", ListSimilarStickers(id, Color))
  {
  }

  lemma ColorRoundTrip(id: string, parseEmoji: EmojiParser)
    requires IsStickerId(id)
    ensures Alternatives(Display(ListSimilarStickers(id, Color)), parseEmoji) == Done(" ", ListSimilarStickers(id, Color))
  {
    var s := Display(ListSimilarStickers(id, Color));
    PrefixOfAppend("(color:", id + (")" + " "));
    DifferAtPrefix("(s:", "(color:", s, 1);
    DifferAtPrefix("(se:", "(color:", s, 1);
    DifferAtPrefix("(su:", "(color:", s, 1);
    DifferAtPrefix("(contains:", "(color:", s, 3);
    DifferAtPrefix("(overlap:", "(color:", s, 1);
    AlternativesAFails(s);
    DifferAtPrefix("(dates:", "(color:", s, 1);
    DifferAtPrefix("(usersets:", "(color:", s, 1);
    DifferAtPrefix("(settags:", "(color:", s, 1);
    DifferAtPrefix("(add:", "(color:", s, 1);
    AlternativesBFails(s);
    DifferAtPrefix("(blacklist)", "(color:", s, 1);
    DifferAtPrefix("(tag)", "(color:", s, 1);
    DifferAtPrefix("(alias)", "(color:", s, 1);
    DifferAtPrefix("(embed)", "(color:", s, 1);
    AlternativesCFails(s);
    DifferAtPrefix("(dup)", "(color:", s, 1);
    DifferAtPrefix("(emo)", "(color:", s, 1);
    DifferAtPrefix("(rec)", "(color:", s, 1);
    DifferAtPrefix("(cont)", "(color:", s, 3);
    DifferAtPrefix("(-cont)", "(color:", s, 1);
    AlternativesDFails(s);
    ColorInGroup(id, parseEmoji);
  }

  lemma EmbeddingSimilarInGroup(id: string, parseEmoji: EmojiParser)
    requires IsStickerId(id)
    ensures AlternativesE(Display(ListSimilarStickers(id, Embedding)), parseEmoji) == Done(" ", ListSimilarStickers(id, Embedding))
  {
    var s := Display(ListSimilarStickers(id, Embedding));
    PrefixOfAppend("(embed:", id + (")" + " "));
    DifferAtPrefix("(color:", "(embed:", s, 1);
    EnclosedExact("(embed:", id, " ", IsStickerIdChar);
  }

  lemma EmbeddingSimilarRoundTrip(id: string, parseEmoji: EmojiParser)
    requires IsStickerId(id)
    ensures Alternatives(Display(ListSimilarStickers(id, Embedding)), parseEmoji) == Done(" ", ListSimilarStickers(id, Embedding))
  {
    var s := Display(ListSimilarStickers(id, Embedding));
    PrefixOfAppend("(embed:", id + (")" + " "));
    DifferAtPrefix("(s:", "(embed:", s, 1);
    DifferAtPrefix("(se:", "(embed:", s, 1);
    DifferAtPrefix("(su:", "(embed:", s, 1);
    DifferAtPrefix("(contains:", "(embed:", s, 1);
    DifferAtPrefix("(overlap:", "(embed:", s, 1);
    AlternativesAFails(s);
    DifferAtPrefix("(dates:", "(embed:", s, 1);
    DifferAtPrefix("(usersets:", "(embed:", s, 1);
    DifferAtPrefix("(settags:", "(embed:", s, 1);
    DifferAtPrefix("(add:", "(embed:", s, 1);
    AlternativesBFails(s);
    DifferAtPrefix("(blacklist)", "(embed:", s, 1);
    DifferAtPrefix("(tag)", "(embed:", s, 1);
    DifferAtPrefix("(alias)", "(embed:", s, 1);
    DifferAtPrefix("(embed)", "(embed:", s, 6);
    AlternativesCFails(s);
    DifferAtPrefix("(dup)", "(embed:", s, 1);
    DifferAtPrefix("(emo)", "(embed:", s, 3);
    DifferAtPrefix("(rec)", "(embed:", s, 1);
    DifferAtPrefix("(cont)", "(embed:", s, 1);
    DifferAtPrefix("(-cont)", "(embed:", s, 1);
    AlternativesDFails(s);
    EmbeddingSimilarInGroup(id, parseEmoji);
  }

  // --------------------------------------------------- tag and emoji search

  function ItemText(it: Item): (t: string)
    ensures it.EmojiItem? ==> t == ToStringWithVariant(it.emoji)
    ensures it.TagItem? ==> t == it.tag
  {
    match it
    case TagItem(t) => t
    case EmojiItem(e) => ToStringWithVariant(e)
  }

  function ItemTexts(its: seq<Item>): (r: seq<string>)
    ensures |r| == |its|
    ensures forall i :: 0 <= i < |its| ==> r[i] == ItemText(its[i])
  {
    if |its| == 0 then [] else [ItemText(its[0])] + ItemTexts(its[1..])
  }

  function EmojiItems(es: seq<Emoji>): (r: seq<Item>)
    ensures |r| == |es|
    ensures forall i :: 0 <= i < |es| ==> r[i] == EmojiItem(es[i])
  {
    if |es| == 0 then [] else [EmojiItem(es[0])] + EmojiItems(es[1..])
  }

  function TagItems(ts: seq<string>): (r: seq<Item>)
    ensures |r| == |ts|
    ensures forall i :: 0 <= i < |ts| ==> r[i] == TagItem(ts[i])
  {
    if |ts| == 0 then [] else [TagItem(ts[0])] + TagItems(ts[1..])
  }

  /** An emoji the recogniser reads back from its printed form when white
      space or nothing follows, and whose text no tag or white space starts. */
  ghost predicate EmojiReadsBack(e: Emoji, parseEmoji: EmojiParser) {
    var t := ToStringWithVariant(e);
    && !IsTagChar(t[0]) && !IsMultispace(t[0])
    && parseEmoji(t) == Done("", e)
    && parseEmoji(t + " ") == Done(" ", e)
    && forall r: string :: |r| > 0 && IsMultispace(r[0]) ==> parseEmoji(t + r) == Done(r, e)
  }

  ghost predicate ReadsBack(it: Item, parseEmoji: EmojiParser) {
    match it
    case TagItem(t) => IsTag(t)
    case EmojiItem(e) => EmojiReadsBack(e, parseEmoji)
  }

  /** What may follow an item: nothing, or white space. */
  predicate Separated(r: string) { |r| == 0 || IsMultispace(r[0]) }

  lemma ReadItemExact(it: Item, r: string, parseEmoji: EmojiParser)
    requires ReadsBack(it, parseEmoji) && Separated(r)
    ensures ReadItem(ItemText(it) + r, parseEmoji) == Done(r, it)
  {
    TagCharsAreNotSpace();
    match it {
      case TagItem(t) =>
        LiteralExact(t, r, IsTagChar);
      case EmojiItem(e) =>
        var t := ToStringWithVariant(e);
        assert (t + r)[0] == t[0];
        if r == "" {
          assert t + r == t;
        }
    }
  }

  /** The first character of a printed item is no white space. */
  lemma ItemStart(it: Item, parseEmoji: EmojiParser)
    requires ReadsBack(it, parseEmoji)
    ensures |ItemText(it)| > 0 && !IsMultispace(ItemText(it)[0])
  {
    TagCharsAreNotSpace();
  }

  lemma MoreItemsStep(it: Item, tail: string, parseEmoji: EmojiParser)
    requires ReadsBack(it, parseEmoji) && Separated(tail)
    ensures MoreItems(" " + (ItemText(it) + tail), parseEmoji)
         == ([it] + MoreItems(tail, parseEmoji).0, MoreItems(tail, parseEmoji).1)
  {
    var x := ItemText(it) + tail;
    ItemStart(it, parseEmoji);
    assert x[0] == ItemText(it)[0];
    SpanOne(x, IsMultispace);
    assert (" " + x)[1..] == x;
    ReadItemExact(it, tail, parseEmoji);
  }

  /** After the last item, only a blank or nothing remains. */
  lemma NoMoreItems(r: string, parseEmoji: EmojiParser)
    requires r == "" || r == " "
    ensures MoreItems(r, parseEmoji) == ([], r)
  {
    if r == " " {
      assert r[1..] == "";
      assert !IsTagChar(' ') by { TagCharsAreNotSpace(); }
    }
  }

  lemma {:induction false} MoreItemsExact(its: seq<Item>, rest: string, parseEmoji: EmojiParser)
    requires forall i :: 0 <= i < |its| ==> ReadsBack(its[i], parseEmoji)
    requires rest == "" || rest == " "
    ensures |its| > 0 ==> MoreItems(" " + (Join(ItemTexts(its), " ") + rest), parseEmoji) == (its, rest)
    decreases |its|
  {
    if |its| == 1 {
      OneMoreItem(its, rest, parseEmoji);
    } else if |its| > 1 {
      MoreItemsExact(its[1..], rest, parseEmoji);
      MoreItemsCons(its, rest, parseEmoji);
    }
  }

  lemma OneMoreItem(its: seq<Item>, rest: string, parseEmoji: EmojiParser)
    requires |its| == 1 && ReadsBack(its[0], parseEmoji)
    requires rest == "" || rest == " "
    ensures MoreItems(" " + (Join(ItemTexts(its), " ") + rest), parseEmoji) == (its, rest)
  {
    assert Join(ItemTexts(its), " ") == ItemText(its[0]);
    NoMoreItems(rest, parseEmoji);
    MoreItemsStep(its[0], rest, parseEmoji);
    assert [its[0]] + [] == its;
  }

  /** Peels the first item off the printed list. */
  lemma TextsCons(its: seq<Item>, rest: string)
    requires |its| > 1
    ensures Join(ItemTexts(its), " ") + rest
         == ItemText(its[0]) + (" " + (Join(ItemTexts(its[1..]), " ") + rest))
  {
    var ws := ItemTexts(its);
    assert ws[1..] == ItemTexts(its[1..]);
    JoinCons(ws, rest);
  }

  lemma MoreItemsCons(its: seq<Item>, rest: string, parseEmoji: EmojiParser)
    requires |its| > 1 && ReadsBack(its[0], parseEmoji)
    requires MoreItems(" " + (Join(ItemTexts(its[1..]), " ") + rest), parseEmoji) == (its[1..], rest)
    ensures MoreItems(" " + (Join(ItemTexts(its), " ") + rest), parseEmoji) == (its, rest)
  {
    var tail := " " + (Join(ItemTexts(its[1..]), " ") + rest);
    TextsCons(its, rest);
    assert Separated(tail) by { assert tail[0] == ' '; }
    MoreItemsConsStep(" " + (Join(ItemTexts(its), " ") + rest), its, tail, rest, parseEmoji);
  }

  lemma MoreItemsConsStep(whole: string, its: seq<Item>, tail: string, rest: string, parseEmoji: EmojiParser)
    requires |its| > 0 && whole == " " + (ItemText(its[0]) + tail)
    requires ReadsBack(its[0], parseEmoji) && Separated(tail)
    requires MoreItems(tail, parseEmoji) == (its[1..], rest)
    ensures MoreItems(whole, parseEmoji) == (its, rest)
  {
    MoreItemsStep(its[0], tail, parseEmoji);
    assert [its[0]] + its[1..] == its;
  }

  /** Items printed with single spaces between them are read back, in
      order, up to a trailing blank. */
  lemma ItemsExact(its: seq<Item>, rest: string, parseEmoji: EmojiParser)
    requires forall i :: 0 <= i < |its| ==> ReadsBack(its[i], parseEmoji)
    requires rest == "" || (rest == " " && |its| > 0)
    ensures Items(Join(ItemTexts(its), " ") + rest, parseEmoji) == (its, rest)
  {
    if |its| == 0 {
      NoItems(parseEmoji);
    } else if |its| == 1 {
      OneItem(its, rest, parseEmoji);
    } else {
      MoreItemsExact(its[1..], rest, parseEmoji);
      ItemsCons(its, rest, parseEmoji);
    }
  }

  lemma NoItems(parseEmoji: EmojiParser)
    ensures Items(Join(ItemTexts([]), " ") + "", parseEmoji) == ([], "")
  {
    assert Join(ItemTexts([]), " ") + "" == "";
  }

  lemma OneItem(its: seq<Item>, rest: string, parseEmoji: EmojiParser)
    requires |its| == 1 && ReadsBack(its[0], parseEmoji)
    requires rest == "" || rest == " "
    ensures Items(Join(ItemTexts(its), " ") + rest, parseEmoji) == (its, rest)
  {
    assert Join(ItemTexts(its), " ") == ItemText(its[0]);
    ReadItemExact(its[0], rest, parseEmoji);
    NoMoreItems(rest, parseEmoji);
    assert [its[0]] + [] == its;
  }

  lemma ItemsCons(its: seq<Item>, rest: string, parseEmoji: EmojiParser)
    requires |its| > 1 && ReadsBack(its[0], parseEmoji)
    requires MoreItems(" " + (Join(ItemTexts(its[1..]), " ") + rest), parseEmoji) == (its[1..], rest)
    ensures Items(Join(ItemTexts(its), " ") + rest, parseEmoji) == (its, rest)
  {
    var tail := " " + (Join(ItemTexts(its[1..]), " ") + rest);
    TextsCons(its, rest);
    ReadItemExact(its[0], tail, parseEmoji);
    ItemsStep(ItemText(its[0]) + tail, its, tail, rest, parseEmoji);
  }

  /** An item read first, then the further items. */
  lemma ItemsStep(s: string, its: seq<Item>, tail: string, rest: string, parseEmoji: EmojiParser)
    requires |its| > 0 && ReadItem(s, parseEmoji) == Done(tail, its[0])
    requires MoreItems(tail, parseEmoji) == (its[1..], rest)
    ensures Items(s, parseEmoji) == (its, rest)
  {
    assert [its[0]] + its[1..] == its;
  }

  lemma {:induction false} TagsOfAppend(a: seq<Item>, b: seq<Item>)
    ensures TagsOf(a + b) == TagsOf(a) + TagsOf(b)
    ensures EmojisOf(a + b) == EmojisOf(a) + EmojisOf(b)
    decreases |a|
  {
    if |a| > 0 {
      assert (a + b)[1..] == a[1..] + b;
      TagsOfAppend(a[1..], b);
    } else {
      assert a + b == b;
    }
  }

  lemma {:induction false} TagsOfEmojiItems(es: seq<Emoji>)
    ensures TagsOf(EmojiItems(es)) == [] && EmojisOf(EmojiItems(es)) == es
    decreases |es|
  {
    if |es| > 0 {
      assert EmojiItems(es)[1..] == EmojiItems(es[1..]);
      TagsOfEmojiItems(es[1..]);
      assert [es[0]] + es[1..] == es;
    }
  }

  lemma {:induction false} TagsOfTagItems(ts: seq<string>)
    ensures TagsOf(TagItems(ts)) == ts && EmojisOf(TagItems(ts)) == []
    decreases |ts|
  {
    if |ts| > 0 {
      assert TagItems(ts)[1..] == TagItems(ts[1..]);
      TagsOfTagItems(ts[1..]);
      assert [ts[0]] + ts[1..] == ts;
    }
  }

  /** `Join` over a concatenation of two non-empty lists. */
  lemma {:induction false} JoinAppend(a: seq<string>, b: seq<string>)
    requires |a| > 0 && |b| > 0
    ensures Join(a + b, " ") == Join(a, " ") + " " + Join(b, " ")
    decreases |a|
  {
    if |a| == 1 {
      assert (a + b)[1..] == b;
    } else {
      assert (a + b)[1..] == a[1..] + b;
      JoinAppend(a[1..], b);
    }
  }

  lemma JoinNonEmpty(a: seq<string>)
    requires |a| > 0 && |a[0]| > 0
    ensures |Join(a, " ")| > 0 && Join(a, " ")[0] == a[0][0]
  {
    if |a| > 1 {
      assert Join(a, " ") == a[0] + (" " + Join(a[1..], " "));
    }
  }

  /** The search mode prints its emojis, then its tags, as one list of
      items; a lone blank follows when there are emojis but no tags. */
  function SearchItems(tags: seq<string>, emoji: seq<Emoji>): seq<Item> {
    EmojiItems(emoji) + TagItems(tags)
  }

  function SearchTrailer(tags: seq<string>, emoji: seq<Emoji>): string {
    if |emoji| > 0 && |tags| == 0 then " " else ""
  }

  lemma ItemTextsAppend(a: seq<Item>, b: seq<Item>)
    ensures ItemTexts(a + b) == ItemTexts(a) + ItemTexts(b)
  {
  }

  lemma SearchTexts(tags: seq<string>, emoji: seq<Emoji>)
    ensures ItemTexts(SearchItems(tags, emoji)) == EmojiTexts(emoji) + tags
  {
    ItemTextsAppend(EmojiItems(emoji), TagItems(tags));
    assert ItemTexts(EmojiItems(emoji)) == EmojiTexts(emoji);
    assert ItemTexts(TagItems(tags)) == tags;
  }

  lemma SearchDisplay(tags: seq<string>, emoji: seq<Emoji>)
    ensures Display(SearchStickers(tags, emoji))
         == Join(ItemTexts(SearchItems(tags, emoji)), " ") + SearchTrailer(tags, emoji)
  {
    SearchTexts(tags, emoji);
    var et := EmojiTexts(emoji);
    if |emoji| == 0 {
      assert et + tags == tags;
    } else if |tags| == 0 {
      EmojisOnlyDisplay(emoji);
    } else {
      JoinNonEmpty(et);
      JoinAppend(et, tags);
    }
  }

  lemma EmojisOnlyDisplay(emoji: seq<Emoji>)
    requires |emoji| > 0
    ensures Display(SearchStickers([], emoji)) == Join(EmojiTexts(emoji) + [], " ") + " "
  {
    var et := EmojiTexts(emoji);
    JoinNonEmpty(et);
    assert et + [] == et;
    assert Join([], " ") == "";
  }

  ghost predicate SearchReadsBack(tags: seq<string>, emoji: seq<Emoji>, parseEmoji: EmojiParser) {
    && (forall i :: 0 <= i < |tags| ==> IsTag(tags[i]))
    && (forall i :: 0 <= i < |emoji| ==> EmojiReadsBack(emoji[i], parseEmoji))
    && (|emoji| == 0 && |tags| > 0 ==> tags[0][0] != '(')
  }

  /** No prefix of the parenthesised modes starts a string that does not
      start with `(`. */
  lemma NoParen(s: string)
    requires |s| == 0 || s[0] != '('
    ensures AlternativesA(s).Fail? && AlternativesB(s).Fail?
    ensures AlternativesC(s).Fail? && AlternativesD(s).Fail?
  {
    AlternativesAFails(s);
    AlternativesBFails(s);
    AlternativesCFails(s);
    AlternativesDFails(s);
  }

  lemma SearchItemsReadBack(tags: seq<string>, emoji: seq<Emoji>, parseEmoji: EmojiParser)
    requires SearchReadsBack(tags, emoji, parseEmoji)
    ensures forall i :: 0 <= i < |SearchItems(tags, emoji)| ==> ReadsBack(SearchItems(tags, emoji)[i], parseEmoji)
  {
    var its := SearchItems(tags, emoji);
    forall i | 0 <= i < |its| ensures ReadsBack(its[i], parseEmoji) {
      if i < |emoji| {
        assert its[i] == EmojiItem(emoji[i]);
      } else {
        assert its[i] == TagItem(tags[i - |emoji|]);
      }
    }
  }

  /** The printed search starts with neither white space nor `(`. */
  lemma SearchStart(tags: seq<string>, emoji: seq<Emoji>, parseEmoji: EmojiParser)
    requires SearchReadsBack(tags, emoji, parseEmoji)
    ensures var s := Display(SearchStickers(tags, emoji));
            |s| == 0 || (s[0] != '(' && !IsMultispace(s[0]))
  {
    var its := SearchItems(tags, emoji);
    SearchDisplay(tags, emoji);
    SearchItemsReadBack(tags, emoji, parseEmoji);
    if |its| > 0 {
      ItemStart(its[0], parseEmoji);
      JoinNonEmpty(ItemTexts(its));
      if |emoji| > 0 {
        assert its[0] == EmojiItem(emoji[0]);
        assert IsTagChar('(');
      } else {
        assert its[0] == TagItem(tags[0]);
      }
    }
  }

  /** An input starting with neither white space nor `(` is a search. */
  lemma PlainIsSearch(s: string, parseEmoji: EmojiParser)
    requires |s| == 0 || (s[0] != '(' && !IsMultispace(s[0]))
    ensures Alternatives(s, parseEmoji) == Done(Ms0(Items(s, parseEmoji).1), SearchStickers(TagsOf(Items(s, parseEmoji).0), EmojisOf(Items(s, parseEmoji).0)))
  {
    NoParen(s);
    assert IdVariant("(color:", s).Fail? && IdVariant("(embed:", s).Fail?;
    Ms0None(s);
  }

  lemma SearchSplit(tags: seq<string>, emoji: seq<Emoji>)
    ensures TagsOf(SearchItems(tags, emoji)) == tags && EmojisOf(SearchItems(tags, emoji)) == emoji
  {
    TagsOfAppend(EmojiItems(emoji), TagItems(tags));
    TagsOfEmojiItems(emoji);
    TagsOfTagItems(tags);
    assert [] + tags == tags && emoji + [] == emoji;
  }

  /** A search with tags and emojis is printed and parsed back, provided no
      tag at the start looks like a mode prefix. */
  lemma SearchRoundTrip(tags: seq<string>, emoji: seq<Emoji>, parseEmoji: EmojiParser)
    requires SearchReadsBack(tags, emoji, parseEmoji)
    ensures Alternatives(Display(SearchStickers(tags, emoji)), parseEmoji)
         == Done("", SearchStickers(tags, emoji))
  {
    var its := SearchItems(tags, emoji);
    var rest := SearchTrailer(tags, emoji);
    var s := Display(SearchStickers(tags, emoji));
    SearchStart(tags, emoji, parseEmoji);
    PlainIsSearch(s, parseEmoji);
    SearchDisplay(tags, emoji);
    SearchItemsReadBack(tags, emoji, parseEmoji);
    ItemsExact(its, rest, parseEmoji);
    SearchSplit(tags, emoji);
    Ms0Space("");
  }

  // ------------------------------------------------------ the whole query

  /** The fields the grammar reads back. Free-text fields (a tag id, an
      embedding query) are read up to the end of the input and therefore
      keep the blank the printer puts after the mode. */
  function Reparsed(d: InlineQueryData): InlineQueryData {
    match d
    case TagCreatorTagId(id, kind) => TagCreatorTagId(" " + id, kind)
    case SearchByEmbedding(q) => SearchByEmbedding(" " + q)
    case _ => d
  }

  /** The conditions under which printing a query and parsing it back gives
      `Reparsed` of it: ids, set names and tags satisfy their grammars, a
      title has no surrounding white space, a user id is a non-negative
      `i64`, and a plain search neither starts with a mode-like tag nor
      holds an emoji the recogniser misreads. */
  ghost predicate WellFormed(d: InlineQueryData, parseEmoji: EmojiParser) {
    match d
    case SearchTagsForSticker(tags, id) => IsStickerId(id) && TagGroups(tags)
    case SearchTagsForStickerSet(tags, name, _) => IsSetName(name) && TagGroups(tags)
    case SearchTagsForContinuousTagMode(tags, _) => TagGroups(tags)
    case SearchTagsForBlacklist(tags) => forall i :: 0 <= i < |tags| ==> IsTag(tags[i])
    case SearchStickers(tags, emoji) => SearchReadsBack(tags, emoji, parseEmoji)
    case ListAllTagsFromSet(id) => IsStickerId(id)
    case AddToUserSet(id, title) =>
      IsStickerId(id) && (title.Some? ==> title.value != "" && Trim(title.value) == title.value)
    case ListAllSetsThatContainSticker(id) => IsStickerId(id)
    case ListOverlappingSets(id) => IsStickerId(id)
    case ListSetStickersByDate(id) => IsStickerId(id)
    case ListSimilarStickers(id, _) => IsStickerId(id)
    case SetsByUserId(u) => 0 <= u <= I64_MAX
    case _ => true
  }

  /** Printing a well-formed query and parsing the text gives the query back
      (with the blank in front of free-text fields). */
  lemma RoundTrip(d: InlineQueryData, parseEmoji: EmojiParser)
    requires WellFormed(d, parseEmoji)
    ensures Parse(Display(d), parseEmoji) == Success(Reparsed(d))
  {
    Ms0Space("");
    match d {
      case SearchTagsForSticker(tags, id) => StickerRoundTrip(tags, id, parseEmoji);
      case SearchTagsForStickerSet(tags, name, op) =>
        if op == SetTag {
          SetTagRoundTrip(tags, name, parseEmoji);
        } else {
          SetUntagRoundTrip(tags, name, parseEmoji);
        }
      case SearchTagsForContinuousTagMode(tags, op) =>
        if op == SetTag {
          ContTagRoundTrip(tags, parseEmoji);
        } else {
          ContUntagRoundTrip(tags, parseEmoji);
        }
      case SearchTagsForBlacklist(tags) => BlacklistRoundTrip(tags, parseEmoji);
      case SearchStickers(tags, emoji) => SearchRoundTrip(tags, emoji, parseEmoji);
      case ListAllTagsFromSet(id) => SetTagsListRoundTrip(id, parseEmoji);
      case AddToUserSet(id, title) => AddRoundTrip(id, title, parseEmoji);
      case ListAllSetsThatContainSticker(id) => ContainsRoundTrip(id, parseEmoji);
      case ListOverlappingSets(id) => OverlapRoundTrip(id, parseEmoji);
      case ListSetStickersByDate(id) => DatesRoundTrip(id, parseEmoji);
      case ListSimilarStickers(id, aspect) =>
        if aspect == Color {
          ColorRoundTrip(id, parseEmoji);
        } else {
          EmbeddingSimilarRoundTrip(id, parseEmoji);
        }
      case ListMostDuplicatedStickers => DuplicatedRoundTrip(parseEmoji);
      case ListMostUsedEmojis => MostUsedEmojisRoundTrip(parseEmoji);
      case ListRecommendationModeRecommendations => RecommendationsRoundTrip(parseEmoji);
      case SearchByEmbedding(q) => EmbeddingRoundTrip(q, parseEmoji);
      case SetsByUserId(u) => UserSetsRoundTrip(u, parseEmoji);
      case TagCreatorTagId(id, kind) =>
        if kind == Main {
          TagIdRoundTrip(id, parseEmoji);
        } else {
          AliasIdRoundTrip(id, parseEmoji);
        }
    }
  }

  /** Every variant other than the two free-text ones is read back exactly. */
  lemma ReparsedExact(d: InlineQueryData, parseEmoji: EmojiParser)
    requires WellFormed(d, parseEmoji) && !d.TagCreatorTagId? && !d.SearchByEmbedding?
    ensures Parse(Display(d), parseEmoji) == Success(d)
  {
    RoundTrip(d, parseEmoji);
  }

  // ---------------------------------------------------------------- samples

  /** The printed forms of sticker queries with zero, one and two tag
      groups. */
  lemma EmptyStickerQuerySample()
    ensures Display(SearchTagsForSticker([], "asdf")) == "(s:asdf) "
  {
  }

  lemma StickerQuerySample()
    ensures Display(SearchTagsForSticker([["male", "female"]], "asdf")) == "(s:asdf) male female"
  {
    assert Join(["male", "female"], " ") == "male female";
  }

  lemma StickerQueryGroupsSample()
    ensures Display(SearchTagsForSticker([["male", "female"], ["asdf"]], "asdf")) == "(s:asdf) male female, asdf"
  {
    var gs := [["male", "female"], ["asdf"]];
    assert ShowGroups(gs) == "male female, asdf" by {
      assert gs[1..] == [["asdf"]];
      assert Join(gs[0], " ") == "male female";
      assert ShowGroups(gs[1..]) == "asdf";
      assert ShowGroups(gs) == "male female" + ", " + "asdf";
    }
    assert Display(SearchTagsForSticker(gs, "asdf")) == Enclose("(s:", "asdf", " " + "male female, asdf");
  }

  lemma SetTagSample(parseEmoji: EmojiParser)
    ensures Parse("(se:asdf) dragon uwu", parseEmoji)
         == Success(SearchTagsForStickerSet([["dragon", "uwu"]], "asdf", SetTag))
  {
    var d := SearchTagsForStickerSet([["dragon", "uwu"]], "asdf", SetTag);
    assert Join(["dragon", "uwu"], " ") == "dragon uwu";
    assert Display(d) == "(se:asdf) dragon uwu";
    assert IsTag("dragon") && IsTag("uwu") && IsSetName("asdf");
    RoundTrip(d, parseEmoji);
  }

  lemma PlainSearchSample(parseEmoji: EmojiParser)
    ensures Parse("male female", parseEmoji) == Success(SearchStickers(["male", "female"], []))
  {
    var d := SearchStickers(["male", "female"], []);
    assert Join(EmojiTexts([]), " ") == "";
    assert Join(["male", "female"], " ") == "male female";
    assert Display(d) == "male female";
    assert IsTag("male") && IsTag("female");
    RoundTrip(d, parseEmoji);
  }

  lemma BlacklistSample(parseEmoji: EmojiParser)
    ensures Parse("(blacklist) attribution", parseEmoji) == Success(SearchTagsForBlacklist(["attribution"]))
  {
    var d := SearchTagsForBlacklist(["attribution"]);
    assert Display(d) == "(blacklist) attribution";
    assert IsTag("attribution");
    RoundTrip(d, parseEmoji);
  }

  /** A query that is a single emoji the recogniser reads completely is an
      emoji search without tags. */
  lemma EmojiQuery(t: string, e: Emoji, parseEmoji: EmojiParser)
    requires |t| > 0 && !IsTagChar(t[0]) && !IsMultispace(t[0])
    requires parseEmoji(t) == Done("", e)
    ensures Parse(t, parseEmoji) == Success(SearchStickers([], [e]))
  {
    assert t[0] != '(' by { assert IsTagChar('('); }
    PlainIsSearch(t, parseEmoji);
    assert ReadItem(t, parseEmoji) == Done("", EmojiItem(e));
    assert MoreItems("", parseEmoji) == ([], "");
    assert [EmojiItem(e)] + [] == [EmojiItem(e)];
    assert Items(t, parseEmoji) == ([EmojiItem(e)], "");
    assert [EmojiItem(e)][1..] == [];
    assert TagsOf([EmojiItem(e)]) == [] && EmojisOf([EmojiItem(e)]) == [e];
  }

  /** A search for a tag that spells a mode prefix is printed as that mode:
      the tag `(dup)` comes back as the duplicate listing. */
  lemma ModeLikeTagMisread(parseEmoji: EmojiParser)
    ensures Display(SearchStickers(["(dup)"], [])) == "(dup)"
    ensures Parse("(dup)", parseEmoji) == Success(ListMostDuplicatedStickers)
  {
    var s := "(dup)";
    assert Join(EmojiTexts([]), " ") == "";
    PrefixOfAppend("(dup)", "");
    assert s == "(dup)" + "";
    DifferAtPrefix("(s:", "(dup)", s, 1);
    DifferAtPrefix("(se:", "(dup)", s, 1);
    DifferAtPrefix("(su:", "(dup)", s, 1);
    DifferAtPrefix("(contains:", "(dup)", s, 1);
    DifferAtPrefix("(overlap:", "(dup)", s, 1);
    AlternativesAFails(s);
    DifferAtPrefix("(dates:", "(dup)", s, 2);
    DifferAtPrefix("(usersets:", "(dup)", s, 1);
    DifferAtPrefix("(settags:", "(dup)", s, 1);
    DifferAtPrefix("(add:", "(dup)", s, 1);
    AlternativesBFails(s);
    DifferAtPrefix("(blacklist)", "(dup)", s, 1);
    DifferAtPrefix("(tag)", "(dup)", s, 1);
    DifferAtPrefix("(alias)", "(dup)", s, 1);
    DifferAtPrefix("(embed)", "(dup)", s, 1);
    AlternativesCFails(s);
    assert s[5..] == "";
  }

  /** A negative user id is printed but not read back as one: the digits
      after `(usersets:` are unsigned, so the text falls through to a search
      for a single tag. */
  lemma NegativeUserSetsMisread(u: int, parseEmoji: EmojiParser)
    requires u < 0
    ensures Parse(Display(SetsByUserId(u)), parseEmoji)
         == Success(SearchStickers(["(usersets:" + IntToString(u) + ")"], []))
  {
    var n := IntToString(u);
    var s := Display(SetsByUserId(u));
    var t := "(usersets:" + n + ")";
    assert s == t + " ";
    PrefixOfAppend("(usersets:", n + (")" + " "));
    assert s[10] == n[0] == '-';
    UserSetsFallsThrough(s, parseEmoji);
    UserSetsTag(u);
    Ms0None(s);
    PlainTagSearch(t, parseEmoji);
    assert [TagItem(t)][1..] == [];
    assert TagsOf([TagItem(t)]) == [t] && EmojisOf([TagItem(t)]) == [];
    Ms0Space("");
  }

  /** The printed negative-id mode is one tag. */
  lemma UserSetsTag(u: int)
    requires u < 0
    ensures IsTag("(usersets:" + IntToString(u) + ")")
  {
    var n := IntToString(u);
    var t := "(usersets:" + n + ")";
    forall i | 0 <= i < |t| ensures IsTagChar(t[i]) {
      if i < 10 {
        assert t[i] == "(usersets:"[i];
        assert forall k :: 0 <= k < 10 ==> IsTagChar("(usersets:"[k]);
      } else if i == 10 {
        assert t[i] == '-';
      } else if i < 10 + |n| {
        assert t[i] == n[1..][i - 11];
        assert AllDigits(NatToString(-u));
      } else {
        assert t[i] == ')';
      }
    }
  }

  /** `(usersets:` followed by a sign fails its alternative and every later
      one except the search. */
  lemma UserSetsFallsThrough(s: string, parseEmoji: EmojiParser)
    requires "(usersets:" <= s && |s| > 10 && s[10] == '-'
    ensures Alternatives(s, parseEmoji) == TagsAndEmojis(s, parseEmoji)
  {
    DifferAtPrefix("(s:", "(usersets:", s, 1);
    DifferAtPrefix("(se:", "(usersets:", s, 1);
    DifferAtPrefix("(su:", "(usersets:", s, 2);
    DifferAtPrefix("(contains:", "(usersets:", s, 1);
    DifferAtPrefix("(overlap:", "(usersets:", s, 1);
    AlternativesAFails(s);
    DifferAtPrefix("(dates:", "(usersets:", s, 1);
    assert UserSets(s).Fail?;
    DifferAtPrefix("(settags:", "(usersets:", s, 2);
    DifferAtPrefix("(add:", "(usersets:", s, 1);
    assert AlternativesB(s).Fail?;
    DifferAtPrefix("(blacklist)", "(usersets:", s, 1);
    DifferAtPrefix("(tag)", "(usersets:", s, 1);
    DifferAtPrefix("(alias)", "(usersets:", s, 1);
    DifferAtPrefix("(embed)", "(usersets:", s, 1);
    AlternativesCFails(s);
    DifferAtPrefix("(dup)", "(usersets:", s, 1);
    DifferAtPrefix("(emo)", "(usersets:", s, 1);
    DifferAtPrefix("(rec)", "(usersets:", s, 1);
    DifferAtPrefix("(cont)", "(usersets:", s, 1);
    DifferAtPrefix("(-cont)", "(usersets:", s, 1);
    AlternativesDFails(s);
    DifferAtPrefix("(color:", "(usersets:", s, 1);
    DifferAtPrefix("(embed:", "(usersets:", s, 1);
  }

  lemma PlainTagSearch(t: string, parseEmoji: EmojiParser)
    requires IsTag(t)
    ensures Items(t + " ", parseEmoji) == ([TagItem(t)], " ")
  {
    TagCharsAreNotSpace();
    ReadItemExact(TagItem(t), " ", parseEmoji);
    NoMoreItems(" ", parseEmoji);
    assert [TagItem(t)] + [] == [TagItem(t)];
  }
}
