/** `InlineQueryData` of the older tree: a mode chosen by an optional
    parenthesised prefix, an optional emoji (kept only by the plain search)
    and a list of tags separated by spaces. The grammar itself never fails;
    `try_from` rejects input it leaves unread. The emoji recogniser is a
    parameter. */
module LegacyInlineData {
  import opened Wrappers
  import opened Strings
  import opened Nom
  import opened Literals
  import opened Emojis
  import opened TagLists
  import I = InlineData

  datatype SimilarityAspect = Color | Shape | Embedding

  datatype Mode =
    | Sticker(uniqueId: string)
    | Set(setName: string, operation: I.SetOperation)
    | StickerSearch(emoji: Option<Emoji>)
    | Blacklist
    | ContinuousTagMode(operation: I.SetOperation)
    | Similar(uniqueId: string, aspect: SimilarityAspect)
    | EmbeddingSearch

  datatype InlineQueryData = InlineQueryData(tags: seq<string>, mode: Mode)

  predicate IsSpace(c: char) { c == ' ' }

  /** `many0(tag(" "))` */
  function Spaces(s: string): (r: string)
    ensures |r| <= |s| && (|r| == 0 || r[0] != ' ')
  {
    TakeWhile(s, IsSpace)
  }

  // ----------------------------------------------------------------- parsing

  /** The first five mode alternatives. */
  function ModeA(s: string): (r: PResult<Mode>)
    ensures r.Done? ==> !r.value.StickerSearch? && |r.rest| <= |s|
  {
    var st := I.Enclosed("(s:", s, IsStickerIdChar);
    if st.Done? then Done(st.rest, Sticker(st.value)) else
    var se := I.Enclosed("(se:", s, IsSetNameChar);
    if se.Done? then Done(se.rest, Set(se.value, I.SetTag)) else
    var su := I.Enclosed("(su:", s, IsSetNameChar);
    if su.Done? then Done(su.rest, Set(su.value, I.SetUntag)) else
    if "(blacklist)" <= s then Done(s[11..], Blacklist)
    else if "(embed)" <= s then Done(s[7..], EmbeddingSearch)
    else Fail(s)
  }

  /** The next five mode alternatives. */
  function ModeB(s: string): (r: PResult<Mode>)
    ensures r.Done? ==> !r.value.StickerSearch? && |r.rest| <= |s|
  {
    if "(cont)" <= s then Done(s[6..], ContinuousTagMode(I.SetTag))
    else if "(-cont)" <= s then Done(s[7..], ContinuousTagMode(I.SetUntag))
    else
    var co := I.Enclosed("(color:", s, IsStickerIdChar);
    if co.Done? then Done(co.rest, Similar(co.value, Color)) else
    var sh := I.Enclosed("(shape:", s, IsStickerIdChar);
    if sh.Done? then Done(sh.rest, Similar(sh.value, Shape)) else
    var em := I.Enclosed("(embed:", s, IsStickerIdChar);
    if em.Done? then Done(em.rest, Similar(em.value, Embedding)) else Fail(s)
  }

  /** The mode `alt`; its last alternative, `tag("")`, always succeeds with a
      plain search. */
  function ParseMode(s: string): (r: PResult<Mode>)
    ensures r.Done? && |r.rest| <= |s|
    ensures r.value.StickerSearch? ==> r == Done(s, StickerSearch(None))
  {
    var a := ModeA(s);
    if a.Done? then a else
    var b := ModeB(s);
    if b.Done? then b else Done(s, StickerSearch(None))
  }

  /** `parse_inline_query_data`: mode, blanks, an optional emoji, blanks,
      then tags separated by runs of blanks. Only a plain search keeps the
      emoji; for the other modes it is read and dropped. */
  function ParseQuery(s: string, parseEmoji: EmojiParser): (r: PResult<InlineQueryData>)
    ensures r.Done?
    ensures r.value.mode.StickerSearch? <==> ParseMode(s).value.StickerSearch?
    ensures forall i :: 0 <= i < |r.value.tags| ==> IsLegacyTag(r.value.tags[i])
  {
    var m := ParseMode(s);
    var s1 := Spaces(m.rest);
    var e := parseEmoji(s1);
    var emoji := if e.Done? then Some(e.value) else None;
    var s2 := Spaces(if e.Done? then e.rest else s1);
    var mode := if m.value.StickerSearch? then StickerSearch(emoji) else m.value;
    var t := SeparatedWords(s2, IsSpace, IsLegacyTagChar);
    Done(t.1, InlineQueryData(t.0, mode))
  }

  /** `InlineQueryData::try_from`: the query, unless some input is left, in
      which case the unread rest is reported. */
  function TryFrom(s: string, parseEmoji: EmojiParser): (r: Result<InlineQueryData, string>)
    ensures r.Success? <==> ParseQuery(s, parseEmoji).rest == ""
    ensures r.Success? ==> r.value == ParseQuery(s, parseEmoji).value
    ensures r.Failure? ==> r.error == ParseQuery(s, parseEmoji).rest && r.error != ""
  {
    var q := ParseQuery(s, parseEmoji);
    if q.rest == "" then Success(q.value) else Failure(q.rest)
  }

  // ---------------------------------------------------------------- printing

  function Display(d: InlineQueryData): string {
    var tags := Join(d.tags, " ");
    match d.mode
    case Sticker(id) => I.Enclose("(s:", id, " " + tags)
    case StickerSearch(emoji) => (if emoji.Some? then emoji.value.text else "") + tags
    case Blacklist => "(blacklist)" + (" " + tags)
    case Set(name, op) => I.Enclose(if op == I.SetTag then "(se:" else "(su:", name, " " + tags)
    case ContinuousTagMode(op) => (if op == I.SetTag then "(cont)" else "(-cont)") + (" " + tags)
    case Similar(id, aspect) =>
      I.Enclose(if aspect == Color then "(color:" else if aspect == Shape then "(shape:" else "(embed:", id, " " + tags)
    case EmbeddingSearch => "(embed)" + (" " + tags)
  }

  // ------------------------------------------------------------ round trips

  lemma ModeAFails(s: string)
    requires !("(s:" <= s) && !("(se:" <= s) && !("(su:" <= s) && !("(blacklist)" <= s) && !("(embed)" <= s)
    ensures ModeA(s).Fail?
  {
  }

  lemma ModeBFails(s: string)
    requires !("(cont)" <= s) && !("(-cont)" <= s) && !("(color:" <= s) && !("(shape:" <= s) && !("(embed:" <= s)
    ensures ModeB(s).Fail?
  {
  }

  /** Without a leading `(` the text is a plain search from its start. */
  lemma NoParenMode(s: string)
    requires |s| == 0 || s[0] != '('
    ensures ParseMode(s) == Done(s, StickerSearch(None))
  {
    ModeAFails(s);
    ModeBFails(s);
  }

  /** The emoji recogniser finds nothing at the start of a tag or at the end
      of the input. */
  ghost predicate NoEmojiAtTags(parseEmoji: EmojiParser) {
    forall s: string :: (|s| == 0 || IsLegacyTagChar(s[0])) ==> parseEmoji(s).Fail?
  }

  lemma SpaceIsNoTagChar()
    ensures !IsLegacyTagChar(' ') && Disjoint(IsSpace, IsLegacyTagChar)
  {
    assert forall i :: 0 <= i < |"_-()/<"| ==> "_-()/<"[i] != ' ';
  }

  /** Tags joined by single blanks are read back by the tag list. */
  lemma LegacyTagsBack(tags: seq<string>)
    requires forall i :: 0 <= i < |tags| ==> IsLegacyTag(tags[i])
    ensures SeparatedWords(Join(tags, " "), IsSpace, IsLegacyTagChar) == (tags, "")
  {
    if |tags| > 0 {
      SpaceIsNoTagChar();
      assert Join(tags, " ") + "" == Join(tags, " ");
      WordsExact(tags, IsSpace, IsLegacyTagChar, "");
    }
  }

  /** Blanks, then the tags to the end of the input. */
  lemma TagsAfterBlank(tags: seq<string>)
    requires forall i :: 0 <= i < |tags| ==> IsLegacyTag(tags[i])
    ensures Spaces(" " + Join(tags, " ")) == Join(tags, " ")
    ensures Spaces(Join(tags, " ")) == Join(tags, " ")
    ensures SeparatedWords(Join(tags, " "), IsSpace, IsLegacyTagChar) == (tags, "")
  {
    var j := Join(tags, " ");
    assert (" " + j)[1..] == j;
    if |tags| > 0 {
      JoinStartsWithWord(tags, "");
      assert j + "" == j;
      SpaceIsNoTagChar();
    }
    LegacyTagsBack(tags);
  }

  /** No emoji is found where the tags start. */
  lemma NoEmojiBeforeTags(tags: seq<string>, parseEmoji: EmojiParser)
    requires forall i :: 0 <= i < |tags| ==> IsLegacyTag(tags[i])
    requires NoEmojiAtTags(parseEmoji)
    ensures parseEmoji(Join(tags, " ")).Fail?
  {
    if |tags| > 0 {
      JoinStartsWithWord(tags, "");
      assert Join(tags, " ") + "" == Join(tags, " ");
    }
  }

  /** `ParseQuery` once the mode is known and no emoji follows it. */
  lemma ParseQueryNoEmoji(s: string, parseEmoji: EmojiParser)
    requires parseEmoji(Spaces(ParseMode(s).rest)).Fail?
    ensures var m := ParseMode(s);
            var t := SeparatedWords(Spaces(Spaces(m.rest)), IsSpace, IsLegacyTagChar);
            ParseQuery(s, parseEmoji) == Done(t.1, InlineQueryData(t.0, if m.value.StickerSearch? then StickerSearch(None) else m.value))
  {
  }

  /** What follows a mode: blanks are skipped, no emoji is found, and the
      tags are read to the end. */
  lemma TailExact(tags: seq<string>, mode: Mode, parseEmoji: EmojiParser)
    requires forall i :: 0 <= i < |tags| ==> IsLegacyTag(tags[i])
    requires NoEmojiAtTags(parseEmoji) && !mode.StickerSearch?
    requires ParseMode(Display(InlineQueryData(tags, mode))) == Done(" " + Join(tags, " "), mode)
    ensures ParseQuery(Display(InlineQueryData(tags, mode)), parseEmoji) == Done("", InlineQueryData(tags, mode))
  {
    var s := Display(InlineQueryData(tags, mode));
    TagsAfterBlank(tags);
    NoEmojiBeforeTags(tags, parseEmoji);
    ParseQueryNoEmoji(s, parseEmoji);
  }

  /** A plain search without emoji whose first tag does not open with `(`. */
  lemma SearchRoundTrip(tags: seq<string>, parseEmoji: EmojiParser)
    requires forall i :: 0 <= i < |tags| ==> IsLegacyTag(tags[i])
    requires NoEmojiAtTags(parseEmoji)
    requires |tags| > 0 ==> !("(" <= tags[0])
    ensures ParseQuery(Display(InlineQueryData(tags, StickerSearch(None))), parseEmoji)
         == Done("", InlineQueryData(tags, StickerSearch(None)))
  {
    assert Display(InlineQueryData(tags, StickerSearch(None))) == Join(tags, " ");
    SearchTagsRead(tags, parseEmoji);
  }

  /** Tags joined by blanks, with no mode in front, read back as a plain
      search. */
  lemma SearchTagsRead(tags: seq<string>, parseEmoji: EmojiParser)
    requires forall i :: 0 <= i < |tags| ==> IsLegacyTag(tags[i])
    requires NoEmojiAtTags(parseEmoji)
    requires |tags| > 0 ==> !("(" <= tags[0])
    ensures ParseQuery(Join(tags, " "), parseEmoji) == Done("", InlineQueryData(tags, StickerSearch(None)))
  {
    JoinedTagsText(tags, parseEmoji);
    WordsOnly(Join(tags, " "), tags, parseEmoji);
  }

  /** Tags joined by blanks open no mode and no emoji, have no blanks in
      front, and are read back as the tags. */
  lemma JoinedTagsText(tags: seq<string>, parseEmoji: EmojiParser)
    requires forall i :: 0 <= i < |tags| ==> IsLegacyTag(tags[i])
    requires NoEmojiAtTags(parseEmoji)
    requires |tags| > 0 ==> !("(" <= tags[0])
    ensures var j := Join(tags, " ");
            && ParseMode(j) == Done(j, StickerSearch(None)) && Spaces(j) == j
            && parseEmoji(j).Fail? && SeparatedWords(j, IsSpace, IsLegacyTagChar) == (tags, "")
  {
    var j := Join(tags, " ");
    if |tags| > 0 {
      JoinStartsWithWord(tags, "");
      assert j + "" == j;
      assert j[0] == tags[0][0] != '(';
    }
    NoParenMode(j);
    TagsAfterBlank(tags);
    NoEmojiBeforeTags(tags, parseEmoji);
  }

  /** A plain search that opens with no emoji is the tags to the end. */
  lemma WordsOnly(s: string, tags: seq<string>, parseEmoji: EmojiParser)
    requires ParseMode(s) == Done(s, StickerSearch(None)) && Spaces(s) == s
    requires parseEmoji(s).Fail?
    requires SeparatedWords(s, IsSpace, IsLegacyTagChar) == (tags, "")
    ensures ParseQuery(s, parseEmoji) == Done("", InlineQueryData(tags, StickerSearch(None)))
  {
    ParseQueryNoEmoji(s, parseEmoji);
  }

  /** A plain search with an emoji, printed directly in front of the tags. */
  lemma EmojiSearchRoundTrip(tags: seq<string>, e: Emoji, parseEmoji: EmojiParser)
    requires forall i :: 0 <= i < |tags| ==> IsLegacyTag(tags[i])
    requires |e.text| > 0 && e.text[0] != '(' && e.text[0] != ' '
    requires parseEmoji(e.text + Join(tags, " ")) == Done(Join(tags, " "), e)
    ensures ParseQuery(Display(InlineQueryData(tags, StickerSearch(Some(e)))), parseEmoji)
         == Done("", InlineQueryData(tags, StickerSearch(Some(e))))
  {
    EmojiSearchDisplay(tags, e);
    EmojiSearchParse(tags, e, parseEmoji);
  }

  lemma EmojiSearchParse(tags: seq<string>, e: Emoji, parseEmoji: EmojiParser)
    requires forall i :: 0 <= i < |tags| ==> IsLegacyTag(tags[i])
    requires |e.text| > 0 && e.text[0] != '(' && e.text[0] != ' '
    requires parseEmoji(e.text + Join(tags, " ")) == Done(Join(tags, " "), e)
    ensures ParseQuery(e.text + Join(tags, " "), parseEmoji) == Done("", InlineQueryData(tags, StickerSearch(Some(e))))
  {
    var j := Join(tags, " ");
    var s := e.text + j;
    assert s[0] == e.text[0];
    PlainFirst(s);
    TagsAfterBlank(tags);
    EmojiThenWords(s, j, e, tags, parseEmoji);
  }

  lemma EmojiThenWords(s: string, j: string, e: Emoji, tags: seq<string>, parseEmoji: EmojiParser)
    requires ParseMode(s) == Done(s, StickerSearch(None)) && Spaces(s) == s
    requires parseEmoji(s) == Done(j, e) && Spaces(j) == j
    requires SeparatedWords(j, IsSpace, IsLegacyTagChar) == (tags, "")
    ensures ParseQuery(s, parseEmoji) == Done("", InlineQueryData(tags, StickerSearch(Some(e))))
  {
    ParseQueryEmoji(s, e, j, parseEmoji);
  }

  lemma EmojiSearchDisplay(tags: seq<string>, e: Emoji)
    ensures Display(InlineQueryData(tags, StickerSearch(Some(e)))) == e.text + Join(tags, " ")
  {
  }

  /** Text opening with neither `(` nor a blank is a plain search that starts
      right away. */
  lemma PlainFirst(s: string)
    requires |s| > 0 && s[0] != '(' && s[0] != ' '
    ensures ParseMode(s) == Done(s, StickerSearch(None)) && Spaces(s) == s
  {
    NoParenMode(s);
  }

  /** `ParseQuery` of a plain search that opens with an emoji. */
  lemma ParseQueryEmoji(s: string, e: Emoji, rest: string, parseEmoji: EmojiParser)
    requires ParseMode(s) == Done(s, StickerSearch(None)) && Spaces(s) == s
    requires parseEmoji(s) == Done(rest, e)
    ensures var t := SeparatedWords(Spaces(rest), IsSpace, IsLegacyTagChar);
            ParseQuery(s, parseEmoji) == Done(t.1, InlineQueryData(t.0, StickerSearch(Some(e))))
  {
  }

  lemma StickerMode(id: string, tags: seq<string>)
    requires IsStickerId(id)
    ensures ParseMode(Display(InlineQueryData(tags, Sticker(id)))) == Done(" " + Join(tags, " "), Sticker(id))
  {
    var s := Display(InlineQueryData(tags, Sticker(id)));
    PrefixOfAppend("(s:", id + (")" + (" " + Join(tags, " "))));
    I.EnclosedExact("(s:", id, " " + Join(tags, " "), IsStickerIdChar);
  }

  lemma SetTagMode(name: string, tags: seq<string>)
    requires IsSetName(name)
    ensures ParseMode(Display(InlineQueryData(tags, Set(name, I.SetTag)))) == Done(" " + Join(tags, " "), Set(name, I.SetTag))
  {
    var s := Display(InlineQueryData(tags, Set(name, I.SetTag)));
    PrefixOfAppend("(se:", name + (")" + (" " + Join(tags, " "))));
    DifferAtPrefix("(s:", "(se:", s, 2);
    I.EnclosedExact("(se:", name, " " + Join(tags, " "), IsSetNameChar);
  }

  lemma SetUntagMode(name: string, tags: seq<string>)
    requires IsSetName(name)
    ensures ParseMode(Display(InlineQueryData(tags, Set(name, I.SetUntag)))) == Done(" " + Join(tags, " "), Set(name, I.SetUntag))
  {
    var s := Display(InlineQueryData(tags, Set(name, I.SetUntag)));
    PrefixOfAppend("(su:", name + (")" + (" " + Join(tags, " "))));
    DifferAtPrefix("(s:", "(su:", s, 2);
    DifferAtPrefix("(se:", "(su:", s, 2);
    I.EnclosedExact("(su:", name, " " + Join(tags, " "), IsSetNameChar);
  }

  lemma BlacklistMode(tags: seq<string>)
    ensures ParseMode(Display(InlineQueryData(tags, Blacklist))) == Done(" " + Join(tags, " "), Blacklist)
  {
    var s := Display(InlineQueryData(tags, Blacklist));
    PrefixOfAppend("(blacklist)", " " + Join(tags, " "));
    DifferAtPrefix("(s:", "(blacklist)", s, 1);
    DifferAtPrefix("(se:", "(blacklist)", s, 1);
    DifferAtPrefix("(su:", "(blacklist)", s, 1);
    assert s[11..] == " " + Join(tags, " ");
  }

  lemma EmbeddingSearchMode(tags: seq<string>)
    ensures ParseMode(Display(InlineQueryData(tags, EmbeddingSearch))) == Done(" " + Join(tags, " "), EmbeddingSearch)
  {
    var s := Display(InlineQueryData(tags, EmbeddingSearch));
    PrefixOfAppend("(embed)", " " + Join(tags, " "));
    DifferAtPrefix("(s:", "(embed)", s, 1);
    DifferAtPrefix("(se:", "(embed)", s, 1);
    DifferAtPrefix("(su:", "(embed)", s, 1);
    DifferAtPrefix("(blacklist)", "(embed)", s, 1);
    assert s[7..] == " " + Join(tags, " ");
  }

  lemma ContTagMode(tags: seq<string>)
    ensures ParseMode(Display(InlineQueryData(tags, ContinuousTagMode(I.SetTag)))) == Done(" " + Join(tags, " "), ContinuousTagMode(I.SetTag))
  {
    var s := Display(InlineQueryData(tags, ContinuousTagMode(I.SetTag)));
    PrefixOfAppend("(cont)", " " + Join(tags, " "));
    DifferAtPrefix("(s:", "(cont)", s, 1);
    DifferAtPrefix("(se:", "(cont)", s, 1);
    DifferAtPrefix("(su:", "(cont)", s, 1);
    DifferAtPrefix("(blacklist)", "(cont)", s, 1);
    DifferAtPrefix("(embed)", "(cont)", s, 1);
    ModeAFails(s);
    assert s[6..] == " " + Join(tags, " ");
  }

  lemma ContUntagMode(tags: seq<string>)
    ensures ParseMode(Display(InlineQueryData(tags, ContinuousTagMode(I.SetUntag)))) == Done(" " + Join(tags, " "), ContinuousTagMode(I.SetUntag))
  {
    var s := Display(InlineQueryData(tags, ContinuousTagMode(I.SetUntag)));
    PrefixOfAppend("(-cont)", " " + Join(tags, " "));
    DifferAtPrefix("(s:", "(-cont)", s, 1);
    DifferAtPrefix("(se:", "(-cont)", s, 1);
    DifferAtPrefix("(su:", "(-cont)", s, 1);
    DifferAtPrefix("(blacklist)", "(-cont)", s, 1);
    DifferAtPrefix("(embed)", "(-cont)", s, 1);
    ModeAFails(s);
    DifferAtPrefix("(cont)", "(-cont)", s, 1);
    assert s[7..] == " " + Join(tags, " ");
  }

  lemma ColorMode(id: string, tags: seq<string>)
    requires IsStickerId(id)
    ensures ParseMode(Display(InlineQueryData(tags, Similar(id, Color)))) == Done(" " + Join(tags, " "), Similar(id, Color))
  {
    var s := Display(InlineQueryData(tags, Similar(id, Color)));
    PrefixOfAppend("(color:", id + (")" + (" " + Join(tags, " "))));
    DifferAtPrefix("(s:", "(color:", s, 1);
    DifferAtPrefix("(se:", "(color:", s, 1);
    DifferAtPrefix("(su:", "(color:", s, 1);
    DifferAtPrefix("(blacklist)", "(color:", s, 1);
    DifferAtPrefix("(embed)", "(color:", s, 1);
    ModeAFails(s);
    DifferAtPrefix("(cont)", "(color:", s, 3);
    DifferAtPrefix("(-cont)", "(color:", s, 1);
    I.EnclosedExact("(color:", id, " " + Join(tags, " "), IsStickerIdChar);
  }

  lemma ShapeMode(id: string, tags: seq<string>)
    requires IsStickerId(id)
    ensures ParseMode(Display(InlineQueryData(tags, Similar(id, Shape)))) == Done(" " + Join(tags, " "), Similar(id, Shape))
  {
    var s := Display(InlineQueryData(tags, Similar(id, Shape)));
    PrefixOfAppend("(shape:", id + (")" + (" " + Join(tags, " "))));
    DifferAtPrefix("(s:", "(shape:", s, 2);
    DifferAtPrefix("(se:", "(shape:", s, 2);
    DifferAtPrefix("(su:", "(shape:", s, 2);
    DifferAtPrefix("(blacklist)", "(shape:", s, 1);
    DifferAtPrefix("(embed)", "(shape:", s, 1);
    ModeAFails(s);
    DifferAtPrefix("(cont)", "(shape:", s, 1);
    DifferAtPrefix("(-cont)", "(shape:", s, 1);
    DifferAtPrefix("(color:", "(shape:", s, 1);
    I.EnclosedExact("(shape:", id, " " + Join(tags, " "), IsStickerIdChar);
  }

  lemma EmbeddingSimilarMode(id: string, tags: seq<string>)
    requires IsStickerId(id)
    ensures ParseMode(Display(InlineQueryData(tags, Similar(id, Embedding)))) == Done(" " + Join(tags, " "), Similar(id, Embedding))
  {
    var s := Display(InlineQueryData(tags, Similar(id, Embedding)));
    PrefixOfAppend("(embed:", id + (")" + (" " + Join(tags, " "))));
    DifferAtPrefix("(s:", "(embed:", s, 1);
    DifferAtPrefix("(se:", "(embed:", s, 1);
    DifferAtPrefix("(su:", "(embed:", s, 1);
    DifferAtPrefix("(blacklist)", "(embed:", s, 1);
    DifferAtPrefix("(embed)", "(embed:", s, 6);
    ModeAFails(s);
    DifferAtPrefix("(cont)", "(embed:", s, 1);
    DifferAtPrefix("(-cont)", "(embed:", s, 1);
    DifferAtPrefix("(color:", "(embed:", s, 1);
    DifferAtPrefix("(shape:", "(embed:", s, 1);
    I.EnclosedExact("(embed:", id, " " + Join(tags, " "), IsStickerIdChar);
  }
  /** Tags, ids and names satisfy their grammars, a plain search does not
      start with `(` and its emoji is read back from the printed text. */
  ghost predicate WellFormed(d: InlineQueryData, parseEmoji: EmojiParser) {
    && (forall i :: 0 <= i < |d.tags| ==> IsLegacyTag(d.tags[i]))
    && NoEmojiAtTags(parseEmoji)
    && match d.mode
       case Sticker(id) => IsStickerId(id)
       case Set(name, _) => IsSetName(name)
       case Similar(id, _) => IsStickerId(id)
       case StickerSearch(None) => |d.tags| > 0 ==> d.tags[0][0] != '('
       case StickerSearch(Some(e)) =>
         && |e.text| > 0 && e.text[0] != '(' && e.text[0] != ' '
         && parseEmoji(e.text + Join(d.tags, " ")) == Done(Join(d.tags, " "), e)
       case _ => true
  }

  /** Printing a well-formed query and parsing the text gives it back. */
  lemma RoundTrip(d: InlineQueryData, parseEmoji: EmojiParser)
    requires WellFormed(d, parseEmoji)
    ensures TryFrom(Display(d), parseEmoji) == Success(d)
  {
    var tags := d.tags;
    match d.mode {
      case StickerSearch(None) => SearchRoundTrip(tags, parseEmoji);
      case StickerSearch(Some(e)) => EmojiSearchRoundTrip(tags, e, parseEmoji);
      case Sticker(id) => StickerMode(id, tags); TailExact(tags, d.mode, parseEmoji);
      case Set(name, op) =>
        if op == I.SetTag { SetTagMode(name, tags); } else { SetUntagMode(name, tags); }
        TailExact(tags, d.mode, parseEmoji);
      case Blacklist => BlacklistMode(tags); TailExact(tags, d.mode, parseEmoji);
      case EmbeddingSearch => EmbeddingSearchMode(tags); TailExact(tags, d.mode, parseEmoji);
      case ContinuousTagMode(op) =>
        if op == I.SetTag { ContTagMode(tags); } else { ContUntagMode(tags); }
        TailExact(tags, d.mode, parseEmoji);
      case Similar(id, aspect) =>
        if aspect == Color {
          ColorMode(id, tags);
        } else if aspect == Shape {
          ShapeMode(id, tags);
        } else {
          EmbeddingSimilarMode(id, tags);
        }
        TailExact(tags, d.mode, parseEmoji);
    }
  }

  // ---------------------------------------------------------------- samples

  lemma QuerySamples()
    ensures Display(InlineQueryData([], Sticker("asdf"))) == "(s:asdf) "
    ensures Display(InlineQueryData(["male", "female"], Sticker("asdf"))) == "(s:asdf) male female"
  {
    assert Join(["male", "female"], " ") == "male female";
  }

  lemma PlainSearchSample(parseEmoji: EmojiParser)
    requires NoEmojiAtTags(parseEmoji)
    ensures TryFrom("male female", parseEmoji) == Success(InlineQueryData(["male", "female"], StickerSearch(None)))
  {
    var d := InlineQueryData(["male", "female"], StickerSearch(None));
    assert Join(["male", "female"], " ") == "male female";
    assert Display(d) == "male female";
    assert IsLegacyTag("male") && IsLegacyTag("female");
    RoundTrip(d, parseEmoji);
  }

  /** The blacklist mode with one tag, as in `(blacklist) attribution`. */
  lemma BlacklistOneTag(t: string, parseEmoji: EmojiParser)
    requires NoEmojiAtTags(parseEmoji) && IsLegacyTag(t)
    ensures TryFrom("(blacklist) " + t, parseEmoji) == Success(InlineQueryData([t], Blacklist))
  {
    var tags := [t];
    assert Join(tags, " ") == t;
    assert Display(InlineQueryData(tags, Blacklist)) == "(blacklist) " + t;
    BlacklistMode(tags);
    TailExact(tags, Blacklist, parseEmoji);
  }

  /** A query that is one emoji, read completely, is an emoji search. */
  lemma EmojiQuery(t: string, e: Emoji, parseEmoji: EmojiParser)
    requires |t| > 0 && t[0] != '(' && t[0] != ' '
    requires parseEmoji(t) == Done("", e)
    ensures TryFrom(t, parseEmoji) == Success(InlineQueryData([], StickerSearch(Some(e))))
  {
    PlainFirst(t);
    ParseQueryEmoji(t, e, "", parseEmoji);
    assert Spaces("") == "";
    assert SeparatedWords("", IsSpace, IsLegacyTagChar) == ([], "");
    assert ParseQuery(t, parseEmoji) == Done("", InlineQueryData([], StickerSearch(Some(e))));
  }

  /** `(blacklist)` is itself a tag of this grammar: a search for it prints
      as the blacklist mode and comes back as that mode without tags. */
  lemma ModeLikeTagMisread(parseEmoji: EmojiParser)
    requires NoEmojiAtTags(parseEmoji)
    ensures IsLegacyTag("(blacklist)")
    ensures Display(InlineQueryData(["(blacklist)"], StickerSearch(None))) == "(blacklist)"
    ensures TryFrom("(blacklist)", parseEmoji) == Success(InlineQueryData([], Blacklist))
  {
    var s := "(blacklist)";
    assert forall i :: 0 <= i < |s| ==> IsLegacyTagChar(s[i]);
    SearchDisplayOne(s);
    BlacklistWordMode();
    assert parseEmoji("").Fail?;
    ModeOnlyQuery(s, Blacklist, parseEmoji);
  }

  /** Text that is exactly a mode, with no emoji recognised at the end of
      the input, is that mode without tags. */
  lemma ModeOnlyQuery(s: string, m: Mode, parseEmoji: EmojiParser)
    requires ParseMode(s) == Done("", m) && !m.StickerSearch?
    requires parseEmoji("").Fail?
    ensures TryFrom(s, parseEmoji) == Success(InlineQueryData([], m))
  {
    ModeOnlyParse(s, m, parseEmoji);
  }

  lemma ModeOnlyParse(s: string, m: Mode, parseEmoji: EmojiParser)
    requires ParseMode(s) == Done("", m) && !m.StickerSearch?
    requires parseEmoji("").Fail?
    ensures ParseQuery(s, parseEmoji) == Done("", InlineQueryData([], m))
  {
    EmptyRest(ParseMode(s).rest);
    ParseQueryNoEmoji(s, parseEmoji);
  }

  lemma EmptyRest(e: string)
    requires e == ""
    ensures Spaces(e) == e && SeparatedWords(e, IsSpace, IsLegacyTagChar) == ([], e)
  {
  }

  /** A plain search for one tag prints as that tag. */
  lemma SearchDisplayOne(t: string)
    ensures Display(InlineQueryData([t], StickerSearch(None))) == t
  {
    assert Join([t], " ") == t;
  }

  /** The mode keyword alone is read as the blacklist mode with nothing
      left. */
  lemma BlacklistWordMode()
    ensures ParseMode("(blacklist)") == Done("", Blacklist)
  {
    var s := "(blacklist)";
    PrefixOfAppend("(blacklist)", "");
    assert s == "(blacklist)" + "";
    DifferAtPrefix("(s:", s, s, 1);
    DifferAtPrefix("(se:", s, s, 1);
    DifferAtPrefix("(su:", s, s, 1);
    assert s[11..] == "";
  }
}
