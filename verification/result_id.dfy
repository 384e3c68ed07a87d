/** `InlineQueryResultId` of the current tree: the id Telegram echoes back
    for a chosen inline result, `prefix:payload`. The emoji recogniser is a
    parameter (emojis are opaque here). */
module ResultId {
  import opened Wrappers
  import opened Strings
  import opened Decimal
  import opened Nom
  import opened Literals
  import opened Emojis

  datatype InlineQueryResultId =
    | Sticker(stickerId: string)
    | Tag(tag: string)
    | Set(setId: string)
    | EmojiResult(emoji: Emoji)
    | User(userId: int)
    | Other(description: string)

  /** nom's `alphanumeric1`. */
  function Alphanumeric1(s: string): (r: PResult<string>)
    ensures LiteralContract(s, IsAsciiAlphanumeric, r)
  {
    Literal(s, IsAsciiAlphanumeric)
  }

  /** `preceded(tag(prefix), payload)` mapped through `wrap`. */
  function Prefixed<T>(prefix: string, s: string, payload: string -> PResult<T>,
                       wrap: T -> InlineQueryResultId): PResult<InlineQueryResultId>
  {
    if prefix <= s then
      match payload(s[|prefix|..])
      case Done(rest, v) => Done(rest, wrap(v))
      case Fail(at) => Fail(at)
    else Fail(s)
  }

  /** The `alt` of `parse_result`: the first alternative whose prefix and
      payload both succeed. */
  function Alternatives(s: string, parseEmoji: EmojiParser): PResult<InlineQueryResultId> {
    var a := Prefixed("s:", s, StickerIdLiteral, (x: string) => Sticker(x));
    if a.Done? then a else
    var b := Prefixed("t:", s, TagLiteral, (x: string) => Tag(x));
    if b.Done? then b else
    var c := Prefixed("st:", s, SetNameLiteral, (x: string) => Set(x));
    if c.Done? then c else
    var d := Prefixed("e:", s, parseEmoji, (x: Emoji) => EmojiResult(x));
    if d.Done? then d else
    var e := Prefixed("o:", s, Alphanumeric1, (x: string) => Other(x));
    if e.Done? then e else
    var f := Prefixed("u:", s, (t: string) => NomSigned(t, I64_MIN, I64_MAX), (x: int) => User(x));
    if f.Done? then f else Fail(s)
  }

  /** `InlineQueryResultId::try_from`: one alternative followed by `eof`. */
  function Parse(s: string, parseEmoji: EmojiParser): (r: Option<InlineQueryResultId>)
    ensures r.Some? ==> Alternatives(s, parseEmoji) == Done("", r.value)
    ensures r.None? ==> Alternatives(s, parseEmoji).Fail? || Alternatives(s, parseEmoji).rest != ""
  {
    match Alternatives(s, parseEmoji)
    case Done(rest, v) => if rest == "" then Some(v) else None
    case Fail(_) => None
  }

  function Display(id: InlineQueryResultId): string {
    match id
    case Sticker(x) => "s:" + x
    case Tag(x) => "t:" + x
    case Set(x) => "st:" + x
    case EmojiResult(e) => "e:" + ToStringWithoutVariant(e)
    case User(u) => "u:" + IntToString(u)
    case Other(x) => "o:" + x
  }

  /** The payload of each variant satisfies its grammar, so printing is undone
      by parsing. */
  predicate WellFormed(id: InlineQueryResultId, parseEmoji: EmojiParser) {
    match id
    case Sticker(x) => IsStickerId(x)
    case Tag(x) => IsTag(x)
    case Set(x) => IsSetName(x)
    case EmojiResult(e) => parseEmoji(ToStringWithoutVariant(e)) == Done("", e)
    case User(u) => I64_MIN <= u <= I64_MAX
    case Other(x) => IsWord(x, IsAsciiAlphanumeric)
  }

  /** Every variant's prefix is rejected by the alternatives tried before it:
      the prefixes `s:`, `t:`, `st:`, `e:`, `o:` and `u:` differ in their first
      two characters. */
  lemma PrefixesDiffer(x: string)
    ensures !("s:" <= "t:" + x) && !("s:" <= "st:" + x) && !("t:" <= "st:" + x)
    ensures !("s:" <= "e:" + x) && !("t:" <= "e:" + x) && !("st:" <= "e:" + x)
    ensures !("s:" <= "o:" + x) && !("t:" <= "o:" + x) && !("st:" <= "o:" + x) && !("e:" <= "o:" + x)
    ensures !("s:" <= "u:" + x) && !("t:" <= "u:" + x) && !("st:" <= "u:" + x)
    ensures !("e:" <= "u:" + x) && !("o:" <= "u:" + x)
  {
    assert ("t:" + x)[0] == 't' && ("st:" + x)[1] == 't' && ("e:" + x)[0] == 'e';
    assert ("o:" + x)[0] == 'o' && ("u:" + x)[0] == 'u';
  }

  /** Parsing the printed form of a well-formed id gives the id back. */
  lemma RoundTrip(id: InlineQueryResultId, parseEmoji: EmojiParser)
    requires WellFormed(id, parseEmoji)
    ensures Parse(Display(id), parseEmoji) == Some(id)
  {
    match id {
      case Sticker(x) => StickerRoundTrip(x, parseEmoji);
      case Tag(x) => TagRoundTrip(x, parseEmoji);
      case Set(x) => SetRoundTrip(x, parseEmoji);
      case EmojiResult(e) => EmojiRoundTrip(e, parseEmoji);
      case Other(x) => OtherRoundTrip(x, parseEmoji);
      case User(u) => UserRoundTrip(u, parseEmoji);
    }
  }

  lemma StickerRoundTrip(x: string, parseEmoji: EmojiParser)
    requires IsStickerId(x)
    ensures Alternatives("s:" + x, parseEmoji) == Done("", Sticker(x))
  {
    LiteralExact(x, "", IsStickerIdChar);
    assert ("s:" + x)[2..] == x + "";
  }

  lemma TagRoundTrip(x: string, parseEmoji: EmojiParser)
    requires IsTag(x)
    ensures Alternatives("t:" + x, parseEmoji) == Done("", Tag(x))
  {
    PrefixesDiffer(x);
    LiteralExact(x, "", IsTagChar);
    assert ("t:" + x)[2..] == x + "";
  }

  lemma SetRoundTrip(x: string, parseEmoji: EmojiParser)
    requires IsSetName(x)
    ensures Alternatives("st:" + x, parseEmoji) == Done("", Set(x))
  {
    PrefixesDiffer(x);
    LiteralExact(x, "", IsSetNameChar);
    assert ("st:" + x)[3..] == x + "";
  }

  lemma EmojiRoundTrip(e: Emoji, parseEmoji: EmojiParser)
    requires parseEmoji(ToStringWithoutVariant(e)) == Done("", e)
    ensures Alternatives("e:" + ToStringWithoutVariant(e), parseEmoji) == Done("", EmojiResult(e))
  {
    PrefixesDiffer(e.text);
    assert ("e:" + e.text)[2..] == e.text;
  }

  lemma OtherRoundTrip(x: string, parseEmoji: EmojiParser)
    requires IsWord(x, IsAsciiAlphanumeric)
    ensures Alternatives("o:" + x, parseEmoji) == Done("", Other(x))
  {
    PrefixesDiffer(x);
    LiteralExact(x, "", IsAsciiAlphanumeric);
    assert ("o:" + x)[2..] == x + "";
  }

  lemma UserRoundTrip(u: int, parseEmoji: EmojiParser)
    requires I64_MIN <= u <= I64_MAX
    ensures Alternatives("u:" + IntToString(u), parseEmoji) == Done("", User(u))
  {
    var t := IntToString(u);
    PrefixesDiffer(t);
    NomSignedRoundTrip(u, "", I64_MIN, I64_MAX);
    assert ("u:" + t)[2..] == t + "";
  }

  /** Anything after the payload makes the id invalid (the `eof`). */
  lemma TrailingInputRejected(id: InlineQueryResultId, parseEmoji: EmojiParser, junk: string)
    requires id.Sticker? && IsStickerId(id.stickerId)
    requires |junk| > 0 && !IsStickerIdChar(junk[0])
    ensures Parse(Display(id) + junk, parseEmoji).None?
  {
    var x := id.stickerId;
    LiteralExact(x, junk, IsStickerIdChar);
    assert ("s:" + x + junk)[2..] == x + junk;
  }

  /** A description that is not alphanumeric prints but does not parse back. */
  lemma OtherNeedsAlphanumeric(parseEmoji: EmojiParser)
    ensures Parse(Display(Other("a b")), parseEmoji) == None
  {
    var s := Display(Other("a b"));
    assert s == "o:a b";
    PrefixesDiffer("a b");
    LiteralExact("a", " b", IsAsciiAlphanumeric);
    assert s[2..] == "a" + " b";
    assert !(s[0] == 'u');
  }
}

/** `InlineQueryResultId` of the older tree: only stickers and tags, and the
    consumption check is made by `try_from` rather than by the grammar. */
module LegacyResultId {
  import opened Wrappers
  import opened Nom
  import opened Literals

  datatype InlineQueryResultId = Sticker(stickerId: string) | Tag(tag: string)

  function ParseResult(s: string): (r: PResult<InlineQueryResultId>)
    ensures r.Done? && r.value.Sticker? ==> "s:" <= s
    ensures r.Done? && r.value.Tag? ==> "t:" <= s
  {
    if "s:" <= s then
      match StickerIdLiteral(s[2..])
      case Done(rest, x) => Done(rest, Sticker(x))
      case Fail(_) => TagAlternative(s)
    else TagAlternative(s)
  }

  function TagAlternative(s: string): PResult<InlineQueryResultId> {
    if "t:" <= s then
      match LegacyTagLiteral(s[2..])
      case Done(rest, x) => Done(rest, Tag(x))
      case Fail(at) => Fail(at)
    else Fail(s)
  }

  /** `try_from`: an error unless the whole input was consumed. */
  function TryFrom(s: string): (r: Option<InlineQueryResultId>)
    ensures r.Some? <==> ParseResult(s).Done? && ParseResult(s).rest == ""
  {
    match ParseResult(s)
    case Done(rest, v) => if rest == "" then Some(v) else None
    case Fail(_) => None
  }

  function Display(id: InlineQueryResultId): string {
    match id
    case Sticker(x) => "s:" + x
    case Tag(x) => "t:" + x
  }

  predicate WellFormed(id: InlineQueryResultId) {
    match id
    case Sticker(x) => IsStickerId(x)
    case Tag(x) => IsLegacyTag(x)
  }

  /** The two alternatives cannot be confused: `s:` and `t:` share no first
      character, so every parse is decided by the first character alone. */
  lemma AlternativesDisjoint(s: string)
    ensures "s:" <= s ==> !("t:" <= s)
  {
    if "s:" <= s {
      assert s[0] == "s:"[0];
    }
  }

  lemma RoundTrip(id: InlineQueryResultId)
    requires WellFormed(id)
    ensures TryFrom(Display(id)) == Some(id)
  {
    match id {
      case Sticker(x) =>
        LiteralExact(x, "", IsStickerIdChar);
        assert ("s:" + x)[2..] == x + "";
      case Tag(x) =>
        LiteralExact(x, "", IsLegacyTagChar);
        assert ("t:" + x)[2..] == x + "";
        assert ("t:" + x)[0] == 't';
    }
  }

  /** A tag using a character only the current grammar allows is printed but
      cut short on parsing, so `try_from` rejects it. */
  lemma UnconsumedRejected()
    ensures TryFrom(Display(Tag("a:b"))) == None
  {
    var s := Display(Tag("a:b"));
    assert s == "t:" + "a" + ":b";
    LiteralExact("a", ":b", IsLegacyTagChar);
    assert s[2..] == "a" + ":b";
    assert s[0] == 't';
  }
}
