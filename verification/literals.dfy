/** The nom literal grammars shared by the wire formats: each is
    `recognize(many1_count(alt(..)))` over a character class, which amounts to
    the longest non-empty prefix drawn from that class. The sticker-id and
    set-name grammars are identical in both trees; the tag grammar differs. */
module Literals {
  import opened Strings
  import opened Nom

  predicate IsStickerIdChar(c: char) { IsAsciiAlphanumeric(c) || c == '-' || c == '_' }

  predicate IsSetNameChar(c: char) { IsAsciiAlphanumeric(c) || c == '_' }

  /** Current tree: ASCII alphanumerics and `_-()/<>!?':.^`. */
  predicate IsTagChar(c: char) {
    IsAsciiAlphanumeric(c) || c in "_-()/<>!?':.^"
  }

  /** Older tree: ASCII alphanumerics and `_-()/<`. */
  predicate IsLegacyTagChar(c: char) {
    IsAsciiAlphanumeric(c) || c in "_-()/<"
  }

  /** A non-empty word over the class `p`: exactly what the literal accepts
      as a whole. */
  predicate IsWord(w: string, p: char -> bool) {
    |w| > 0 && forall i :: 0 <= i < |w| ==> p(w[i])
  }

  predicate IsStickerId(w: string) { IsWord(w, IsStickerIdChar) }
  predicate IsSetName(w: string) { IsWord(w, IsSetNameChar) }
  predicate IsTag(w: string) { IsWord(w, IsTagChar) }
  predicate IsLegacyTag(w: string) { IsWord(w, IsLegacyTagChar) }

  /** The rest after a literal does not continue it. */
  predicate Stops(rest: string, p: char -> bool) { |rest| == 0 || !p(rest[0]) }

  /** Shared contract of the literal parsers: success splits the input into a
      maximal non-empty word and a rest; failure happens exactly when the
      input does not start with a class character, and reports the input. */
  predicate LiteralContract(s: string, p: char -> bool, r: PResult<string>) {
    && (r.Done? ==> IsWord(r.value, p) && s == r.value + r.rest && Stops(r.rest, p))
    && (r.Fail? <==> (|s| == 0 || !p(s[0])))
    && (r.Fail? ==> r.at == s)
  }

  function Literal(s: string, p: char -> bool): (r: PResult<string>)
    ensures LiteralContract(s, p, r)
  {
    var r := TakeWhile1(s, p);
    if r.Done? then
      assert s == s[..SpanLen(s, p)] + s[SpanLen(s, p)..];
      r
    else r
  }

  /** `sticker_id_literal` */
  function StickerIdLiteral(s: string): (r: PResult<string>)
    ensures LiteralContract(s, IsStickerIdChar, r)
  {
    Literal(s, IsStickerIdChar)
  }

  /** `set_name_literal` */
  function SetNameLiteral(s: string): (r: PResult<string>)
    ensures LiteralContract(s, IsSetNameChar, r)
  {
    Literal(s, IsSetNameChar)
  }

  /** `tag_literal` of the current tree; the word never holds the list
      separators `,` and `;` nor white space. */
  function TagLiteral(s: string): (r: PResult<string>)
    ensures LiteralContract(s, IsTagChar, r)
    ensures r.Done? ==> ',' !in r.value && ';' !in r.value && ' ' !in r.value
  {
    Literal(s, IsTagChar)
  }

  /** `tag_literal` of the older tree. */
  function LegacyTagLiteral(s: string): (r: PResult<string>)
    ensures LiteralContract(s, IsLegacyTagChar, r)
  {
    Literal(s, IsLegacyTagChar)
  }

  /** Any word followed by a non-continuing rest is read back exactly. */
  lemma LiteralExact(w: string, rest: string, p: char -> bool)
    requires IsWord(w, p) && Stops(rest, p)
    ensures Literal(w + rest, p) == Done(rest, w)
  {
    TakeWhile1Exact(w, rest, p);
  }

  /** A tag in the older grammar is also a tag in the current one. */
  lemma LegacyTagIsTag(w: string)
    requires IsLegacyTag(w)
    ensures IsTag(w)
  {
  }

  /** A set name is also a sticker id. */
  lemma SetNameIsStickerId(w: string)
    requires IsSetName(w)
    ensures IsStickerId(w)
  {
  }
}
