/** The bot's `Emoji` value: the emoji's text with variation selectors
    stripped from both ends. Which texts are emojis (the grapheme and emoji
    tables) is not part of this model; emojis are opaque strings here. */
module Emojis {
  import opened Strings
  import Nom

  /** VARIATION SELECTOR-16 (emoji presentation) and -15 (text presentation). */
  const VS16: char := '\U{FE0F}'
  const VS15: char := '\U{FE0E}'

  predicate IsVariantSelector(c: char) { c == VS16 || c == VS15 }

  datatype Emoji = Emoji(text: string)

  /** `parse_emoji`, supplied by the caller: the grammars that read an
      emoji take the recogniser as a parameter. */
  type EmojiParser = string -> Nom.PResult<Emoji>

  /** `Emoji::new_from_string_single`: selectors are trimmed at both ends;
      selectors inside the text are kept. */
  function NewFromStringSingle(s: string): (e: Emoji)
    ensures |e.text| == 0 || (!IsVariantSelector(e.text[0]) && !IsVariantSelector(e.text[|e.text| - 1]))
    ensures |e.text| <= |s|
  {
    Emoji(TrimMatches(s, IsVariantSelector))
  }

  function ToStringWithoutVariant(e: Emoji): string { e.text }

  /** The text with an emoji-presentation selector appended, as Telegram
      expects it. */
  function ToStringWithVariant(e: Emoji): (s: string)
    ensures |s| == |e.text| + 1
    ensures s[..|s| - 1] == ToStringWithoutVariant(e) && s[|s| - 1] == VS16
  {
    e.text + [VS16]
  }

  /** The trimmed text is the middle part of the input: what was cut off at
      either end consists of selectors only, so interior selectors survive. */
  lemma NewKeepsInterior(s: string)
    ensures var t := NewFromStringSingle(s).text;
      exists i :: 0 <= i <= |s| - |t| && s[i..i + |t|] == t
        && All(s[..i], IsVariantSelector) && All(s[i + |t|..], IsVariantSelector)
  {
    var a := TrimStartMatches(s, IsVariantSelector);
    var t := TrimEndMatches(a, IsVariantSelector);
    var i := |s| - |a|;
    assert t == NewFromStringSingle(s).text;
    assert a == s[i..];
    assert All(s[..i], IsVariantSelector);
    assert s[i..i + |t|] == t by {
      assert s[i..i + |t|] == a[..|t|];
    }
    assert All(s[i + |t|..], IsVariantSelector) by {
      assert s[i + |t|..] == a[|t|..];
    }
  }

  /** Normalising is idempotent: re-reading the text sent to Telegram gives
      back the same emoji. */
  lemma NormalizeWithVariant(s: string)
    ensures var e := NewFromStringSingle(s); NewFromStringSingle(ToStringWithVariant(e)) == e
  {
    var e := NewFromStringSingle(s);
    var t := e.text;
    TrimEndDrops(t, VS16, IsVariantSelector);
    if |t| > 0 {
      assert !All(t, IsVariantSelector);
      TrimStartAppend(t, VS16, IsVariantSelector);
      assert TrimStartMatches(t, IsVariantSelector) == t;
      assert TrimEndMatches(t, IsVariantSelector) == t;
    } else {
      assert [VS16][1..] == "";
    }
  }

  /** An emoji with a trailing VS16 is the same emoji as without it. */
  lemma SelectorInsensitive(s: string)
    ensures NewFromStringSingle(s + [VS16]) == NewFromStringSingle(s)
  {
    TrimEndDrops(TrimStartMatches(s, IsVariantSelector), VS16, IsVariantSelector);
    if All(s, IsVariantSelector) {
      assert All(s + [VS16], IsVariantSelector);
      AllSelectorsVanish(s);
      AllSelectorsVanish(s + [VS16]);
    } else {
      TrimStartAppend(s, VS16, IsVariantSelector);
    }
  }

  lemma AllSelectorsVanish(s: string)
    requires All(s, IsVariantSelector)
    ensures TrimStartMatches(s, IsVariantSelector) == ""
  {
  }

  /** The hot-beverage emoji with and without its selector is one emoji. */
  lemma HotBeverageSample()
    ensures NewFromStringSingle("\U{2615}\U{FE0F}") == NewFromStringSingle("\U{2615}")
  {
    SelectorInsensitive("\U{2615}");
    assert "\U{2615}" + [VS16] == "\U{2615}\U{FE0F}";
  }
}
