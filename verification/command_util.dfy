/** The rewrite `^/([A-Za-z]+)_` → `/$1 ` that both trees apply to command
    text, so that `/tagsticker_ID` is read as `/tagsticker ID`. */
module CommandSeparator {
  import opened Strings
  import opened Nom

  /** Length of the run of ASCII letters right after the leading `/`. */
  function CommandNameLen(text: string): (n: nat)
    requires |text| > 0
    ensures n < |text|
    ensures forall i :: 1 <= i <= n ==> IsAsciiAlpha(text[i])
    ensures n + 1 == |text| || !IsAsciiAlpha(text[n + 1])
  {
    SpanLen(text[1..], IsAsciiAlpha)
  }

  /** The pattern matches: `/`, at least one ASCII letter, then `_`. As `_` is
      not a letter, the greedy letter run is the only way to match. */
  predicate HasUnderlineSeparator(text: string) {
    |text| > 0 && text[0] == '/' && CommandNameLen(text) >= 1
    && CommandNameLen(text) + 1 < |text| && text[CommandNameLen(text) + 1] == '_'
  }

  /** The first (and only, the pattern being anchored) match is rewritten: the
      `_` after the command name becomes a space and nothing else changes. */
  function FixSeparator(text: string): (r: string)
    ensures |r| == |text|
    ensures r != text <==> HasUnderlineSeparator(text)
    ensures r != text ==> exists k :: 1 < k < |text| && text[k] == '_'
                                   && r == text[..k] + " " + text[k + 1..]
  {
    if HasUnderlineSeparator(text) then
      var k := CommandNameLen(text) + 1;
      var r := text[..k] + " " + text[k + 1..];
      assert r[k] != text[k];
      r
    else text
  }

  /** `/name_rest` becomes `/name rest` for any ASCII-letter name. */
  lemma {:induction false} FixSeparatorExact(name: string, rest: string)
    requires |name| > 0 && All(name, IsAsciiAlpha)
    ensures FixSeparator("/" + name + "_" + rest) == "/" + name + " " + rest
  {
    var text := "/" + name + "_" + rest;
    assert text[1..] == name + ("_" + rest);
    SpanLenExact(name, "_" + rest, IsAsciiAlpha);
    assert CommandNameLen(text) == |name|;
    assert text[..|name| + 1] == "/" + name;
    assert text[|name| + 2..] == rest;
  }

  /** Rewriting twice is rewriting once: the space that replaced `_` ends
      the letter run without being `_`. */
  lemma FixSeparatorIdempotent(text: string)
    ensures FixSeparator(FixSeparator(text)) == FixSeparator(text)
  {
    var r := FixSeparator(text);
    if r != text {
      var k := CommandNameLen(text) + 1;
      assert r == text[..k] + " " + text[k + 1..];
      assert r[1..][..k - 1] == text[1..][..k - 1];
      assert r[1..] == text[1..k] + (" " + text[k + 1..]);
      SpanLenExact(text[1..k], " " + text[k + 1..], IsAsciiAlpha);
      assert CommandNameLen(r) == k - 1;
      assert r[k] == ' ';
    }
  }
}

/** Command-text helpers of the current tree. */
module CommandUtil {
  import opened Strings
  import opened CommandSeparator

  /** The separator rewrite followed by `trim`: the result is the rewritten
      text with the White_Space runs at both ends cut off. */
  function FixUnderlineCommandSeparatorAndNormalize(text: string): (r: string)
    ensures |r| <= |text|
    ensures TrimmedSegment(FixSeparator(text), r, IsWhiteSpace)
  {
    var f := FixSeparator(text);
    TrimMatchesSegment(f, IsWhiteSpace);
    Trim(f)
  }

  /** `/name_args` with arguments that do not end in white space becomes
      `/name args`. */
  lemma NormalizeSeparatedCommand(name: string, args: string)
    requires |name| > 0 && All(name, IsAsciiAlpha)
    requires |args| > 0 && !IsWhiteSpace(args[|args| - 1])
    ensures FixUnderlineCommandSeparatorAndNormalize("/" + name + "_" + args) == "/" + name + " " + args
  {
    FixSeparatorExact(name, args);
    var r := "/" + name + " " + args;
    assert r[0] == '/' && r[|r| - 1] == args[|args| - 1];
    TrimMatchesNoOp(r, IsWhiteSpace);
  }

  const ESCAPED_DASH: string := "_uwu_"

  /** Telegram commands cannot contain `-`, so each `-` of a sticker's unique
      id is spelled `_uwu_`. */
  function EscapeStickerUniqueIdForCommand(id: string): (r: string)
    ensures '-' !in r
  {
    ReplaceCharRemoves(id, '-', ESCAPED_DASH);
    ReplaceAll(id, "-", ESCAPED_DASH)
  }

  function UnescapeStickerUniqueIdFromCommand(id: string): string {
    ReplaceAll(id, ESCAPED_DASH, "-")
  }

  /** The escaped form of an id starts with a text free of `_` only if the
      id itself does (every escaped `-` starts with `_`). */
  lemma {:induction false} EscapedPrefix(w: string, id: string)
    requires '_' !in w
    requires StartsWith(EscapeStickerUniqueIdForCommand(id), w)
    ensures StartsWith(id, w)
    decreases |w|
  {
    if |w| > 0 {
      var e := EscapeStickerUniqueIdForCommand(id);
      assert |id| > 0;
      assert e[0] == w[0];
      assert e == [id[0]] + EscapeStickerUniqueIdForCommand(id[1..]);
      assert StartsWith(EscapeStickerUniqueIdForCommand(id[1..]), w[1..]);
      EscapedPrefix(w[1..], id[1..]);
      assert id == [id[0]] + id[1..] && w == [w[0]] + w[1..];
    }
  }

  /** An escaped id can only start with `_uwu_` through an escaped dash or
      through an id that itself starts with `_uwu`. */
  lemma EscapedHead(id: string)
    requires |id| > 0 && id[0] != '-'
    ensures var e := EscapeStickerUniqueIdForCommand(id);
      |e| >= 5 && e[..5] == ESCAPED_DASH ==> "_uwu" <= id
  {
    var tail := id[1..];
    var et := EscapeStickerUniqueIdForCommand(tail);
    var e := [id[0]] + et;
    assert EscapeStickerUniqueIdForCommand(id) == e;
    if |e| >= 5 && e[..5] == ESCAPED_DASH {
      var h := e[..5];
      assert h == "_uwu_";
      assert h[1] == 'u' && h[2] == 'w' && h[3] == 'u';
      assert et[0] == e[1] == h[1] && et[1] == e[2] == h[2] && et[2] == e[3] == h[3];
      assert et[..3] == "uwu";
      EscapedPrefix("uwu", tail);
      assert id[0] == e[0] == '_';
      assert id[1..4] == tail[..3] == "uwu";
    }
  }

  /** Unescaping undoes escaping for every id in which `_uwu` does not occur. */
  lemma {:induction false} EscapeRoundTrip(id: string)
    requires !Contains(id, "_uwu")
    ensures UnescapeStickerUniqueIdFromCommand(EscapeStickerUniqueIdForCommand(id)) == id
    decreases |id|
  {
    if |id| > 0 {
      var tail := id[1..];
      assert !Contains(tail, "_uwu");
      EscapeRoundTrip(tail);
      var et := EscapeStickerUniqueIdForCommand(tail);
      if id[0] == '-' {
        var e := ESCAPED_DASH + et;
        assert EscapeStickerUniqueIdForCommand(id) == e;
        assert e[..5] == ESCAPED_DASH && e[5..] == et;
      } else {
        var e := [id[0]] + et;
        assert EscapeStickerUniqueIdForCommand(id) == e;
        EscapedHead(id);
        assert e[1..] == et;
        if |e| < 5 {
          assert UnescapeStickerUniqueIdFromCommand(et) == et;
        }
        assert id == [id[0]] + tail;
      }
    }
  }

  /** An id containing `_uwu` can fail to come back: `_uwu-` escapes to
      `_uwu_uwu_`, whose first `_uwu_` is read as a dash. */
  lemma EscapeRoundTripCounterexample()
    ensures UnescapeStickerUniqueIdFromCommand(EscapeStickerUniqueIdForCommand("_uwu-")) == "-uwu_"
  {
    assert EscapeStickerUniqueIdForCommand("_uwu-") == "_uwu_uwu_";
  }

  /** The ids of the unit tests come back unchanged. */
  lemma EscapeRoundTripSamples()
    ensures forall id | id in ["asdf", "as-d-f", "as_d-f", "as__d-f", "as_-_d-f", "as_-df",
                                 "as-_df", "as--df", "as___df", "as---df"]
              :: UnescapeStickerUniqueIdFromCommand(EscapeStickerUniqueIdForCommand(id)) == id
  {
    forall id | id in ["asdf", "as-d-f", "as_d-f", "as__d-f", "as_-_d-f", "as_-df",
                       "as-_df", "as--df", "as___df", "as---df"]
      ensures UnescapeStickerUniqueIdFromCommand(EscapeStickerUniqueIdForCommand(id)) == id
    {
      if Contains(id, "_uwu") {
        ContainsChar(id, "_uwu", 'w');
      }
      EscapeRoundTrip(id);
    }
  }
}
