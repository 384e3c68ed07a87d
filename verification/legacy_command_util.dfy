/** Command-text helpers of the older tree. */
module LegacyCommandUtil {
  import opened Strings
  import opened CommandSeparator

  /** The separator rewrite alone; this version does not trim. */
  function FixUnderlineCommandSeparator(text: string): (r: string)
    ensures |r| == |text|
    ensures r != text ==> HasUnderlineSeparator(text)
  {
    FixSeparator(text)
  }

  const ESCAPED_DASH: string := "___"

  /** Each `-` of a sticker's unique id is spelled `___`. */
  function EscapeStickerUniqueIdForCommand(id: string): (r: string)
    ensures '-' !in r
  {
    ReplaceCharRemoves(id, '-', ESCAPED_DASH);
    ReplaceAll(id, "-", ESCAPED_DASH)
  }

  function UnescapeStickerUniqueIdFromCommand(id: string): string {
    ReplaceAll(id, ESCAPED_DASH, "-")
  }

  /** Unescaping undoes escaping for every id without `_`. */
  lemma {:induction false} EscapeRoundTrip(id: string)
    requires '_' !in id
    ensures UnescapeStickerUniqueIdFromCommand(EscapeStickerUniqueIdForCommand(id)) == id
    decreases |id|
  {
    if |id| > 0 {
      var tail := id[1..];
      assert '_' !in tail by {
        forall i | 0 <= i < |tail| ensures tail[i] != '_' { assert tail[i] == id[i + 1]; }
      }
      EscapeRoundTrip(tail);
      var et := EscapeStickerUniqueIdForCommand(tail);
      if id[0] == '-' {
        var e := ESCAPED_DASH + et;
        assert EscapeStickerUniqueIdForCommand(id) == e;
        assert e[..3] == ESCAPED_DASH && e[3..] == et;
      } else {
        var e := [id[0]] + et;
        assert EscapeStickerUniqueIdForCommand(id) == e;
        assert e[0] != '_';
        assert e[1..] == et;
        if |e| < 3 {
          assert UnescapeStickerUniqueIdFromCommand(et) == et;
        }
        assert id == [id[0]] + tail;
      }
    }
  }

  /** With `_` the round trip can fail: `_-` escapes to `____`, whose first
      three underscores are read as the dash. */
  lemma EscapeRoundTripCounterexample()
    ensures UnescapeStickerUniqueIdFromCommand(EscapeStickerUniqueIdForCommand("_-")) == "-_"
  {
    assert EscapeStickerUniqueIdForCommand("_-") == "____";
  }
}
