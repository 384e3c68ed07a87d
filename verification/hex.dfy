/** The `hex` crate's `encode` (lower-case, two digits per byte) and
    `decode` (either case; fails on odd length or a non-hex character). */
module Hex {
  import opened Wrappers
  import opened Strings

  type Byte = b: int | 0 <= b < 256

  function DigitValue(c: char): (v: nat)
    requires IsHexDigit(c)
    ensures v < 16
  {
    if IsAsciiDigit(c) then c as int - '0' as int
    else if 'a' <= c <= 'f' then c as int - 'a' as int + 10
    else c as int - 'A' as int + 10
  }

  function LowerDigit(d: nat): (c: char)
    requires d < 16
    ensures IsHexDigit(c) && !IsAsciiUpper(c)
  {
    if d < 10 then ('0' as int + d) as char else ('a' as int + d - 10) as char
  }

  /** `hex::encode`. */
  function Encode(bytes: seq<Byte>): string
    decreases |bytes|
  {
    if |bytes| == 0 then ""
    else [LowerDigit(bytes[0] / 16), LowerDigit(bytes[0] % 16)] + Encode(bytes[1..])
  }

  /** The pairs of a string of hex digits of even length, as bytes. */
  function DecodePairs(s: string): seq<Byte>
    requires |s| % 2 == 0 && All(s, IsHexDigit)
    decreases |s|
  {
    if |s| == 0 then []
    else [DigitValue(s[0]) * 16 + DigitValue(s[1])] + DecodePairs(s[2..])
  }

  /** `hex::decode`: `None` stands for both of its errors. */
  function Decode(s: string): (r: Option<seq<Byte>>)
    ensures r.None? <==> |s| % 2 != 0 || exists i :: 0 <= i < |s| && !IsHexDigit(s[i])
  {
    if |s| % 2 != 0 || !All(s, IsHexDigit) then None else Some(DecodePairs(s))
  }

  /** Encoding yields two lower-case hex digits per byte. */
  lemma {:induction false} EncodeShape(bytes: seq<Byte>)
    ensures |Encode(bytes)| == 2 * |bytes|
    ensures forall i :: 0 <= i < |Encode(bytes)| ==> IsHexDigit(Encode(bytes)[i]) && !IsAsciiUpper(Encode(bytes)[i])
    decreases |bytes|
  {
    if |bytes| > 0 {
      EncodeShape(bytes[1..]);
    }
  }

  lemma DigitRoundTrip(d: nat)
    requires d < 16
    ensures DigitValue(LowerDigit(d)) == d
  {
  }

  lemma {:induction false} DecodePairsEncode(bytes: seq<Byte>)
    ensures |Encode(bytes)| % 2 == 0 && All(Encode(bytes), IsHexDigit)
    ensures DecodePairs(Encode(bytes)) == bytes
    decreases |bytes|
  {
    EncodeShape(bytes);
    if |bytes| > 0 {
      var b := bytes[0];
      var s := Encode(bytes);
      DecodePairsEncode(bytes[1..]);
      DigitRoundTrip(b / 16);
      DigitRoundTrip(b % 16);
      assert s[2..] == Encode(bytes[1..]);
      assert bytes == [b] + bytes[1..];
    }
  }

  /** Decoding what was encoded gives the bytes back. */
  lemma EncodeDecode(bytes: seq<Byte>)
    ensures Decode(Encode(bytes)) == Some(bytes)
  {
    DecodePairsEncode(bytes);
  }

  lemma DigitCanonical(c: char)
    requires IsHexDigit(c)
    ensures LowerDigit(DigitValue(c)) == AsciiLowerChar(c)
  {
  }

  lemma {:induction false} EncodeDecodePairs(s: string)
    requires |s| % 2 == 0 && All(s, IsHexDigit)
    ensures Encode(DecodePairs(s)) == AsciiLower(s)
    decreases |s|
  {
    if |s| > 0 {
      var rest := s[2..];
      assert All(rest, IsHexDigit) by {
        forall i | 0 <= i < |rest| ensures IsHexDigit(rest[i]) { assert rest[i] == s[i + 2]; }
      }
      EncodeDecodePairs(rest);
      var b: Byte := DigitValue(s[0]) * 16 + DigitValue(s[1]);
      assert b / 16 == DigitValue(s[0]) && b % 16 == DigitValue(s[1]);
      DigitCanonical(s[0]);
      DigitCanonical(s[1]);
      var lower := AsciiLower(s);
      assert lower == [lower[0], lower[1]] + AsciiLower(rest);
    }
  }

  /** Whatever decodes is the encoding of its bytes, up to letter case. */
  lemma DecodeEncode(s: string)
    requires Decode(s).Some?
    ensures Encode(Decode(s).value) == AsciiLower(s)
  {
    EncodeDecodePairs(s);
  }
}
