/** The Mini App page script: it reads the launch parameters Telegram left
    in session storage, normalises every theme colour it understands to
    `#rrggbb`, and publishes each as a CSS custom property. */
module Theme {
  import opened Wrappers
  import opened Strings
  import Decimal
  import Hex

  const STORAGE_PREFIX := "__uwu__"
  const CSS_PREFIX := "--tg-"
  const THEME_PREFIX := "theme-"

  /** JavaScript's `\s`: WhiteSpace and LineTerminator of ECMAScript, which
      unlike Unicode White_Space includes U+FEFF and leaves out U+0085. */
  predicate IsJsSpace(c: char) {
    ('\t' <= c <= '\r') || c == ' ' || c == '\U{00A0}' || c == '\U{1680}'
    || ('\U{2000}' <= c <= '\U{200A}') || c == '\U{2028}' || c == '\U{2029}'
    || c == '\U{202F}' || c == '\U{205F}' || c == '\U{3000}' || c == '\U{FEFF}'
  }

  function JsTrim(s: string): string {
    TrimMatches(s, IsJsSpace)
  }

  predicate IsLowerHexDigit(c: char) { IsHexDigit(c) && !IsAsciiUpper(c) }

  /** The length of the longest prefix of `p`-characters. */
  function Run(s: string, p: char -> bool): (n: nat)
    ensures n <= |s| && All(s[..n], p)
    ensures n == |s| || !p(s[n])
    decreases |s|
  {
    if |s| > 0 && p(s[0]) then
      var n := 1 + Run(s[1..], p);
      assert s[..n] == [s[0]] + s[1..][..n - 1];
      n
    else 0
  }

  /** A run stops exactly at the first character outside the class. */
  lemma {:induction false} RunOf(w: string, rest: string, p: char -> bool)
    requires All(w, p)
    requires |rest| == 0 || !p(rest[0])
    ensures Run(w + rest, p) == |w|
    decreases |w|
  {
    if |w| > 0 {
      assert (w + rest)[0] == w[0];
      assert (w + rest)[1..] == w[1..] + rest;
      assert All(w[1..], p) by {
        forall i | 0 <= i < |w[1..]| ensures p(w[1..][i]) { assert w[1..][i] == w[i + 1]; }
      }
      RunOf(w[1..], rest, p);
    } else {
      assert w + rest == rest;
    }
  }

  // ---------------------------------------------------------------------
  // Colour channels
  // ---------------------------------------------------------------------

  /** `n.toString(16)`: lower-case hex digits without leading zeros. */
  function HexDigits(n: nat): (s: string)
    ensures |s| >= 1 && All(s, IsLowerHexDigit)
    ensures |s| > 1 ==> s[0] != '0'
  {
    if n < 16 then [Hex.LowerDigit(n)]
    else
      var prefix := HexDigits(n / 16);
      var s := prefix + [Hex.LowerDigit(n % 16)];
      assert s[0] == prefix[0];
      s
  }

  /** The value of a string of hex digits, most significant first. */
  function HexValue(s: string): nat
    requires All(s, IsHexDigit)
    decreases |s|
  {
    if |s| == 0 then 0
    else
      var init := s[..|s| - 1];
      assert All(init, IsHexDigit) by {
        forall i | 0 <= i < |init| ensures IsHexDigit(init[i]) { assert init[i] == s[i]; }
      }
      HexValue(init) * 16 + Hex.DigitValue(s[|s| - 1])
  }

  /** Reading the hex text of a number gives the number back. */
  lemma {:induction false} HexDigitsValue(n: nat)
    ensures All(HexDigits(n), IsHexDigit)
    ensures HexValue(HexDigits(n)) == n
    decreases n
  {
    var s := HexDigits(n);
    assert All(s, IsHexDigit) by {
      forall i | 0 <= i < |s| ensures IsHexDigit(s[i]) { assert IsLowerHexDigit(s[i]); }
    }
    if n >= 16 {
      HexDigitsValue(n / 16);
      assert s[..|s| - 1] == HexDigits(n / 16);
      Hex.DigitRoundTrip(n % 16);
    } else {
      Hex.DigitRoundTrip(n);
    }
  }

  /** One channel as `main.js` renders it: a `0` before a single digit. */
  function Channel(n: nat): string {
    (if n < 16 then "0" else "") + HexDigits(n)
  }

  /** A channel below 256 is exactly the two-digit hex encoding of that
      byte, the same text `hex::encode` gives. */
  lemma ChannelIsByteHex(n: Hex.Byte)
    ensures Channel(n) == Hex.Encode([n])
    ensures |Channel(n)| == 2
  {
    assert Hex.Encode([n]) == [Hex.LowerDigit(n / 16), Hex.LowerDigit(n % 16)] + Hex.Encode([]);
    if n >= 16 {
      assert HexDigits(n) == HexDigits(n / 16) + [Hex.LowerDigit(n % 16)];
    }
  }

  /** A channel of 256 or more takes at least three digits. */
  lemma ChannelOverflow(n: nat)
    requires n >= 256
    ensures |Channel(n)| >= 3
  {
    assert HexDigits(n) == HexDigits(n / 16) + [Hex.LowerDigit(n % 16)];
    assert HexDigits(n / 16) == HexDigits(n / 256) + [Hex.LowerDigit(n / 16 % 16)];
  }

  // ---------------------------------------------------------------------
  // parseColorToHex
  // ---------------------------------------------------------------------

  predicate IsLongHex(t: string) { |t| == 7 && t[0] == '#' && All(t[1..], IsHexDigit) }
  predicate IsShortHex(t: string) { |t| == 4 && t[0] == '#' && All(t[1..], IsHexDigit) }

  /** A comma followed by any JavaScript whitespace; what follows. */
  function Comma(s: string): Option<string> {
    if |s| > 0 && s[0] == ',' then
      var rest := s[1..];
      Some(rest[Run(rest, IsJsSpace)..])
    else None
  }

  /** A run of at least one decimal digit, its value (`parseInt`), and what follows. */
  function Number(s: string): Option<(nat, string)> {
    var n := Run(s, IsAsciiDigit);
    if n == 0 then None
    else
      assert Decimal.AllDigits(s[..n]) by {
        forall i | 0 <= i < n ensures IsAsciiDigit(s[..n][i]) { }
      }
      Some((Decimal.DigitsValue(s[..n]), s[n..]))
  }

  /** The optional alpha group `,\s*\d+\.?\d*`, which must reach the closing
      parenthesis; its value is ignored. */
  predicate AlphaTail(s: string) {
    match Comma(s)
    case None => false
    case Some(u) =>
      var m := Run(u, IsAsciiDigit);
      m > 0 && (m == |u| || (u[m] == '.' && All(u[m + 1..], IsAsciiDigit)))
  }

  /** The three channels between the parentheses of `rgb(...)`/`rgba(...)`. */
  function Channels(s: string): Option<(nat, nat, nat)> {
    var (r, s1) :- Number(s);
    var s1' :- Comma(s1);
    var (g, s2) :- Number(s1');
    var s2' :- Comma(s2);
    var (b, s3) :- Number(s2');
    if s3 == "" || AlphaTail(s3) then Some((r, g, b)) else None
  }

  /** The case-sensitive `rgba?(` ... `)` form of a trimmed colour. */
  function RgbChannels(t: string): Option<(nat, nat, nat)> {
    var open := if "rgba(" <= t then 5 else if "rgb(" <= t then 4 else 0;
    if open == 0 || |t| < open + 1 || t[|t| - 1] != ')' then None
    else Channels(t[open..|t| - 1])
  }

  /** The text of three channels; `clamp` selects whether each is first
      limited to 255. */
  function RgbHex(r: nat, g: nat, b: nat, clamp: bool): string {
    if clamp then "#" + Channel(Clamp(r)) + Channel(Clamp(g)) + Channel(Clamp(b))
    else "#" + Channel(r) + Channel(g) + Channel(b)
  }

  /** The three patterns of `parseColorToHex`, tried in order on a colour
      whose surrounding whitespace is already gone. */
  function ParseTrimmed(t: string, clamp: bool): Option<string> {
    if IsLongHex(t) then Some("#" + AsciiLower(t[1..]))
    else if IsShortHex(t) then Some("#" + AsciiLower([t[1], t[1], t[2], t[2], t[3], t[3]]))
    else match RgbChannels(t)
      case None => None
      case Some((r, g, b)) => Some(RgbHex(r, g, b, clamp))
  }

  /** `parseColorToHex` with the choice of clamping: the patterns are
      anchored by `^\s*` and `\s*$`, which is the same as matching the
      trimmed text. */
  function ParseColor(color: string, clamp: bool): Option<string> {
    ParseTrimmed(JsTrim(color), clamp)
  }

  function Clamp(n: nat): (c: Hex.Byte)
    ensures c <= n && (n <= 255 ==> c == n)
  {
    if n > 255 then 255 else n
  }

  /** A normalised colour: `#` and at least six lower-case hex digits. */
  predicate IsHexColor(c: string) {
    |c| >= 7 && c[0] == '#' && All(c[1..], IsLowerHexDigit)
  }

  /** `parseColorToHex` as written: channels of 256 or more are rendered
      with all their digits. `None` stands for its `false`. */
  function ParseColorToHexAsWritten(color: string): (r: Option<string>)
    ensures r.Some? ==> IsHexColor(r.value)
  {
    TrimmedShape(JsTrim(color), false);
    ParseColor(color, false)
  }

  /** `parseColorToHex` with every channel clamped to 0..255 as CSS does:
      whatever it accepts becomes `#` and six lower-case hex digits. */
  function ParseColorToHex(color: string): (r: Option<string>)
    ensures r.Some? ==> IsHexColor(r.value) && |r.value| == 7
  {
    TrimmedShape(JsTrim(color), true);
    ParseColor(color, true)
  }

  lemma ChannelShape(n: nat)
    ensures |Channel(n)| >= 2 && All(Channel(n), IsLowerHexDigit)
    ensures n < 256 ==> |Channel(n)| == 2
  {
    if n < 256 { ChannelIsByteHex(n); } else { ChannelOverflow(n); }
    var c := Channel(n);
    var d := HexDigits(n);
    assert All(c, IsLowerHexDigit) by {
      forall i | 0 <= i < |c| ensures IsLowerHexDigit(c[i]) {
        if n < 16 { if i > 0 { assert c[i] == d[i - 1]; } } else { assert c[i] == d[i]; }
      }
    }
  }

  lemma LowerConcat(a: string, b: string, c: string)
    requires All(a, IsLowerHexDigit) && All(b, IsLowerHexDigit) && All(c, IsLowerHexDigit)
    ensures All(a + b + c, IsLowerHexDigit)
  {
    var s := a + b + c;
    forall i | 0 <= i < |s| ensures IsLowerHexDigit(s[i]) {
      if i < |a| { assert s[i] == a[i]; }
      else if i < |a| + |b| { assert s[i] == b[i - |a|]; }
      else { assert s[i] == c[i - |a| - |b|]; }
    }
  }

  /** Lower-casing hex digits gives lower-case hex digits. */
  lemma LowerOfHex(h: string)
    requires All(h, IsHexDigit)
    ensures All(AsciiLower(h), IsLowerHexDigit)
  {
    var l := AsciiLower(h);
    forall i | 0 <= i < |l| ensures IsLowerHexDigit(l[i]) {
      assert l[i] == AsciiLowerChar(h[i]);
    }
  }

  lemma HexColorOf(h: string)
    requires All(h, IsHexDigit) && |h| == 6
    ensures IsHexColor("#" + AsciiLower(h)) && |"#" + AsciiLower(h)| == 7
  {
    LowerOfHex(h);
    assert ("#" + AsciiLower(h))[1..] == AsciiLower(h);
  }

  lemma RgbHexShape(r: nat, g: nat, b: nat, clamp: bool)
    ensures IsHexColor(RgbHex(r, g, b, clamp))
    ensures clamp ==> |RgbHex(r, g, b, clamp)| == 7
  {
    var (x, y, z) := if clamp then (Clamp(r), Clamp(g), Clamp(b)) else (r, g, b);
    ChannelShape(x);
    ChannelShape(y);
    ChannelShape(z);
    LowerConcat(Channel(x), Channel(y), Channel(z));
    assert RgbHex(r, g, b, clamp) == "#" + (Channel(x) + Channel(y) + Channel(z));
  }

  lemma TrimmedShape(t: string, clamp: bool)
    ensures ParseTrimmed(t, clamp).Some? ==> IsHexColor(ParseTrimmed(t, clamp).value)
    ensures ParseTrimmed(t, clamp).Some? && clamp ==> |ParseTrimmed(t, clamp).value| == 7
  {
    if IsLongHex(t) {
      HexColorOf(t[1..]);
    } else if IsShortHex(t) {
      var d := [t[1], t[1], t[2], t[2], t[3], t[3]];
      assert All(d, IsHexDigit) by {
        assert t[1] == t[1..][0] && t[2] == t[1..][1] && t[3] == t[1..][2];
      }
      HexColorOf(d);
    } else if RgbChannels(t).Some? {
      var (x, y, z) := RgbChannels(t).value;
      RgbHexShape(x, y, z, clamp);
    }
  }

  /** Matching the patterns on the text or on its trimmed core is the same. */
  lemma ParsePadded(w1: string, core: string, w2: string, clamp: bool)
    requires All(w1, IsJsSpace) && All(w2, IsJsSpace)
    requires |core| > 0 && !IsJsSpace(core[0]) && !IsJsSpace(core[|core| - 1])
    ensures ParseColor(w1 + core + w2, clamp) == ParseTrimmed(core, clamp)
  {
    TrimAround(w1, core, w2, IsJsSpace);
  }

  lemma LongCore(h: string, clamp: bool)
    requires |h| == 6 && All(h, IsHexDigit)
    ensures ParseTrimmed("#" + h, clamp) == Some("#" + AsciiLower(h))
  {
    assert ("#" + h)[1..] == h;
  }

  /** A colour `#RRGGBB` in either case, padded with JavaScript whitespace,
      normalises to `#` and the same six digits in lower case. */
  lemma LongHexForm(w1: string, h: string, w2: string)
    requires All(w1, IsJsSpace) && All(w2, IsJsSpace)
    requires |h| == 6 && All(h, IsHexDigit)
    ensures ParseColorToHex(w1 + ("#" + h) + w2) == Some("#" + AsciiLower(h))
    ensures ParseColorToHexAsWritten(w1 + ("#" + h) + w2) == Some("#" + AsciiLower(h))
  {
    var core := "#" + h;
    assert !IsJsSpace(core[0]) && !IsJsSpace(core[6]) by { assert core[6] == h[5]; }
    ParsePadded(w1, core, w2, true);
    ParsePadded(w1, core, w2, false);
    LongCore(h, true);
    LongCore(h, false);
  }

  lemma ShortCore(a: char, b: char, c: char, clamp: bool)
    requires IsHexDigit(a) && IsHexDigit(b) && IsHexDigit(c)
    ensures ParseTrimmed(['#', a, b, c], clamp) == Some("#" + AsciiLower([a, a, b, b, c, c]))
  {
    var t := ['#', a, b, c];
    assert t[1..] == [a, b, c];
    assert All(t[1..], IsHexDigit);
    assert !IsLongHex(t) && IsShortHex(t);
  }

  /** A colour `#RGB` normalises to `#RRGGBB` with each digit doubled, in
      lower case. */
  lemma ShortHexForm(w1: string, a: char, b: char, c: char, w2: string)
    requires All(w1, IsJsSpace) && All(w2, IsJsSpace)
    requires IsHexDigit(a) && IsHexDigit(b) && IsHexDigit(c)
    ensures ParseColorToHex(w1 + ['#', a, b, c] + w2) == Some("#" + AsciiLower([a, a, b, b, c, c]))
    ensures ParseColorToHexAsWritten(w1 + ['#', a, b, c] + w2) == Some("#" + AsciiLower([a, a, b, b, c, c]))
  {
    ParsePadded(w1, ['#', a, b, c], w2, true);
    ParsePadded(w1, ['#', a, b, c], w2, false);
    ShortCore(a, b, c, true);
    ShortCore(a, b, c, false);
  }

  /** What the form `rgb(`/`rgba(` ... `)` looks like, written in the nested
      shape the channel reader consumes it in. */
  function RgbText(open: string, d1: string, x1: string, d2: string, x2: string, d3: string, alpha: string): string {
    open + (d1 + ("," + (x1 + (d2 + ("," + (x2 + (d3 + (alpha + ")"))))))))
  }

  lemma DigitNotSpace(s: string)
    requires |s| > 0 && Decimal.AllDigits(s)
    ensures !IsJsSpace(s[0]) && IsAsciiDigit(s[0])
  {
  }

  /** One channel followed by its separator is consumed exactly. */
  lemma NumberThenComma(d: string, x: string, rest: string)
    requires |d| > 0 && Decimal.AllDigits(d)
    requires All(x, IsJsSpace)
    requires |rest| > 0 && !IsJsSpace(rest[0])
    ensures Number(d + ("," + (x + rest))) == Some((Decimal.DigitsValue(d), "," + (x + rest)))
    ensures Comma("," + (x + rest)) == Some(rest)
  {
    RunOf(d, "," + (x + rest), IsAsciiDigit);
    assert (d + ("," + (x + rest)))[..|d|] == d;
    assert ("," + (x + rest))[1..] == x + rest;
    RunOf(x, rest, IsJsSpace);
  }

  /** The opening `rgb(` or `rgba(` and the closing parenthesis frame the
      channel list. */
  lemma RgbFrame(open: string, inner: string)
    requires open == "rgb(" || open == "rgba("
    requires |inner| > 0 && IsAsciiDigit(inner[0])
    ensures RgbChannels(open + (inner + ")")) == Channels(inner)
  {
    var t := open + (inner + ")");
    assert t[|t| - 1] == ')';
    assert t[|open|..|t| - 1] == inner;
    if open == "rgb(" {
      assert t[..4] == "rgb(" && t[4] == inner[0];
      assert !("rgba(" <= t) by { assert t[3] == '('; }
    } else {
      assert t[..5] == "rgba(";
    }
  }

  /** Three channels with their separators, and an optional alpha. */
  lemma ChannelsOf(d1: string, x1: string, d2: string, x2: string, d3: string, alpha: string)
    requires All(x1, IsJsSpace) && All(x2, IsJsSpace)
    requires |d1| > 0 && |d2| > 0 && |d3| > 0
    requires Decimal.AllDigits(d1) && Decimal.AllDigits(d2) && Decimal.AllDigits(d3)
    requires alpha == "" || AlphaTail(alpha)
    ensures Channels(d1 + ("," + (x1 + (d2 + ("," + (x2 + (d3 + alpha)))))))
            == Some((Decimal.DigitsValue(d1), Decimal.DigitsValue(d2), Decimal.DigitsValue(d3)))
  {
    var rest2 := d3 + alpha;
    var rest1 := d2 + ("," + (x2 + rest2));
    var (v1, v2, v3) := (Decimal.DigitsValue(d1), Decimal.DigitsValue(d2), Decimal.DigitsValue(d3));
    assert Number(d1 + ("," + (x1 + rest1))) == Some((v1, "," + (x1 + rest1)))
        && Comma("," + (x1 + rest1)) == Some(rest1) by {
      DigitNotSpace(d2);
      NumberThenComma(d1, x1, rest1);
    }
    assert Number(rest1) == Some((v2, "," + (x2 + rest2))) && Comma("," + (x2 + rest2)) == Some(rest2) by {
      DigitNotSpace(d3);
      NumberThenComma(d2, x2, rest2);
    }
    assert Number(rest2) == Some((v3, alpha)) by {
      NumberLast(d3, alpha);
    }
    ChannelsSteps(d1 + ("," + (x1 + rest1)), v1, "," + (x1 + rest1), rest1, v2, "," + (x2 + rest2), rest2, v3, alpha);
  }

  /** The channel list read piece by piece. */
  lemma ChannelsSteps(s: string, v1: nat, r1: string, s1: string, v2: nat, r2: string, s2: string, v3: nat, alpha: string)
    requires Number(s) == Some((v1, r1)) && Comma(r1) == Some(s1)
    requires Number(s1) == Some((v2, r2)) && Comma(r2) == Some(s2)
    requires Number(s2) == Some((v3, alpha)) && (alpha == "" || AlphaTail(alpha))
    ensures Channels(s) == Some((v1, v2, v3))
  {
  }

  /** The last channel, followed by the alpha group or nothing. */
  lemma NumberLast(d: string, alpha: string)
    requires |d| > 0 && Decimal.AllDigits(d)
    requires alpha == "" || AlphaTail(alpha)
    ensures Number(d + alpha) == Some((Decimal.DigitsValue(d), alpha))
  {
    assert alpha != "" ==> alpha[0] == ',';
    RunOf(d, alpha, IsAsciiDigit);
    assert (d + alpha)[..|d|] == d && (d + alpha)[|d|..] == alpha;
  }

  lemma RgbCore(open: string, d1: string, x1: string, d2: string, x2: string, d3: string,
                alpha: string, clamp: bool)
    requires All(x1, IsJsSpace) && All(x2, IsJsSpace)
    requires open == "rgb(" || open == "rgba("
    requires |d1| > 0 && |d2| > 0 && |d3| > 0
    requires Decimal.AllDigits(d1) && Decimal.AllDigits(d2) && Decimal.AllDigits(d3)
    requires alpha == "" || AlphaTail(alpha)
    ensures ParseTrimmed(RgbText(open, d1, x1, d2, x2, d3, alpha), clamp)
            == Some(RgbHex(Decimal.DigitsValue(d1), Decimal.DigitsValue(d2), Decimal.DigitsValue(d3), clamp))
  {
    var inner := d1 + ("," + (x1 + (d2 + ("," + (x2 + (d3 + alpha))))));
    var core := RgbText(open, d1, x1, d2, x2, d3, alpha);
    assert core == open + (inner + ")");
    assert core[0] == 'r';
    assert inner[0] == d1[0];
    RgbFrame(open, inner);
    ChannelsOf(d1, x1, d2, x2, d3, alpha);
  }

  /** `rgb(r, g, b)` and `rgba(r, g, b, a)`, padded with whitespace, give
      `#` and each channel in two hex digits, the alpha ignored; as written
      a channel is not clamped. */
  lemma RgbForm(w1: string, open: string, d1: string, x1: string, d2: string, x2: string, d3: string,
                alpha: string, w2: string)
    requires All(w1, IsJsSpace) && All(w2, IsJsSpace) && All(x1, IsJsSpace) && All(x2, IsJsSpace)
    requires open == "rgb(" || open == "rgba("
    requires |d1| > 0 && |d2| > 0 && |d3| > 0
    requires Decimal.AllDigits(d1) && Decimal.AllDigits(d2) && Decimal.AllDigits(d3)
    requires alpha == "" || AlphaTail(alpha)
    ensures var s := w1 + RgbText(open, d1, x1, d2, x2, d3, alpha) + w2;
            var (r, g, b) := (Decimal.DigitsValue(d1), Decimal.DigitsValue(d2), Decimal.DigitsValue(d3));
            ParseColorToHexAsWritten(s) == Some(RgbHex(r, g, b, false))
            && ParseColorToHex(s) == Some(RgbHex(r, g, b, true))
  {
    var core := RgbText(open, d1, x1, d2, x2, d3, alpha);
    assert core[0] == 'r' && core[|core| - 1] == ')';
    ParsePadded(w1, core, w2, true);
    ParsePadded(w1, core, w2, false);
    RgbCore(open, d1, x1, d2, x2, d3, alpha, true);
    RgbCore(open, d1, x1, d2, x2, d3, alpha, false);
  }

  /** A seven-character normalised colour parses to itself. */
  lemma HexColorFixed(c: string)
    requires IsHexColor(c) && |c| == 7
    ensures ParseColorToHex(c) == Some(c)
  {
    var h := c[1..];
    assert c == "#" + h;
    assert All(h, IsHexDigit) by {
      forall i | 0 <= i < |h| ensures IsHexDigit(h[i]) { assert IsLowerHexDigit(h[i]); }
    }
    assert AsciiLower(h) == h by {
      forall i | 0 <= i < |h| ensures AsciiLower(h)[i] == h[i] { assert IsLowerHexDigit(h[i]); }
    }
    TrimMatchesNoOp(c, IsJsSpace);
    LongCore(h, true);
  }

  /** Every normalised colour is its own normal form: parsing the output
      again gives it back. */
  lemma NormalFormFixed(color: string)
    requires ParseColorToHex(color).Some?
    ensures ParseColorToHex(ParseColorToHex(color).value) == ParseColorToHex(color)
  {
    HexColorFixed(ParseColorToHex(color).value);
  }

  /** `#0aF` becomes `#00aaff`. */
  lemma ExampleShortHex()
    ensures ParseColorToHex("#0aF") == Some("#00aaff")
  {
    TrimMatchesNoOp("#0aF", IsJsSpace);
    ShortExampleCore();
  }

  lemma ShortExampleCore()
    ensures ParseTrimmed("#0aF", true) == Some("#00aaff")
  {
    ShortCore('0', 'a', 'F', true);
    assert ['#', '0', 'a', 'F'] == "#0aF";
    var l := AsciiLower(['0', '0', 'a', 'a', 'F', 'F']);
    assert l[0] == '0' && l[1] == '0' && l[2] == 'a' && l[3] == 'a' && l[4] == 'f' && l[5] == 'f';
    assert l == "00aaff";
    assert "#" + l == "#00aaff";
  }

  lemma DigitsExamples()
    ensures Decimal.DigitsValue("0") == 0 && Decimal.DigitsValue("16") == 16
    ensures Decimal.DigitsValue("128") == 128 && Decimal.DigitsValue("255") == 255
    ensures Decimal.DigitsValue("256") == 256
  {
    assert Decimal.NatToString(0) == "0";
    assert Decimal.NatToString(16) == "16";
    assert Decimal.NatToString(128) == "128";
    assert Decimal.NatToString(255) == "255";
    assert Decimal.NatToString(256) == "256";
  }

  lemma RgbExampleCore()
    ensures ParseTrimmed("rgb(255, 0, 128)", true) == Some(RgbHex(255, 0, 128, true))
  {
    DigitsExamples();
    assert RgbText("rgb(", "255", " ", "0", " ", "128", "") == "rgb(255, 0, 128)";
    RgbCore("rgb(", "255", " ", "0", " ", "128", "", true);
  }

  lemma RgbExampleHex()
    ensures RgbHex(255, 0, 128, true) == "#ff0080"
  {
    ChannelIsByteHex(255);
    ChannelIsByteHex(0);
    ChannelIsByteHex(128);
    assert Hex.Encode([255]) == "ff" && Hex.Encode([0]) == "00" && Hex.Encode([128]) == "80";
  }

  /** `rgb(255, 0, 128)` becomes `#ff0080`. */
  lemma ExampleRgb()
    ensures ParseColorToHex("rgb(255, 0, 128)") == Some("#ff0080")
  {
    TrimMatchesNoOp("rgb(255, 0, 128)", IsJsSpace);
    RgbExampleCore();
    RgbExampleHex();
  }

  lemma RgbaExampleCore()
    ensures ParseTrimmed("rgba(16, 16, 16, 0.5)", true) == Some(RgbHex(16, 16, 16, true))
  {
    DigitsExamples();
    AlphaExample();
    assert RgbText("rgba(", "16", " ", "16", " ", "16", ", 0.5") == "rgba(16, 16, 16, 0.5)";
    RgbCore("rgba(", "16", " ", "16", " ", "16", ", 0.5", true);
  }

  lemma AlphaExample()
    ensures AlphaTail(", 0.5")
  {
    assert Comma(", 0.5") == Some("0.5") by {
      RunOf(" ", "0.5", IsJsSpace);
      assert ", 0.5"[1..] == " " + "0.5";
    }
    RunOf("0", ".5", IsAsciiDigit);
    assert "0" + ".5" == "0.5";
  }

  /** `rgba(16, 16, 16, 0.5)` becomes `#101010`: the alpha is dropped. */
  lemma ExampleRgba()
    ensures ParseColorToHex("rgba(16, 16, 16, 0.5)") == Some("#101010")
  {
    TrimMatchesNoOp("rgba(16, 16, 16, 0.5)", IsJsSpace);
    RgbaExampleCore();
    RgbaExampleHex();
  }

  lemma RgbaExampleHex()
    ensures RgbHex(16, 16, 16, true) == "#101010"
  {
    ChannelIsByteHex(16);
    assert Hex.Encode([16]) == "10";
  }

  /** Only text that, once trimmed, starts with `#` or `r` can be accepted:
      `not-a-color` is refused, and so is the upper-case `RGB(` spelling,
      since only the hex forms ignore case. */
  lemma RefusesOtherStart(color: string)
    requires var t := JsTrim(color); |t| == 0 || (t[0] != '#' && t[0] != 'r')
    ensures ParseColorToHex(color).None? && ParseColorToHexAsWritten(color).None?
  {
  }

  /** What gets through is one of the three forms after trimming. */
  lemma AcceptedForms(color: string)
    ensures ParseColorToHex(color).Some? <==> ParseColorToHexAsWritten(color).Some?
    ensures ParseColorToHex(color).Some? <==>
      var t := JsTrim(color); IsLongHex(t) || IsShortHex(t) || RgbChannels(t).Some?
  {
  }

  lemma OverflowExampleCore(clamp: bool)
    ensures ParseTrimmed("rgb(256,0,0)", clamp) == Some(RgbHex(256, 0, 0, clamp))
  {
    DigitsExamples();
    assert RgbText("rgb(", "256", "", "0", "", "0", "") == "rgb(256,0,0)";
    RgbCore("rgb(", "256", "", "0", "", "0", "", clamp);
  }

  lemma OverflowExampleHex()
    ensures RgbHex(256, 0, 0, false) == "#1000000" && RgbHex(256, 0, 0, true) == "#ff0000"
  {
    assert HexDigits(256) == HexDigits(16) + "0";
    assert HexDigits(16) == HexDigits(1) + "0";
  }

  /** As written, a channel of 256 or more overflows the two digits it is
      given: `rgb(256,0,0)` becomes the eight-character `#1000000`. The
      clamped version gives `#ff0000`. */
  lemma UnclampedChannelOverflows()
    ensures ParseColorToHexAsWritten("rgb(256,0,0)") == Some("#1000000")
  {
    TrimMatchesNoOp("rgb(256,0,0)", IsJsSpace);
    OverflowExampleCore(false);
    OverflowExampleHex();
  }

  /** Clamped, the same input gives `#ff0000`. */
  lemma ClampedChannel()
    ensures ParseColorToHex("rgb(256,0,0)") == Some("#ff0000")
  {
    TrimMatchesNoOp("rgb(256,0,0)", IsJsSpace);
    OverflowExampleCore(true);
    OverflowExampleHex();
  }

  /** Any channel of 256 or more makes the as-written output longer than a
      colour, while the clamped output is always seven characters. */
  lemma OverflowLength(r: nat, g: nat, b: nat)
    requires r >= 256 || g >= 256 || b >= 256
    ensures |RgbHex(r, g, b, false)| > 7
    ensures |RgbHex(r, g, b, true)| == 7
  {
    RgbHexShape(r, g, b, true);
    ChannelShape(r);
    ChannelShape(g);
    ChannelShape(b);
    if r >= 256 { ChannelOverflow(r); }
    if g >= 256 { ChannelOverflow(g); }
    if b >= 256 { ChannelOverflow(b); }
  }

  /** An overflowing output is not itself a colour `parseColorToHex`
      accepts, so as written the normal form is not stable. */
  lemma OverflowNotReparsed(c: string)
    requires IsHexColor(c) && |c| > 7
    ensures ParseColorToHexAsWritten(c).None?
  {
    assert IsLowerHexDigit(c[1..][|c| - 2]);
    TrimMatchesNoOp(c, IsJsSpace);
  }

  // ---------------------------------------------------------------------
  // CSS properties
  // ---------------------------------------------------------------------

  /** The document's custom properties; `None` when the page has no
      `documentElement.style.setProperty`. */
  type Style = map<string, string>

  /** `setCssProperty`: writes `--tg-` + name, or does nothing without a
      style object. */
  function SetCssProperty(root: Option<Style>, name: string, value: string): (r: Option<Style>)
    ensures r.Some? <==> root.Some?
    ensures r.Some? ==> CSS_PREFIX + name in r.value && r.value[CSS_PREFIX + name] == value
    ensures r.Some? ==> forall k :: k != CSS_PREFIX + name ==>
              (k in r.value <==> k in root.value) && (k in r.value ==> r.value[k] == root.value[k])
  {
    match root
    case None => None
    case Some(style) => Some(style[CSS_PREFIX + name := value])
  }

  /** Setting the same property twice is setting it once. */
  lemma SetCssPropertyIdempotent(root: Option<Style>, name: string, value: string)
    ensures SetCssProperty(SetCssProperty(root, name, value), name, value) == SetCssProperty(root, name, value)
  {
    if root.Some? {
      var once := root.value[CSS_PREFIX + name := value];
      assert once[CSS_PREFIX + name := value] == once;
    }
  }

  /** `key.split('_').join('-')`. */
  function Dashed(key: string): string {
    Join(Split(key, '_'), "-")
  }

  lemma DashedCons(key: string)
    requires |key| > 0
    ensures Dashed(key) == [if key[0] == '_' then '-' else key[0]] + Dashed(key[1..])
  {
    var rest := Split(key[1..], '_');
    if key[0] != '_' {
      assert Split(key, '_') == [[key[0]] + rest[0]] + rest[1..];
      if |rest| > 1 {
        assert Join(rest, "-") == rest[0] + "-" + Join(rest[1..], "-");
        assert ([[key[0]] + rest[0]] + rest[1..])[1..] == rest[1..];
      }
    } else {
      assert Split(key, '_') == [""] + rest;
      assert ([""] + rest)[1..] == rest;
    }
  }

  /** Every `_` of the key becomes `-`; every other character stays. */
  lemma {:induction false} DashedSpec(key: string)
    ensures |Dashed(key)| == |key|
    ensures forall i :: 0 <= i < |key| ==> Dashed(key)[i] == if key[i] == '_' then '-' else key[i]
    decreases |key|
  {
    if |key| > 0 {
      DashedCons(key);
      DashedSpec(key[1..]);
      var d := Dashed(key);
      forall i | 0 <= i < |key| ensures d[i] == if key[i] == '_' then '-' else key[i] {
        if i > 0 { assert d[i] == Dashed(key[1..])[i - 1] && key[i] == key[1..][i - 1]; }
      }
    }
  }

  /** The property a theme key is published under: `--tg-theme-` + the key
      with `_` turned into `-`. */
  function ThemeName(key: string): string {
    THEME_PREFIX + Dashed(key)
  }

  /** Published names start with `--tg-theme-`, contain no `_`, and are as
      long as the key plus the prefix. */
  lemma ThemeNameShape(key: string)
    ensures var v := CSS_PREFIX + ThemeName(key);
            StartsWith(v, "--tg-theme-") && '_' !in v && |v| == |key| + 11
  {
    DashedSpec(key);
    var d := Dashed(key);
    assert '_' !in d by {
      forall i | 0 <= i < |d| ensures d[i] != '_' { }
    }
    assert CSS_PREFIX + ThemeName(key) == "--tg-theme-" + d;
  }

  // ---------------------------------------------------------------------
  // setThemeParams
  // ---------------------------------------------------------------------

  /** One theme entry: the key and its value coerced to text. */
  type Entry = (string, string)

  function ApplyEntry(root: Option<Style>, e: Entry, clamp: bool): Option<Style> {
    match ParseColor(e.1, clamp)
    case None => root
    case Some(color) => SetCssProperty(root, ThemeName(e.0), color)
  }

  /** The loop of `setThemeParams`: entries in iteration order, a property
      written for each value that parses. */
  function ApplyEntries(root: Option<Style>, es: seq<Entry>, clamp: bool): Option<Style>
    decreases |es|
  {
    if |es| == 0 then root
    else ApplyEntry(ApplyEntries(root, es[..|es| - 1], clamp), es[|es| - 1], clamp)
  }

  /** The colour the last entry published under `name` carries, if any:
      later entries overwrite earlier ones. */
  function LastColor(es: seq<Entry>, name: string, clamp: bool): Option<string>
    decreases |es|
  {
    if |es| == 0 then None
    else
      var e := es[|es| - 1];
      var c := ParseColor(e.1, clamp);
      if c.Some? && CSS_PREFIX + ThemeName(e.0) == name then c
      else LastColor(es[..|es| - 1], name, clamp)
  }

  /** After the loop, a property holds the colour of the last entry that
      targets it; a property no parsing entry targets keeps what it had. */
  lemma {:induction false} ApplyEntriesValue(root: Option<Style>, es: seq<Entry>, clamp: bool, name: string)
    ensures ApplyEntries(root, es, clamp).Some? <==> root.Some?
    ensures root.Some? && LastColor(es, name, clamp).Some? ==>
              name in ApplyEntries(root, es, clamp).value
              && ApplyEntries(root, es, clamp).value[name] == LastColor(es, name, clamp).value
    ensures root.Some? && LastColor(es, name, clamp).None? ==>
              (name in ApplyEntries(root, es, clamp).value <==> name in root.value)
              && (name in root.value ==> ApplyEntries(root, es, clamp).value[name] == root.value[name])
    decreases |es|
  {
    if |es| > 0 {
      ApplyEntriesValue(root, es[..|es| - 1], clamp, name);
    }
  }

  /** Running the loop again over the same entries changes nothing. */
  lemma ApplyEntriesIdempotent(root: Option<Style>, es: seq<Entry>, clamp: bool)
    ensures ApplyEntries(ApplyEntries(root, es, clamp), es, clamp) == ApplyEntries(root, es, clamp)
  {
    var once := ApplyEntries(root, es, clamp);
    var twice := ApplyEntries(once, es, clamp);
    ApplyEntriesValue(root, es, clamp, "");
    ApplyEntriesValue(once, es, clamp, "");
    if root.Some? {
      forall k | k in twice.value ensures k in once.value && twice.value[k] == once.value[k] {
        ApplyEntriesValue(root, es, clamp, k);
        ApplyEntriesValue(once, es, clamp, k);
      }
      forall k | k in once.value ensures k in twice.value {
        ApplyEntriesValue(root, es, clamp, k);
        ApplyEntriesValue(once, es, clamp, k);
      }
      assert twice.value.Keys == once.value.Keys;
      assert twice.value == once.value;
    }
  }

  /** An entry whose value does not parse is skipped. */
  lemma SkipsUnparsable(root: Option<Style>, es: seq<Entry>, e: Entry, clamp: bool)
    requires ParseColor(e.1, clamp).None?
    ensures ApplyEntries(root, es + [e], clamp) == ApplyEntries(root, es, clamp)
  {
    assert (es + [e])[..|es|] == es;
  }

  /** The effect of `setThemeParams`: the document's properties, what it
      stored in session storage, and whether it threw. */
  datatype ThemeEffect = ThemeEffect(root: Option<Style>, saved: Option<seq<Entry>>, threw: bool)

  /** `setThemeParams` as written: after the loop it calls the undefined
      `Utils` with the undefined `themeParams`, which throws a
      ReferenceError, so nothing is ever stored. */
  function SetThemeParamsAsWritten(root: Option<Style>, es: seq<Entry>): (r: ThemeEffect)
    ensures r.threw && r.saved.None?
    ensures r.root.Some? <==> root.Some?
  {
    ApplyEntriesValue(root, es, false, "");
    ThemeEffect(ApplyEntries(root, es, false), None, true)
  }

  /** `setThemeParams` with the evident intent: the same writes, then the
      parameters kept in session storage. */
  function SetThemeParams(root: Option<Style>, es: seq<Entry>): (r: ThemeEffect)
    ensures !r.threw && r.saved == Some(es)
    ensures r.root.Some? <==> root.Some?
  {
    ApplyEntriesValue(root, es, true, "");
    ThemeEffect(ApplyEntries(root, es, true), Some(es), false)
  }

  // ---------------------------------------------------------------------
  // sessionStorageGet and the start-up code
  // ---------------------------------------------------------------------

  /** What `getItem` does for one key: throw (storage unavailable), return
      `null` (no such key), or return the stored text. */
  datatype StoreRead = Throws | Missing | Item(text: string)

  /** `JSON.parse(getItem(key))`; `None` when either throws. `JSON.parse(null)`
      parses the text `null`. */
  function ReadJson<J>(read: StoreRead, parse: string -> Option<J>): Option<J> {
    match read
    case Throws => None
    case Missing => parse("null")
    case Item(text) => parse(text)
  }

  /** `sessionStorageGet`: session storage first, local storage only when
      that read or its parse throws, and `None` (its `return null`) when
      both throw. */
  function SessionStorageGet<J>(key: string, session: string -> StoreRead, local: string -> StoreRead,
                                parse: string -> Option<J>): (r: Option<J>)
    ensures r.None? <==> ReadJson(session(STORAGE_PREFIX + key), parse).None?
                         && ReadJson(local(STORAGE_PREFIX + key), parse).None?
    ensures ReadJson(session(STORAGE_PREFIX + key), parse).Some? ==> r == ReadJson(session(STORAGE_PREFIX + key), parse)
    ensures r.Some? ==> r == ReadJson(session(STORAGE_PREFIX + key), parse) || r == ReadJson(local(STORAGE_PREFIX + key), parse)
  {
    match ReadJson(session(STORAGE_PREFIX + key), parse)
    case Some(v) => Some(v)
    case None => ReadJson(local(STORAGE_PREFIX + key), parse)
  }

  /** A key missing from session storage does not fall back to local
      storage: it reads as the JSON value `null`. */
  lemma MissingKeyReadsNull<J>(key: string, session: string -> StoreRead, local: string -> StoreRead,
                               parse: string -> Option<J>, jsNull: J)
    requires session(STORAGE_PREFIX + key) == Missing && parse("null") == Some(jsNull)
    ensures SessionStorageGet(key, session, local, parse) == Some(jsNull)
  {
  }

  /** Local storage is consulted only when session storage fails. */
  lemma SessionFirst<J>(key: string, session: string -> StoreRead, local: string -> StoreRead,
                        other: string -> StoreRead, parse: string -> Option<J>)
    requires ReadJson(session(STORAGE_PREFIX + key), parse).Some?
    ensures SessionStorageGet(key, session, local, parse) == SessionStorageGet(key, session, other, parse)
  {
  }

  /** The stored launch parameters, as far as the page looks at them: the
      JSON `null`, an object with or without a `tgWebAppThemeParams` text,
      or any other JSON value (whose properties read as `undefined`). */
  datatype InitValue = NullValue | ParamsObject(themeParams: Option<string>) | OtherValue

  /** The parsed theme: a falsy JSON value, or the enumerable entries of a
      truthy one in iteration order. */
  datatype ThemeValue = Falsy | Entries(entries: seq<Entry>)

  /** The page after its start-up code: either it stopped on an uncaught
      TypeError, or it ran, leaving these properties and this stored copy. */
  datatype Outcome = Crashed | Ran(root: Option<Style>, saved: Option<seq<Entry>>)

  /** The theme text the start-up code acts on: present and non-empty. */
  function ThemeText(init: InitValue): Option<string> {
    match init
    case ParamsObject(Some(text)) => if |text| > 0 then Some(text) else None
    case _ => None
  }

  /** Lines 2 and 15-23 as written: a `null` result (a missing key, or both
      storages failing) is dereferenced and stops the script; any exception
      inside the `try`, including the one `setThemeParams` always ends
      with, is swallowed after the writes it made. */
  function InitThemeAsWritten(session: string -> StoreRead, local: string -> StoreRead,
                              parseInit: string -> Option<InitValue>, parseTheme: string -> Option<ThemeValue>,
                              root: Option<Style>): (r: Outcome)
    ensures r.Ran? ==> r.saved.None?
    ensures r.Crashed? <==> SessionStorageGet("initParams", session, local, parseInit) in {None, Some(NullValue)}
  {
    var init := SessionStorageGet("initParams", session, local, parseInit);
    if init.None? || init.value.NullValue? then Crashed
    else match ThemeText(init.value)
      case None => Ran(root, None)
      case Some(text) =>
        match parseTheme(text)
        case Some(Entries(es)) =>
          var e := SetThemeParamsAsWritten(root, es);
          Ran(e.root, e.saved)
        case _ => Ran(root, None)
  }

  /** The start-up code with the evident intent: no launch parameters means
      no theme, and the parsed theme is applied and kept. */
  function InitTheme(session: string -> StoreRead, local: string -> StoreRead,
                     parseInit: string -> Option<InitValue>, parseTheme: string -> Option<ThemeValue>,
                     root: Option<Style>): (r: Outcome)
    ensures r.Ran?
  {
    var init := SessionStorageGet("initParams", session, local, parseInit);
    if init.None? then Ran(root, None)
    else match ThemeText(init.value)
      case None => Ran(root, None)
      case Some(text) =>
        match parseTheme(text)
        case Some(Entries(es)) =>
          var e := SetThemeParams(root, es);
          Ran(e.root, e.saved)
        case _ => Ran(root, None)
  }

  /** Outside a launch that stored parameters, the script as written stops
      at line 15; the corrected one leaves the page alone. */
  lemma MissingInitParamsCrash(session: string -> StoreRead, local: string -> StoreRead,
                               parseInit: string -> Option<InitValue>, parseTheme: string -> Option<ThemeValue>,
                               root: Option<Style>)
    requires session(STORAGE_PREFIX + "initParams") == Missing && parseInit("null") == Some(NullValue)
    ensures InitThemeAsWritten(session, local, parseInit, parseTheme, root) == Crashed
    ensures InitTheme(session, local, parseInit, parseTheme, root) == Ran(root, None)
  {
  }

  /** With a theme to apply, both versions publish the same properties
      apart from clamping; only the corrected one keeps the theme. */
  lemma ThemeApplied(session: string -> StoreRead, local: string -> StoreRead,
                     parseInit: string -> Option<InitValue>, parseTheme: string -> Option<ThemeValue>,
                     root: Option<Style>, es: seq<Entry>)
    requires var init := SessionStorageGet("initParams", session, local, parseInit);
             init.Some? && ThemeText(init.value).Some? && parseTheme(ThemeText(init.value).value) == Some(Entries(es))
    ensures InitThemeAsWritten(session, local, parseInit, parseTheme, root) == Ran(ApplyEntries(root, es, false), None)
    ensures InitTheme(session, local, parseInit, parseTheme, root) == Ran(ApplyEntries(root, es, true), Some(es))
  {
  }

  /** Without a usable theme text both versions leave the page as it was. */
  lemma NoThemeNoChange(session: string -> StoreRead, local: string -> StoreRead,
                        parseInit: string -> Option<InitValue>, parseTheme: string -> Option<ThemeValue>,
                        root: Option<Style>)
    requires var init := SessionStorageGet("initParams", session, local, parseInit);
             init.Some? && !init.value.NullValue?
             && (ThemeText(init.value).None? || !parseTheme(ThemeText(init.value).value).Some?
                 || parseTheme(ThemeText(init.value).value).value.Falsy?)
    ensures InitThemeAsWritten(session, local, parseInit, parseTheme, root) == Ran(root, None)
    ensures InitTheme(session, local, parseInit, parseTheme, root) == Ran(root, None)
  {
  }
}
