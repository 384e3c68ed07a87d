/** The colour histogram of a sticker image: each RGB channel is cut into 5
    bins, each pixel adds its alpha to the weight of its bin triple, and the
    125 weights are stored in a fixed colour order. Decoding the image and
    the floating-point scaling of non-empty histograms are parameters. */
module Histogram {

  const BINS: nat := 5
  const COLOR_COUNT: nat := BINS * BINS * BINS

  /** `(v * BINS) / 256` on `u32` for an 8-bit channel value. */
  function Bin(v: nat): (b: nat)
    requires v <= 255
    ensures b < BINS
    ensures b * 256 <= v * BINS < (b + 1) * 256
  {
    (v * BINS) / 256
  }

  /** Brighter channels never fall in a lower bin. */
  lemma BinMonotone(v: nat, w: nat)
    requires v <= w <= 255
    ensures Bin(v) <= Bin(w)
  {
  }

  datatype Pixel = Pixel(r: nat, g: nat, b: nat, a: nat)

  predicate ValidPixel(p: Pixel) { p.r <= 255 && p.g <= 255 && p.b <= 255 && p.a <= 255 }

  datatype Color = Color(r: nat, g: nat, b: nat)

  predicate ValidColor(c: Color) { c.r < BINS && c.g < BINS && c.b < BINS }

  function ColorOf(p: Pixel): (c: Color)
    requires ValidPixel(p)
    ensures ValidColor(c)
  {
    Color(Bin(p.r), Bin(p.g), Bin(p.b))
  }

  /** Reference definition: the summed alpha of the pixels in bin `c`. */
  function AlphaIn(pixels: seq<Pixel>, c: Color): nat
    requires ValidPixels(pixels)
    decreases |pixels|
  {
    if |pixels| == 0 then 0
    else AlphaIn(pixels[..|pixels| - 1], c)
         + (if ColorOf(pixels[|pixels| - 1]) == c then pixels[|pixels| - 1].a else 0)
  }

  predicate ValidPixels(pixels: seq<Pixel>) {
    forall k :: 0 <= k < |pixels| ==> ValidPixel(pixels[k])
  }

  /** Some pixel falls in bin `c`. */
  predicate Occurs(pixels: seq<Pixel>, c: Color)
    requires ValidPixels(pixels)
  {
    exists k :: 0 <= k < |pixels| && ColorOf(pixels[k]) == c
  }

  /** The weight map `calculate_color_histogram` fills, pixel by pixel with
      `entry(bin).or_default() += alpha`: a bin has an entry iff some pixel
      falls in it, and its weight is the summed alpha of its pixels. */
  function Weights(pixels: seq<Pixel>): (m: map<Color, nat>)
    requires ValidPixels(pixels)
    ensures forall c :: c in m ==> ValidColor(c)
    ensures forall c :: c in m <==> Occurs(pixels, c)
    ensures forall c :: c in m ==> m[c] == AlphaIn(pixels, c)
    decreases |pixels|
  {
    if |pixels| == 0 then map[]
    else
      var init := pixels[..|pixels| - 1];
      var p := pixels[|pixels| - 1];
      var m0 := Weights(init);
      var c := ColorOf(p);
      OccursStep(pixels);
      if c in m0 then m0[c := m0[c] + p.a]
      else
        AlphaAbsent(init, c);
        m0[c := p.a]
  }

  /** A pixel sequence's bins are those of its prefix plus the last pixel's. */
  lemma OccursStep(pixels: seq<Pixel>)
    requires ValidPixels(pixels) && |pixels| > 0
    ensures forall d :: Occurs(pixels, d) <==>
      Occurs(pixels[..|pixels| - 1], d) || d == ColorOf(pixels[|pixels| - 1])
  {
    var init := pixels[..|pixels| - 1];
    forall d ensures Occurs(pixels, d) <==> Occurs(init, d) || d == ColorOf(pixels[|pixels| - 1]) {
      if Occurs(pixels, d) {
        var k :| 0 <= k < |pixels| && ColorOf(pixels[k]) == d;
        if k < |init| { assert init[k] == pixels[k]; }
      }
      if Occurs(init, d) {
        var k :| 0 <= k < |init| && ColorOf(init[k]) == d;
        assert pixels[k] == init[k];
      }
    }
  }

  /** A bin no pixel falls in has no weight. */
  lemma {:induction false} AlphaAbsent(pixels: seq<Pixel>, c: Color)
    requires ValidPixels(pixels)
    requires !Occurs(pixels, c)
    ensures AlphaIn(pixels, c) == 0
    decreases |pixels|
  {
    if |pixels| > 0 {
      OccursStep(pixels);
      AlphaAbsent(pixels[..|pixels| - 1], c);
    }
  }

  /** Position of a bin triple when read as a base-5 number. */
  function Index(c: Color): nat { c.r * 25 + c.g * 5 + c.b }

  /** The bin triple at position `i` of the colour order. */
  function ColorAt(i: nat): (c: Color)
    requires i < COLOR_COUNT
    ensures ValidColor(c) && Index(c) == i
  {
    var c := Color(i / 25, (i / 5) % 5, i % 5);
    assert i == (i / 5) * 5 + i % 5;
    assert i / 5 == (i / 25) * 5 + (i / 5) % 5;
    c
  }

  /** `all_colors`: the 125 bin triples, red slowest and blue fastest. */
  function AllColors(): (cs: seq<Color>)
    ensures |cs| == COLOR_COUNT
    ensures forall i :: 0 <= i < COLOR_COUNT ==> cs[i] == ColorAt(i)
  {
    seq(COLOR_COUNT, i requires 0 <= i < COLOR_COUNT => ColorAt(i))
  }

  /** Each valid triple appears in the colour order, at its base-5 reading. */
  lemma AllColorsIndex(c: Color)
    requires ValidColor(c)
    ensures Index(c) < COLOR_COUNT && AllColors()[Index(c)] == c
  {
    var d := ColorAt(Index(c));
    assert Index(d) == Index(c);
  }

  /** Lexicographic order on bin triples. */
  predicate ColorBefore(x: Color, y: Color) {
    x.r < y.r || (x.r == y.r && (x.g < y.g || (x.g == y.g && x.b < y.b)))
  }

  /** The colour order is strictly increasing: red-major lexicographic. */
  lemma AllColorsOrdered(i: nat, j: nat)
    requires i < j < COLOR_COUNT
    ensures ColorBefore(AllColors()[i], AllColors()[j])
  {
  }

  function Get(m: map<Color, nat>, c: Color): nat { if c in m then m[c] else 0 }

  /** The largest weight over the first `n` colours (0 when there are none). */
  function MaxWeight(m: map<Color, nat>, n: nat): (mx: nat)
    requires n <= COLOR_COUNT
    ensures forall i :: 0 <= i < n ==> Get(m, AllColors()[i]) <= mx
    ensures mx == 0 || exists i :: 0 <= i < n && Get(m, AllColors()[i]) == mx
  {
    if n == 0 then 0
    else
      var rest := MaxWeight(m, n - 1);
      var w := Get(m, AllColors()[n - 1]);
      if w > rest then w else rest
  }

  predicate AllZero(m: map<Color, nat>) { forall c :: c in m ==> m[c] == 0 }

  /** On a map over valid bins the maximum is zero exactly when every weight is. */
  lemma MaxWeightZero(m: map<Color, nat>)
    requires forall c :: c in m ==> ValidColor(c)
    ensures MaxWeight(m, COLOR_COUNT) == 0 <==> AllZero(m)
  {
    forall c | c in m ensures m[c] <= MaxWeight(m, COLOR_COUNT) {
      AllColorsIndex(c);
      assert Get(m, AllColors()[Index(c)]) == m[c];
    }
  }

  /** The vector stored for an image without weight. */
  function UnitVector(): (v: seq<nat>)
    ensures |v| == COLOR_COUNT && v[0] == 1
    ensures forall i :: 1 <= i < COLOR_COUNT ==> v[i] == 0
  {
    seq(COLOR_COUNT, i requires 0 <= i < COLOR_COUNT => if i == 0 then 1 else 0)
  }

  function Scaled(m: map<Color, nat>, scale: (nat, nat) -> nat, mx: nat): (v: seq<nat>)
    ensures |v| == COLOR_COUNT
    ensures forall i :: 0 <= i < COLOR_COUNT ==> v[i] == scale(Get(m, AllColors()[i]), mx)
  {
    seq(COLOR_COUNT, i requires 0 <= i < COLOR_COUNT => ScaledAt(m, scale, mx, i))
  }

  function ScaledAt(m: map<Color, nat>, scale: (nat, nat) -> nat, mx: nat, i: nat): nat
    requires i < COLOR_COUNT
  {
    scale(Get(m, AllColors()[i]), mx)
  }

  /** `Histogram::from_map` on a weight map over valid bins. An image with no
      weight gets the vector with 1 first and 0 elsewhere (the cosine of two
      zero vectors being undefined); otherwise each weight is scaled by
      `scale(weight, max)`, the `f32` computation `(w / max * 255) as u8`. */
  function FromMap(m: map<Color, nat>, scale: (nat, nat) -> nat): (v: seq<nat>)
    requires forall c :: c in m ==> ValidColor(c)
    ensures AllZero(m) ==> v == UnitVector()
    ensures !AllZero(m) ==> v == Scaled(m, scale, MaxWeight(m, COLOR_COUNT))
  {
    var mx := MaxWeight(m, COLOR_COUNT);
    MaxWeightZero(m);
    if mx < 1 then UnitVector() else Scaled(m, scale, mx)
  }

  /** Valid triples are told apart by their base-5 reading. */
  lemma IndexInjective(c: Color, d: Color)
    requires ValidColor(c) && ValidColor(d) && Index(c) == Index(d)
    ensures c == d
  {
  }

  /** `get_map`: the loop over `all_colors()` zipped with the stored vector
      (so entries past the 125th are ignored) that inserts each non-zero
      entry, keyed by its colour and scaled to [0, 1]. */
  function GetMap(v: seq<nat>): (m: map<Color, real>)
    ensures forall c :: c in m <==> ValidColor(c) && Index(c) < |v| && v[Index(c)] != 0
    ensures forall c :: c in m ==> m[c] == v[Index(c)] as real / 255.0
  {
    GetMapUpTo(v, if |v| < COLOR_COUNT then |v| else COLOR_COUNT)
  }

  function GetMapUpTo(v: seq<nat>, n: nat): (m: map<Color, real>)
    requires n <= |v| && n <= COLOR_COUNT
    ensures forall c :: c in m <==> ValidColor(c) && Index(c) < n && v[Index(c)] != 0
    ensures forall c :: c in m ==> m[c] == v[Index(c)] as real / 255.0
  {
    if n == 0 then map[]
    else
      var m0 := GetMapUpTo(v, n - 1);
      var c := ColorAt(n - 1);
      assert forall d :: ValidColor(d) && Index(d) == n - 1 ==> d == c by {
        forall d | ValidColor(d) && Index(d) == n - 1 ensures d == c { IndexInjective(d, c); }
      }
      if v[n - 1] != 0 then m0[c := v[n - 1] as real / 255.0] else m0
  }

  /** `get_map` keeps exactly the non-zero entries, in the colour order. */
  lemma GetMapKeepsNonZero(v: seq<nat>, i: nat)
    requires i < |v| && i < COLOR_COUNT
    ensures AllColors()[i] in GetMap(v) <==> v[i] != 0
    ensures v[i] != 0 ==> GetMap(v)[AllColors()[i]] == v[i] as real / 255.0
  {
  }

  /** An image whose every pixel is transparent (or that has no pixels) has
      no weight anywhere, so `from_map` stores the unit vector for it. */
  lemma EmptyImageUnitVector(pixels: seq<Pixel>, scale: (nat, nat) -> nat)
    requires ValidPixels(pixels)
    requires forall k :: 0 <= k < |pixels| ==> pixels[k].a == 0
    ensures FromMap(Weights(pixels), scale) == UnitVector()
  {
    var m := Weights(pixels);
    forall c | c in m ensures m[c] == 0 {
      AlphaZero(pixels, c);
    }
  }

  lemma {:induction false} AlphaZero(pixels: seq<Pixel>, c: Color)
    requires ValidPixels(pixels)
    requires forall k :: 0 <= k < |pixels| ==> pixels[k].a == 0
    ensures AlphaIn(pixels, c) == 0
    decreases |pixels|
  {
    if |pixels| > 0 {
      AlphaZero(pixels[..|pixels| - 1], c);
    }
  }
}
