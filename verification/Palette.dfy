/** pkg/branding/palette.go: WCAG-corrected palette derivation over exact reals. */
module Palette {
  import opened Sequences
  import Text

  datatype Color = Color(r: real, g: real, b: real)

  const DARKEN_STEP := 0.05
  const MAX_DARKEN_STEPS := 12
  const HOVER_DARKEN := 0.08
  const WCAG_AA_CONTRAST := 4.5
  const INK_HEX := "#111827"
  const WHITE_HEX := "#ffffff"
  const WHITE := Color(1.0, 1.0, 1.0)
  const INK := Color(17.0 / 255.0, 24.0 / 255.0, 39.0 / 255.0)

  // The luminance at which contrast against white is exactly 4.5:1.
  const AA_LUMINANCE := 11.0 / 60.0

  // x raised to 2.4: the nonnegative y with y^5 == x^12.
  type Power = real -> real

  function Times(x: real, y: real): real {
    x * y
  }

  function Square(x: real): real {
    Times(x, x)
  }

  function Pow5(y: real): real {
    Times(Square(Square(y)), y)
  }

  function Pow12(x: real): real {
    Square(Square(Times(Square(x), x)))
  }

  ghost predicate PowerAt(pow: Power, x: real) {
    x >= 0.0 ==> pow(x) >= 0.0 && Pow5(pow(x)) == Pow12(x)
  }

  ghost predicate IsPower(pow: Power) {
    forall x :: PowerAt(pow, x)
  }

  function Linear(pow: Power, c: real): real {
    if c <= 0.04045 then c / 12.92 else pow((c + 0.055) / 1.055)
  }

  function RelativeLuminance(pow: Power, c: Color): real {
    0.2126 * Linear(pow, c.r) + 0.7152 * Linear(pow, c.g) + 0.0722 * Linear(pow, c.b)
  }

  function Max(a: real, b: real): real {
    if a < b then b else a
  }

  function Min(a: real, b: real): real {
    if a < b then a else b
  }

  function ContrastRatio(l1: real, l2: real): real
    requires l1 >= 0.0 && l2 >= 0.0
  {
    (Max(l1, l2) + 0.05) / (Min(l1, l2) + 0.05)
  }

  function Clamp01(c: real): real {
    Min(Max(c, 0.0), 1.0)
  }

  // uint8(math.Round(clamp01(c) * 255))
  function ChannelByte(c: real): (k: nat)
    ensures k <= 255
  {
    (Clamp01(c) * 255.0 + 0.5).Floor
  }

  function Quantize(c: real): real {
    ChannelByte(c) as real / 255.0
  }

  function Quantized(c: Color): Color {
    Color(Quantize(c.r), Quantize(c.g), Quantize(c.b))
  }

  function Darken(c: Color, amount: real): Color {
    var factor := Clamp01(1.0 - amount);
    Color(c.r * factor, c.g * factor, c.b * factor)
  }

  // The emitted 8-bit colour at one darkening step.
  function Shade(c: Color, step: nat): Color {
    Quantized(Darken(c, step as real * DARKEN_STEP))
  }

  predicate InGamut(c: Color) {
    0.0 <= c.r <= 1.0 && 0.0 <= c.g <= 1.0 && 0.0 <= c.b <= 1.0
  }

  predicate Darker(c: Color, d: Color) {
    c.r <= d.r && c.g <= d.g && c.b <= d.b
  }

  // ----- powers -----

  lemma ProductMonotone(a: real, b: real, c: real, d: real)
    requires 0.0 <= a <= b && 0.0 <= c <= d
    ensures 0.0 <= a * c <= b * d
  {
    assert (b - a) * c >= 0.0;
    assert b * (d - c) >= 0.0;
  }

  lemma SquareMonotone(a: real, b: real)
    requires 0.0 <= a <= b
    ensures 0.0 <= Square(a) <= Square(b)
  {
    ProductMonotone(a, b, a, b);
  }

  lemma TimesMonotone(a: real, b: real, c: real, d: real)
    requires 0.0 <= a <= b && 0.0 <= c <= d
    ensures 0.0 <= Times(a, c) <= Times(b, d)
  {
    ProductMonotone(a, b, c, d);
  }

  lemma TimesPositive(a: real, b: real)
    requires a > 0.0 && b > 0.0
    ensures Times(a, b) > 0.0
  {
  }

  lemma Pow5Strict(a: real, b: real)
    requires 0.0 <= a < b
    ensures Pow5(a) < Pow5(b)
  {
    SquareMonotone(a, b);
    SquareMonotone(Square(a), Square(b));
    var p, q := Square(Square(a)), Square(Square(b));
    TimesPositive(b, b);
    TimesPositive(Square(b), Square(b));
    TimesPositive(q, b - a);
    TimesMonotone(p, q, a, a);
    assert Times(q, b - a) == Times(q, b) - Times(q, a);
  }

  lemma Pow12Monotone(a: real, b: real)
    requires 0.0 <= a <= b
    ensures 0.0 <= Pow12(a) <= Pow12(b)
  {
    SquareMonotone(a, b);
    TimesMonotone(Square(a), Square(b), a, b);
    SquareMonotone(Times(Square(a), a), Times(Square(b), b));
    SquareMonotone(Square(Times(Square(a), a)), Square(Times(Square(b), b)));
  }

  // y is the power of x from below or from above, tested on fifth powers.
  lemma PowerBelow(pow: Power, x: real, y: real)
    requires IsPower(pow) && x >= 0.0 && y >= 0.0
    ensures Pow12(x) <= Pow5(y) ==> pow(x) <= y
    ensures Pow12(x) >= Pow5(y) ==> pow(x) >= y
    ensures Pow12(x) > Pow5(y) ==> pow(x) > y
  {
    assert PowerAt(pow, x);
    if pow(x) > y {
      Pow5Strict(y, pow(x));
    } else if pow(x) < y {
      Pow5Strict(pow(x), y);
    }
  }

  lemma PowerIs(pow: Power, x: real, y: real)
    requires IsPower(pow) && x >= 0.0 && y >= 0.0 && Pow12(x) == Pow5(y)
    ensures pow(x) == y
  {
    PowerBelow(pow, x, y);
  }

  lemma PowerMonotone(pow: Power, a: real, b: real)
    requires IsPower(pow) && 0.0 <= a <= b
    ensures 0.0 <= pow(a) <= pow(b)
  {
    Pow12Monotone(a, b);
    assert PowerAt(pow, a) && PowerAt(pow, b);
    PowerBelow(pow, a, pow(b));
  }

  lemma LinearMonotone(pow: Power, a: real, b: real)
    requires IsPower(pow) && 0.0 <= a <= b
    ensures 0.0 <= Linear(pow, a) <= Linear(pow, b)
  {
    var bend := 0.09545 / 1.055;
    if b <= 0.04045 {
    } else if a <= 0.04045 {
      assert Pow12(bend) >= Pow5(0.04045 / 12.92);
      PowerBelow(pow, bend, 0.04045 / 12.92);
      assert bend <= (b + 0.055) / 1.055;
      PowerMonotone(pow, bend, (b + 0.055) / 1.055);
    } else {
      assert (a + 0.055) / 1.055 <= (b + 0.055) / 1.055;
      PowerMonotone(pow, (a + 0.055) / 1.055, (b + 0.055) / 1.055);
    }
  }

  // The sRGB curve: a line near black, and above it the 2.4th power, told by
  // fifth and twelfth powers.
  lemma LinearMeans(pow: Power, c: real)
    requires IsPower(pow) && c >= 0.0
    ensures c <= 0.04045 ==> 12.92 * Linear(pow, c) == c
    ensures c > 0.04045 ==> Linear(pow, c) >= 0.0 && Pow5(Linear(pow, c)) == Pow12((c + 0.055) / 1.055)
  {
    assert PowerAt(pow, (c + 0.055) / 1.055);
  }

  lemma TimesIs(x: real, y: real, p: real)
    requires x * y == p
    ensures Times(x, y) == p
  {
  }

  lemma SquareIs(x: real, p: real)
    requires x * x == p
    ensures Square(x) == p
  {
  }

  lemma Pow12Is(x: real, square: real, cube: real, sixth: real, p: real)
    requires Square(x) == square && Times(square, x) == cube && Square(cube) == sixth && Square(sixth) == p
    ensures Pow12(x) == p
  {
  }

  lemma Pow5Is(y: real, square: real, fourth: real, p: real)
    requires Square(y) == square && Square(square) == fourth && Times(fourth, y) == p
    ensures Pow5(y) == p
  {
  }

  lemma PowersOfOne(one: real)
    requires Times(one, one) == one
    ensures Pow12(one) == Pow5(one)
  {
  }

  lemma PowersBelowAA()
    ensures Pow12(0.48) <= Pow5(0.18)
  {
    SquareIs(0.48, 0.2304);
    TimesIs(0.2304, 0.48, 0.110592);
    SquareIs(0.110592, 0.012230590464);
    SquareIs(0.012230590464, 0.000149587343098087735296);
    Pow12Is(0.48, 0.2304, 0.110592, 0.012230590464, 0.000149587343098087735296);
    SquareIs(0.18, 0.0324);
    SquareIs(0.0324, 0.00104976);
    TimesIs(0.00104976, 0.18, 0.0001889568);
    Pow5Is(0.18, 0.0324, 0.00104976, 0.0001889568);
  }

  lemma PowersAboveAA()
    ensures Pow12(0.52) >= Pow5(0.19)
  {
    SquareIs(0.52, 0.2704);
    TimesIs(0.2704, 0.52, 0.140608);
    SquareIs(0.140608, 0.019770609664);
    SquareIs(0.019770609664, 0.000390877006486250192896);
    Pow12Is(0.52, 0.2704, 0.140608, 0.019770609664, 0.000390877006486250192896);
    SquareIs(0.19, 0.0361);
    SquareIs(0.0361, 0.00130321);
    TimesIs(0.00130321, 0.19, 0.0002476099);
    Pow5Is(0.19, 0.0361, 0.00130321, 0.0002476099);
  }

  lemma PowerAtOne(pow: Power, one: real)
    requires IsPower(pow) && one >= 0.0 && Times(one, one) == one
    ensures pow(one) == one
  {
    PowersOfOne(one);
    PowerIs(pow, one, one);
  }

  lemma PowerBelowAA(pow: Power)
    requires IsPower(pow)
    ensures pow(0.48) <= 0.18
  {
    PowersBelowAA();
    PowerBelow(pow, 0.48, 0.18);
  }

  lemma PowerAboveAA(pow: Power)
    requires IsPower(pow)
    ensures pow(0.52) >= 0.19
  {
    PowersAboveAA();
    PowerBelow(pow, 0.52, 0.19);
  }

  lemma LinearAnchors(pow: Power)
    requires IsPower(pow)
    ensures Linear(pow, 0.0) == 0.0 && Linear(pow, 1.0) == 1.0
    ensures Linear(pow, 115.0 / 255.0) <= 0.18 && 0.19 <= Linear(pow, 128.0 / 255.0)
  {
    TimesIs(1.0, 1.0, 1.0);
    PowerAtOne(pow, 1.0);
    PowerBelowAA(pow);
    PowerAboveAA(pow);
    LinearAbove(pow, 1.0, 1.0, 1.0);
    LinearAbove(pow, 115.0 / 255.0, 0.0, 0.48);
    LinearAbove(pow, 128.0 / 255.0, 0.52, 1.0);
  }

  lemma LinearAbove(pow: Power, c: real, low: real, high: real)
    requires IsPower(pow) && c > 0.04045 && 0.0 <= low <= (c + 0.055) / 1.055 <= high
    ensures pow(low) <= Linear(pow, c) <= pow(high)
  {
    PowerMonotone(pow, low, (c + 0.055) / 1.055);
    PowerMonotone(pow, (c + 0.055) / 1.055, high);
  }

  lemma LuminanceMonotone(pow: Power, c: Color, d: Color)
    requires IsPower(pow) && InGamut(c) && InGamut(d) && Darker(c, d)
    ensures 0.0 <= RelativeLuminance(pow, c) <= RelativeLuminance(pow, d) <= 1.0
  {
    LinearMonotone(pow, c.r, d.r);
    LinearMonotone(pow, c.g, d.g);
    LinearMonotone(pow, c.b, d.b);
    LinearMonotone(pow, d.r, 1.0);
    LinearMonotone(pow, d.g, 1.0);
    LinearMonotone(pow, d.b, 1.0);
    LinearAnchors(pow);
  }

  // The luminances of the primaries, and of every mixture of what they give alone.
  lemma LuminanceWeights(pow: Power, c: Color)
    requires IsPower(pow)
    ensures RelativeLuminance(pow, Color(1.0, 0.0, 0.0)) == 0.2126
    ensures RelativeLuminance(pow, Color(0.0, 1.0, 0.0)) == 0.7152
    ensures RelativeLuminance(pow, Color(0.0, 0.0, 1.0)) == 0.0722
    ensures RelativeLuminance(pow, c) == RelativeLuminance(pow, Color(c.r, 0.0, 0.0)) +
                                         RelativeLuminance(pow, Color(0.0, c.g, 0.0)) +
                                         RelativeLuminance(pow, Color(0.0, 0.0, c.b))
  {
    LinearAnchors(pow);
  }

  // The ratio is symmetric and at least 1, with the lighter of the two on top.
  lemma ContrastMeans(l: real, m: real)
    requires 0.0 <= l <= m
    ensures ContrastRatio(l, m) == ContrastRatio(m, l) >= 1.0
    ensures Times(ContrastRatio(l, m), l + 0.05) == m + 0.05
  {
    var q, d := (m + 0.05) / (l + 0.05), l + 0.05;
    assert q * d == m + 0.05;
    RatioAtLeastOne(q, d);
  }

  lemma RatioAtLeastOne(q: real, d: real)
    requires d > 0.0 && q * d >= d
    ensures q >= 1.0
  {
    assert (q - 1.0) * d >= 0.0;
  }

  // ----- contrast against white -----

  lemma LuminanceRange(pow: Power, c: Color)
    requires IsPower(pow) && InGamut(c)
    ensures 0.0 <= RelativeLuminance(pow, c) <= 1.0
    ensures RelativeLuminance(pow, WHITE) == 1.0
  {
    LuminanceMonotone(pow, c, c);
    LinearAnchors(pow);
  }

  // The test the loop makes on an emitted colour.
  predicate Readable(pow: Power, c: Color)
    requires RelativeLuminance(pow, c) >= 0.0 && RelativeLuminance(pow, WHITE) >= 0.0
  {
    ContrastRatio(RelativeLuminance(pow, c), RelativeLuminance(pow, WHITE)) >= WCAG_AA_CONTRAST
  }

  lemma ReadableIffDark(pow: Power, c: Color)
    requires IsPower(pow) && InGamut(c)
    ensures RelativeLuminance(pow, c) >= 0.0 && RelativeLuminance(pow, WHITE) >= 0.0
    ensures Readable(pow, c) <==> RelativeLuminance(pow, c) <= AA_LUMINANCE
  {
    LuminanceRange(pow, c);
    QuotientTest(RelativeLuminance(pow, c));
  }

  lemma QuotientTest(l: real)
    requires 0.0 <= l <= 1.0
    ensures 1.05 / (l + 0.05) >= 4.5 <==> l <= AA_LUMINANCE
  {
    var q, d := 1.05 / (l + 0.05), l + 0.05;
    assert q * d == 1.05;
    if q >= 4.5 {
      ProductMonotone(4.5, q, d, d);
    } else if q >= 0.0 {
      TimesPositive(4.5 - q, d);
      assert Times(4.5 - q, d) == 4.5 * d - q * d;
    }
  }

  // Darkening a readable colour keeps it readable.
  lemma DarkerStaysReadable(pow: Power, c: Color, d: Color)
    requires IsPower(pow) && InGamut(c) && InGamut(d) && Darker(c, d)
    ensures RelativeLuminance(pow, c) >= 0.0 && RelativeLuminance(pow, d) >= 0.0 && RelativeLuminance(pow, WHITE) >= 0.0
    ensures Readable(pow, d) ==> Readable(pow, c)
  {
    LuminanceMonotone(pow, c, d);
    ReadableIffDark(pow, c);
    ReadableIffDark(pow, d);
  }

  // ----- the 8-bit grid -----

  lemma QuantizeMonotone(a: real, b: real)
    requires a <= b
    ensures 0.0 <= Quantize(a) <= Quantize(b) <= 1.0
  {
    assert ChannelByte(a) <= ChannelByte(b);
  }

  lemma QuantizeGrid(k: nat)
    requires k <= 255
    ensures ChannelByte(k as real / 255.0) == k
  {
    assert Clamp01(k as real / 255.0) * 255.0 == k as real;
  }

  // The byte is the nearest one, the higher of two as near; below 0 it is 0 and above 1 it is 255.
  lemma ByteIsNearest(c: real)
    ensures c < 0.0 ==> ChannelByte(c) == 0
    ensures c > 1.0 ==> ChannelByte(c) == 255
    ensures 0.0 <= c <= 1.0 ==> -0.5 < ChannelByte(c) as real - 255.0 * c <= 0.5
    ensures 255.0 * Quantize(c) == ChannelByte(c) as real
  {
  }

  lemma QuantizedIdempotent(c: Color)
    ensures Quantized(Quantized(c)) == Quantized(c) && InGamut(Quantized(c))
  {
    QuantizeGrid(ChannelByte(c.r));
    QuantizeGrid(ChannelByte(c.g));
    QuantizeGrid(ChannelByte(c.b));
    QuantizeMonotone(c.r, c.r);
    QuantizeMonotone(c.g, c.g);
    QuantizeMonotone(c.b, c.b);
  }

  lemma QuantizedMonotone(c: Color, d: Color)
    requires Darker(c, d)
    ensures Darker(Quantized(c), Quantized(d)) && InGamut(Quantized(c)) && InGamut(Quantized(d))
  {
    QuantizeMonotone(c.r, d.r);
    QuantizeMonotone(c.g, d.g);
    QuantizeMonotone(c.b, d.b);
  }

  lemma DarkenMonotone(c: Color, less: real, more: real)
    requires InGamut(c) && 0.0 <= less <= more
    ensures Darker(Darken(c, more), Darken(c, less)) && InGamut(Darken(c, less)) && InGamut(Darken(c, more))
  {
    var f, g := Clamp01(1.0 - more), Clamp01(1.0 - less);
    assert 0.0 <= f <= g <= 1.0;
    ProductMonotone(c.r, c.r, f, g);
    ProductMonotone(c.g, c.g, f, g);
    ProductMonotone(c.b, c.b, f, g);
    ProductMonotone(c.r, 1.0, g, 1.0);
    ProductMonotone(c.g, 1.0, g, 1.0);
    ProductMonotone(c.b, 1.0, g, 1.0);
  }

  // Neither any channel nor the luminance ever increases along the steps.
  lemma ShadesDarken(pow: Power, c: Color, j: nat, k: nat)
    requires IsPower(pow) && InGamut(c) && j <= k
    ensures Darker(Shade(c, k), Shade(c, j)) && InGamut(Shade(c, j)) && InGamut(Shade(c, k))
    ensures RelativeLuminance(pow, Shade(c, k)) <= RelativeLuminance(pow, Shade(c, j))
  {
    assert 0.0 <= j as real * DARKEN_STEP <= k as real * DARKEN_STEP;
    DarkenMonotone(c, j as real * DARKEN_STEP, k as real * DARKEN_STEP);
    QuantizedMonotone(Darken(c, k as real * DARKEN_STEP), Darken(c, j as real * DARKEN_STEP));
    LuminanceMonotone(pow, Shade(c, k), Shade(c, j));
  }

  // Step k keeps 20 - k twentieths of each channel, and none from step 20 on.
  function Kept(k: nat): real {
    if k <= 20 then (20 - k) as real / 20.0 else 0.0
  }

  lemma ShadeMeans(c: Color, k: nat)
    ensures Shade(c, k) == Color(Quantize(c.r * Kept(k)), Quantize(c.g * Kept(k)), Quantize(c.b * Kept(k)))
  {
    assert Clamp01(1.0 - k as real * DARKEN_STEP) == Kept(k);
    assert Darken(c, k as real * DARKEN_STEP) == Color(c.r * Kept(k), c.g * Kept(k), c.b * Kept(k));
  }

  lemma ShadeOfWhite(k: nat)
    requires k <= 20
    ensures Shade(WHITE, k) == Quantized(Color(1.0 - k as real * 0.05, 1.0 - k as real * 0.05, 1.0 - k as real * 0.05))
  {
  }

  lemma DarkenUnderWhite(c: Color, amount: real)
    requires InGamut(c)
    ensures Darker(Darken(c, amount), Darken(WHITE, amount))
  {
    var f := Clamp01(1.0 - amount);
    ProductMonotone(c.r, 1.0, f, f);
    ProductMonotone(c.g, 1.0, f, f);
    ProductMonotone(c.b, 1.0, f, f);
  }

  lemma ShadeUnderWhite(c: Color, k: nat)
    requires InGamut(c)
    ensures Darker(Shade(c, k), Shade(WHITE, k))
  {
    DarkenUnderWhite(c, k as real * DARKEN_STEP);
    QuantizedMonotone(Darken(c, k as real * DARKEN_STEP), Darken(WHITE, k as real * DARKEN_STEP));
  }

  lemma LuminanceOfGray(pow: Power, v: real)
    ensures RelativeLuminance(pow, Color(v, v, v)) == Linear(pow, v)
  {
  }

  // White, the worst case, first reaches AA at step 11, as #737373.
  lemma WhiteNeedsElevenSteps(pow: Power)
    requires IsPower(pow)
    ensures Shade(WHITE, 11) == Color(115.0 / 255.0, 115.0 / 255.0, 115.0 / 255.0)
    ensures RelativeLuminance(pow, Shade(WHITE, 11)) <= AA_LUMINANCE
    ensures forall k: nat | k <= 10 :: RelativeLuminance(pow, Shade(WHITE, k)) > AA_LUMINANCE
  {
    ShadeOfWhite(11);
    assert ChannelByte(1.0 - 11.0 * 0.05) == 115;
    LinearAnchors(pow);
    LuminanceOfGray(pow, 115.0 / 255.0);
    ShadeOfWhite(10);
    assert ChannelByte(1.0 - 10.0 * 0.05) == 128;
    LuminanceOfGray(pow, 128.0 / 255.0);
    forall k: nat | k <= 10 ensures RelativeLuminance(pow, Shade(WHITE, k)) > AA_LUMINANCE {
      ShadesDarken(pow, WHITE, k, 10);
    }
  }

  lemma StepElevenIsReadable(pow: Power, c: Color, k: nat)
    requires IsPower(pow) && InGamut(c) && k >= 11
    ensures RelativeLuminance(pow, Shade(c, k)) >= 0.0 && RelativeLuminance(pow, WHITE) >= 0.0
    ensures Readable(pow, Shade(c, k))
  {
    WhiteNeedsElevenSteps(pow);
    ShadesDarken(pow, c, 11, k);
    ShadesDarken(pow, WHITE, 11, 11);
    ShadeUnderWhite(c, 11);
    LuminanceMonotone(pow, Shade(c, 11), Shade(WHITE, 11));
    ReadableIffDark(pow, Shade(c, k));
  }

  // ----- the correction loop -----

  datatype Accent = Accent(color: Color, on: string)

  // The loop from one step on, with the defensive ink branch where the code has it.
  function CorrectFrom(pow: Power, c: Color, step: nat): Accent
    requires IsPower(pow) && InGamut(c) && step <= 20
    decreases 20 - step
  {
    ShadesDarken(pow, c, step, step);
    LuminanceRange(pow, Shade(c, step));
    LuminanceRange(pow, INK);
    var shade := Shade(c, step);
    if Readable(pow, shade) then Accent(shade, WHITE_HEX)
    else if step >= MAX_DARKEN_STEPS &&
            ContrastRatio(RelativeLuminance(pow, shade), RelativeLuminance(pow, INK)) >= WCAG_AA_CONTRAST then
      Accent(shade, INK_HEX)
    else
      assert step < 20 by {
        if step == 20 {
          StepElevenIsReadable(pow, c, 20);
        }
      }
      CorrectFrom(pow, c, step + 1)
  }

  function CorrectedAccent(pow: Power, c: Color): Accent
    requires IsPower(pow) && InGamut(c)
  {
    CorrectFrom(pow, c, 0)
  }

  // Every colour is corrected by step 11 to the first step that measures 4.5:1
  // against white, and is paired with white.
  ghost predicate CorrectedAt(pow: Power, c: Color, a: Accent, k: nat) {
    && k <= 11
    && a == Accent(Shade(c, k), WHITE_HEX)
    && RelativeLuminance(pow, Shade(c, k)) <= AA_LUMINANCE
    && forall j: nat | j < k :: RelativeLuminance(pow, Shade(c, j)) > AA_LUMINANCE
  }

  lemma {:induction false} CorrectFromFinds(pow: Power, c: Color, step: nat) returns (k: nat)
    requires IsPower(pow) && InGamut(c) && step <= 11
    requires forall j: nat | j < step :: RelativeLuminance(pow, Shade(c, j)) > AA_LUMINANCE
    ensures step <= k && CorrectedAt(pow, c, CorrectFrom(pow, c, step), k)
    decreases 11 - step
  {
    ShadesDarken(pow, c, step, step);
    ReadableIffDark(pow, Shade(c, step));
    if Readable(pow, Shade(c, step)) {
      k := step;
    } else {
      if step == 11 {
        StepElevenIsReadable(pow, c, 11);
      }
      k := CorrectFromFinds(pow, c, step + 1);
    }
  }

  method CorrectAccent(pow: Power, c: Color) returns (a: Accent)
    requires IsPower(pow) && InGamut(c)
    ensures a == CorrectedAccent(pow, c)
    ensures exists k: nat :: CorrectedAt(pow, c, a, k)
  {
    LuminanceRange(pow, INK);
    var whiteLum, inkLum := RelativeLuminance(pow, WHITE), RelativeLuminance(pow, INK);
    LuminanceRange(pow, WHITE);
    var step := 0;
    while true
      invariant step <= 20
      invariant CorrectedAccent(pow, c) == CorrectFrom(pow, c, step)
      decreases 20 - step
    {
      var shade := Shade(c, step);
      ShadesDarken(pow, c, step, step);
      LuminanceRange(pow, shade);
      var accentLum := RelativeLuminance(pow, shade);
      if ContrastRatio(accentLum, whiteLum) >= WCAG_AA_CONTRAST {
        a := Accent(shade, WHITE_HEX);
        break;
      }
      if step >= MAX_DARKEN_STEPS && ContrastRatio(accentLum, inkLum) >= WCAG_AA_CONTRAST {
        a := Accent(shade, INK_HEX);
        break;
      }
      if step == 20 {
        StepElevenIsReadable(pow, c, 20);
      }
      step := step + 1;
    }
    ghost var k := CorrectFromFinds(pow, c, 0);
  }

  // A corrected accent needs no further correction.
  lemma CorrectionIsIdempotent(pow: Power, c: Color)
    requires IsPower(pow) && InGamut(c)
    ensures InGamut(CorrectedAccent(pow, c).color)
    ensures CorrectedAccent(pow, CorrectedAccent(pow, c).color) == CorrectedAccent(pow, c)
  {
    var k := CorrectFromFinds(pow, c, 0);
    var accent := Shade(c, k);
    QuantizedIdempotent(Darken(c, k as real * DARKEN_STEP));
    assert Darken(accent, 0.0) == accent;
    assert Shade(accent, 0) == accent;
    ReadableIffDark(pow, accent);
  }

  // ----- hover -----

  function HoverOf(a: Accent): Color {
    if a.on == WHITE_HEX then Darken(a.color, HOVER_DARKEN) else a.color
  }

  lemma HoverKeepsMost(a: Accent)
    requires a.on == "#ffffff"
    ensures HoverOf(a) == Color(a.color.r * 0.92, a.color.g * 0.92, a.color.b * 0.92)
  {
    assert Clamp01(1.0 - HOVER_DARKEN) == 0.92;
  }

  // The hover colour, rounded again when emitted, is no lighter than the accent
  // and measures 4.5:1 against the text colour too.
  lemma HoverStaysReadable(pow: Power, c: Color)
    requires IsPower(pow) && InGamut(c)
    ensures var a := CorrectedAccent(pow, c);
            && a.on == WHITE_HEX
            && InGamut(Quantized(HoverOf(a)))
            && Darker(Quantized(HoverOf(a)), a.color)
            && RelativeLuminance(pow, Quantized(HoverOf(a))) <= RelativeLuminance(pow, a.color) <= AA_LUMINANCE
  {
    var k := CorrectFromFinds(pow, c, 0);
    var a := CorrectedAccent(pow, c);
    QuantizedIdempotent(Darken(c, k as real * DARKEN_STEP));
    DarkenMonotone(a.color, 0.0, HOVER_DARKEN);
    assert Darken(a.color, 0.0) == a.color;
    QuantizedMonotone(Darken(a.color, HOVER_DARKEN), a.color);
    LuminanceMonotone(pow, Quantized(HoverOf(a)), a.color);
  }
}
