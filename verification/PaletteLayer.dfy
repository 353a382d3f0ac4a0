/** pkg/branding/palette.go: hex colours and the tenant token overlay. */
module PaletteLayer {
  import opened Sequences
  import opened Palette
  import Text

  datatype ColorError = MissingHash | BadLength | NotHexadecimal

  datatype PaletteError = BadColor(reason: ColorError) | UnknownFont(key: string)

  datatype TokenType = ColorToken | FontFamilyToken

  // The token paths of the default theme that the overlay may override.
  datatype Path = AccentDefault | AccentHover | AccentOn | Signal | Focus | FontBody | FontDisplay

  const COLOR_PATHS: set<Path> := {AccentDefault, AccentHover, AccentOn, Signal, Focus}

  datatype Layer = Layer(values: map<Path, string>, types: map<Path, TokenType>)

  datatype Stack = Stack(body: string, display: string)

  const SERIF := "\"Iowan Old Style\", \"Palatino Linotype\", Palatino, Georgia, serif"
  const GROTESK := "\"Helvetica Neue\", Helvetica, Arial, sans-serif"
  const PLEX := "\"IBM Plex Sans\", Aptos, \"Helvetica Neue\", sans-serif"

  const FONT_STACKS: map<string, Stack> :=
    map["editorial" := Stack(SERIF, SERIF), "grotesk" := Stack(GROTESK, GROTESK), "plex" := Stack(PLEX, PLEX)]

  // ----- hexadecimal colours -----

  predicate IsHexDigit(c: char) {
    '0' <= c <= '9' || 'a' <= c <= 'f' || 'A' <= c <= 'F'
  }

  function DigitValue(c: char): (v: nat)
    requires IsHexDigit(c)
    ensures v < 16
  {
    if c <= '9' then c as nat - '0' as nat
    else if c <= 'F' then c as nat - 'A' as nat + 10
    else c as nat - 'a' as nat + 10
  }

  function HexDigit(v: nat): (c: char)
    requires v < 16
    ensures IsHexDigit(c) && !('A' <= c <= 'F') && DigitValue(c) == v
  {
    if v < 10 then '0' + v as char else 'a' + (v - 10) as char
  }

  predicate AllHex(s: string) {
    forall c | c in s :: IsHexDigit(c)
  }

  function PairValue(high: char, low: char): (v: nat)
    requires IsHexDigit(high) && IsHexDigit(low)
    ensures v <= 255
  {
    16 * DigitValue(high) + DigitValue(low)
  }

  function ChannelOf(high: char, low: char): real
    requires IsHexDigit(high) && IsHexDigit(low)
  {
    PairValue(high, low) as real / 255.0
  }

  // Lengths are in bytes; a digit outside ASCII fails the conversion anyway.
  function ParseHex(s: string): Result<Color, ColorError> {
    if s == [] || s[0] != '#' then Err(MissingHash)
    else
      var d := s[1..];
      if Text.ByteLen(d) != 3 && Text.ByteLen(d) != 6 then Err(BadLength)
      else if !AllHex(d) then Err(NotHexadecimal)
      else
        Text.ByteLenBounds(d);
        assert forall i | 0 <= i < |d| :: d[i] in d;
        if |d| == 3 then Ok(Color(ChannelOf(d[0], d[0]), ChannelOf(d[1], d[1]), ChannelOf(d[2], d[2])))
        else Ok(Color(ChannelOf(d[0], d[1]), ChannelOf(d[2], d[3]), ChannelOf(d[4], d[5])))
  }

  // The digits of three bytes.
  function SixDigits(r: nat, g: nat, b: nat): string
    requires r <= 255 && g <= 255 && b <= 255
  {
    ['#', HexDigit(r / 16), HexDigit(r % 16), HexDigit(g / 16), HexDigit(g % 16), HexDigit(b / 16), HexDigit(b % 16)]
  }

  function ToHex(c: Color): string {
    SixDigits(ChannelByte(c.r), ChannelByte(c.g), ChannelByte(c.b))
  }

  // What is emitted reads back as the colour that was measured.
  lemma ParseOfToHex(c: Color)
    ensures ParseHex(ToHex(c)) == Ok(Quantized(c))
  {
    EmittedParses(c, ToHex(c));
  }

  lemma EmittedParses(c: Color, s: string)
    requires s == ToHex(c)
    ensures ParseHex(s) == Ok(Quantized(c))
  {
    assert Quantized(c) == Color(ChannelByte(c.r) as real / 255.0, ChannelByte(c.g) as real / 255.0,
                                 ChannelByte(c.b) as real / 255.0);
    SixDigitsParse(s, ChannelByte(c.r), ChannelByte(c.g), ChannelByte(c.b));
  }

  lemma SixDigitsParse(s: string, r: nat, g: nat, b: nat)
    requires r <= 255 && g <= 255 && b <= 255 && s == SixDigits(r, g, b)
    ensures ParseHex(s) == Ok(Color(r as real / 255.0, g as real / 255.0, b as real / 255.0))
  {
    var d := s[1..];
    assert d == [HexDigit(r / 16), HexDigit(r % 16), HexDigit(g / 16), HexDigit(g % 16), HexDigit(b / 16),
           HexDigit(b % 16)];
    assert AllHex(d);
    Text.ByteLenBounds(d);
    assert PairValue(d[0], d[1]) == r && PairValue(d[2], d[3]) == g && PairValue(d[4], d[5]) == b;
  }

  const LOWER_DIGITS := "0123456789abcdef"
  const UPPER_DIGITS := "0123456789ABCDEF"

  // A digit stands for its place among the sixteen, in either case; the small ones are emitted.
  lemma DigitsMean(c: char)
    ensures IsHexDigit(c) <==> c in LOWER_DIGITS || c in UPPER_DIGITS
    ensures forall v | 0 <= v < 16 ::
              && IsHexDigit(LOWER_DIGITS[v]) && DigitValue(LOWER_DIGITS[v]) == v && HexDigit(v) == LOWER_DIGITS[v]
              && IsHexDigit(UPPER_DIGITS[v]) && DigitValue(UPPER_DIGITS[v]) == v
  {
    if IsHexDigit(c) {
      var v := DigitValue(c);
      assert c == LOWER_DIGITS[v] || c == UPPER_DIGITS[v];
    }
  }

  // Which complaint a refused colour gets: of the hash, then the length in bytes, then the digits.
  lemma ParseReports(s: string)
    ensures var d := if s == "" then "" else s[1..];
            && (ParseHex(s) == Err(MissingHash) <==> !("#" <= s))
            && (ParseHex(s) == Err(BadLength) <==> "#" <= s && Text.ByteLen(d) !in {3, 6})
            && (ParseHex(s) == Err(NotHexadecimal) <==>
                  "#" <= s && Text.ByteLen(d) in {3, 6} && exists c :: c in d && !IsHexDigit(c))
  {
    if s != "" {
      assert "#" <= s <==> s[0] == '#';
    }
  }

  // The short form stands for the long one with each digit doubled.
  lemma ShortFormDoubles(a: char, b: char, c: char)
    requires IsHexDigit(a) && IsHexDigit(b) && IsHexDigit(c)
    ensures ParseHex(['#', a, b, c]) == ParseHex(['#', a, a, b, b, c, c])
    ensures ParseHex(['#', a, b, c]).Ok?
  {
    var short, long := ['#', a, b, c], ['#', a, a, b, b, c, c];
    assert short[1..] == [a, b, c] && long[1..] == [a, a, b, b, c, c];
    Text.ByteLenBounds([a, b, c]);
    Text.ByteLenBounds([a, a, b, b, c, c]);
  }

  // An accepted colour is in gamut and on the 8-bit grid already.
  lemma ParsedIsOnGrid(s: string)
    requires ParseHex(s).Ok?
    ensures InGamut(ParseHex(s).value) && Quantized(ParseHex(s).value) == ParseHex(s).value
  {
    var d := s[1..];
    Text.ByteLenBounds(d);
    assert forall i | 0 <= i < |d| :: d[i] in d;
    var n := |d| == 3;
    QuantizeGrid(PairValue(d[0], if n then d[0] else d[1]));
    QuantizeGrid(PairValue(if n then d[1] else d[2], if n then d[1] else d[3]));
    QuantizeGrid(PairValue(if n then d[2] else d[4], if n then d[2] else d[5]));
  }

  predicate Lowercase(c: char) {
    !('A' <= c <= 'F')
  }

  lemma DigitsOfPair(high: char, low: char)
    requires IsHexDigit(high) && IsHexDigit(low) && Lowercase(high) && Lowercase(low)
    ensures ChannelByte(ChannelOf(high, low)) == PairValue(high, low)
    ensures HexDigit(PairValue(high, low) / 16) == high && HexDigit(PairValue(high, low) % 16) == low
  {
    QuantizeGrid(PairValue(high, low));
    assert PairValue(high, low) / 16 == DigitValue(high) && PairValue(high, low) % 16 == DigitValue(low);
  }

  // Canonicalising keeps the colour, and is the identity on canonical strings.
  lemma CanonicalKeepsColor(s: string)
    requires ParseHex(s).Ok?
    ensures ParseHex(ToHex(ParseHex(s).value)) == ParseHex(s)
  {
    ParsedIsOnGrid(s);
    ParseOfToHex(ParseHex(s).value);
  }

  lemma CanonicalIsIdentity(s: string)
    requires ParseHex(s).Ok? && |s| == 7 && forall c | c in s :: Lowercase(c)
    ensures ToHex(ParseHex(s).value) == s
  {
    var d := s[1..];
    Text.ByteLenBounds(d);
    forall i | 0 <= i < 6 ensures IsHexDigit(d[i]) && Lowercase(d[i]) {
      assert d[i] in d && d[i] == s[i + 1] && s[i + 1] in s;
    }
    DigitsOfPair(d[0], d[1]);
    DigitsOfPair(d[2], d[3]);
    DigitsOfPair(d[4], d[5]);
    assert s == ['#', d[0], d[1], d[2], d[3], d[4], d[5]];
  }

  lemma InkAndWhiteParse()
    ensures ParseHex(INK_HEX) == Ok(INK) && ParseHex(WHITE_HEX) == Ok(WHITE)
  {
    Text.ByteLenBounds(INK_HEX[1..]);
    Text.ByteLenBounds(WHITE_HEX[1..]);
  }

  // ----- the overlay -----

  function ColorValues(primary: Color, a: Accent): map<Path, string> {
    map[AccentDefault := ToHex(a.color), AccentHover := ToHex(HoverOf(a)), AccentOn := a.on,
        Signal := ToHex(primary), Focus := ToHex(primary)]
  }

  function FontValues(stack: Stack): map<Path, string> {
    map[FontBody := stack.body, FontDisplay := stack.display]
  }

  function TypesOf(values: map<Path, string>): map<Path, TokenType> {
    map path | path in values :: if path == FontBody || path == FontDisplay then FontFamilyToken else ColorToken
  }

  // What a trimmed primary overrides; nothing when it is empty.
  function ColorHalf(pow: Power, p: string): Result<map<Path, string>, PaletteError>
    requires IsPower(pow)
  {
    if p == [] then Ok(map[])
    else match ParseHex(p)
      case Err(e) => Err(BadColor(e))
      case Ok(c) =>
        ParsedIsOnGrid(p);
        Ok(ColorValues(c, CorrectedAccent(pow, c)))
  }

  // What a trimmed font key overrides.
  function FontHalf(f: string): Result<map<Path, string>, PaletteError> {
    if f == [] then Ok(map[])
    else if f !in FONT_STACKS then Err(UnknownFont(f))
    else Ok(FontValues(FONT_STACKS[f]))
  }

  // None is "nothing to override".
  function DerivedLayer(pow: Power, primaryHex: string, fontKey: string): Result<Option<Layer>, PaletteError>
    requires IsPower(pow)
  {
    var p, f := Text.TrimSpace(primaryHex), Text.TrimSpace(fontKey);
    if p == [] && f == [] then Ok(None)
    else if ColorHalf(pow, p).Err? then Err(ColorHalf(pow, p).error)
    else if FontHalf(f).Err? then Err(FontHalf(f).error)
    else
      var values := ColorHalf(pow, p).value + FontHalf(f).value;
      Ok(Some(Layer(values, TypesOf(values))))
  }

  method OverrideFonts(stack: Stack, values: map<Path, string>, types: map<Path, TokenType>)
      returns (values': map<Path, string>, types': map<Path, TokenType>)
    requires types == TypesOf(values)
    ensures values' == values + FontValues(stack) && types' == TypesOf(values')
  {
    values' := values + map[FontBody := stack.body, FontDisplay := stack.display];
    types' := types + map[FontBody := FontFamilyToken, FontDisplay := FontFamilyToken];
    TypesOfUnion(values, FontValues(stack));
    assert TypesOf(FontValues(stack)) == map[FontBody := FontFamilyToken, FontDisplay := FontFamilyToken];
  }

  lemma TypesOfUnion(a: map<Path, string>, b: map<Path, string>)
    ensures TypesOf(a + b) == TypesOf(a) + TypesOf(b)
  {
  }

  method OverrideColors(pow: Power, c: Color) returns (values: map<Path, string>, types: map<Path, TokenType>)
    requires IsPower(pow) && InGamut(c)
    ensures values == ColorValues(c, CorrectedAccent(pow, c)) && types == TypesOf(values)
  {
    var accent := CorrectAccent(pow, c);
    var hover := accent.color;
    if accent.on == WHITE_HEX {
      hover := Darken(accent.color, HOVER_DARKEN);
    }
    var primary := ToHex(c);
    values := map[AccentDefault := ToHex(accent.color), AccentHover := ToHex(hover), AccentOn := accent.on,
                  Signal := primary, Focus := primary];
    types := map path | path in values :: ColorToken;
  }

  // The branch for a primary colour.
  method DeriveColors(pow: Power, p: string)
      returns (r: Result<(map<Path, string>, map<Path, TokenType>), PaletteError>)
    requires IsPower(pow)
    ensures var half := ColorHalf(pow, p);
            && (r.Err? <==> half.Err?)
            && (r.Err? ==> r.error == half.error)
            && (r.Ok? ==> r.value == (half.value, TypesOf(half.value)))
  {
    var values: map<Path, string>, types: map<Path, TokenType> := map[], map[];
    if p != [] {
      var parsed := ParseHex(p);
      if parsed.Err? {
        return Err(BadColor(parsed.error));
      }
      ParsedIsOnGrid(p);
      values, types := OverrideColors(pow, parsed.value);
    }
    assert types == TypesOf(values);
    return Ok((values, types));
  }

  // The branch for a font key.
  method DeriveFonts(f: string, values: map<Path, string>, types: map<Path, TokenType>)
      returns (r: Result<(map<Path, string>, map<Path, TokenType>), PaletteError>)
    requires types == TypesOf(values)
    ensures var half := FontHalf(f);
            && (r.Err? <==> half.Err?)
            && (r.Err? ==> r.error == half.error)
            && (r.Ok? ==> r.value == (values + half.value, TypesOf(values + half.value)))
  {
    assert values + map[] == values;
    if f == [] {
      return Ok((values, types));
    }
    if f !in FONT_STACKS {
      return Err(UnknownFont(f));
    }
    var v, t := OverrideFonts(FONT_STACKS[f], values, types);
    return Ok((v, t));
  }

  method DeriveLayer(pow: Power, primaryHex: string, fontKey: string) returns (r: Result<Option<Layer>, PaletteError>)
    requires IsPower(pow)
    ensures r == DerivedLayer(pow, primaryHex, fontKey)
  {
    var p, f := Text.TrimSpace(primaryHex), Text.TrimSpace(fontKey);
    if p == [] && f == [] {
      return Ok(None);
    }
    var colors := DeriveColors(pow, p);
    if colors.Err? {
      return Err(colors.error);
    }
    var fonts := DeriveFonts(f, colors.value.0, colors.value.1);
    if fonts.Err? {
      return Err(fonts.error);
    }
    return Ok(Some(Layer(fonts.value.0, fonts.value.1)));
  }

  // The one gate for both fields.
  predicate Acceptable(primaryHex: string, fontKey: string) {
    var p, f := Text.TrimSpace(primaryHex), Text.TrimSpace(fontKey);
    (p == [] || ParseHex(p).Ok?) && (f == [] || f in FONT_STACKS)
  }

  lemma DerivesExactlyAcceptable(pow: Power, primaryHex: string, fontKey: string)
    requires IsPower(pow)
    ensures DerivedLayer(pow, primaryHex, fontKey).Ok? <==> Acceptable(primaryHex, fontKey)
    ensures DerivedLayer(pow, Text.TrimSpace(primaryHex), Text.TrimSpace(fontKey)) ==
            DerivedLayer(pow, primaryHex, fontKey)
  {
    Text.TrimSpaceIdempotent(primaryHex);
    Text.TrimSpaceIdempotent(fontKey);
  }

  // There is nothing to override exactly when both fields are blank. Otherwise a
  // bad colour is reported before an unknown font, and an accepted layer gives the
  // two font paths the key's stack and every path its type.
  lemma DerivesWhat(pow: Power, primaryHex: string, fontKey: string)
    requires IsPower(pow)
    ensures var r, p, f := DerivedLayer(pow, primaryHex, fontKey), Text.TrimSpace(primaryHex), Text.TrimSpace(fontKey);
            && (r == Ok(None) <==> p == "" && f == "")
            && (forall e :: r == Err(BadColor(e)) <==> p != "" && ParseHex(p) == Err(e))
            && (forall k :: r == Err(UnknownFont(k)) <==>
                  k == f && (p == "" || ParseHex(p).Ok?) && f != "" && f !in {"editorial", "grotesk", "plex"})
  {
    var p, f := Text.TrimSpace(primaryHex), Text.TrimSpace(fontKey);
    FontHalfMeans(f);
    ColorHalfMeans(pow, p);
  }

  lemma ColorHalfMeans(pow: Power, p: string)
    requires IsPower(pow)
    ensures ColorHalf(pow, p).Ok? <==> p == "" || ParseHex(p).Ok?
    ensures ColorHalf(pow, p).Err? ==> ColorHalf(pow, p).error == BadColor(ParseHex(p).error)
  {
  }

  function Body(key: string): string {
    if key == "editorial" then SERIF else if key == "grotesk" then GROTESK else PLEX
  }

  lemma FontHalfMeans(f: string)
    ensures FontHalf(f).Ok? <==> f in {"", "editorial", "grotesk", "plex"}
    ensures FontHalf(f).Err? ==> FontHalf(f).error == UnknownFont(f)
    ensures FontHalf(f).Ok? ==>
              FontHalf(f).value == if f == "" then map[] else map[FontBody := Body(f), FontDisplay := Body(f)]
  {
  }

  lemma ColorHalfPaths(pow: Power, p: string)
    requires IsPower(pow) && ColorHalf(pow, p).Ok?
    ensures ColorHalf(pow, p).value.Keys == if p == "" then {} else COLOR_PATHS
  {
  }

  lemma HalvesMeet(colors: map<Path, string>, fonts: map<Path, string>)
    requires colors.Keys <= COLOR_PATHS && fonts.Keys <= {FontBody, FontDisplay}
    ensures var values := colors + fonts;
            && (FontBody in values <==> FontBody in fonts) && (FontDisplay in values <==> FontDisplay in fonts)
            && (FontBody in fonts ==> values[FontBody] == fonts[FontBody])
            && (FontDisplay in fonts ==> values[FontDisplay] == fonts[FontDisplay])
            && (AccentDefault in values <==> AccentDefault in colors)
  {
  }

  lemma FontsAndTypes(pow: Power, primaryHex: string, fontKey: string)
    requires IsPower(pow) && DerivedLayer(pow, primaryHex, fontKey).Ok?
    requires DerivedLayer(pow, primaryHex, fontKey).value.Some?
    ensures var l, f := DerivedLayer(pow, primaryHex, fontKey).value.value, Text.TrimSpace(fontKey);
            && (FontBody in l.values <==> f != "") && (FontDisplay in l.values <==> f != "")
            && (f != "" ==> l.values[FontBody] == Body(f) && l.values[FontDisplay] == Body(f))
            && (AccentDefault in l.values <==> Text.TrimSpace(primaryHex) != "")
            && TypesFit(l)
  {
    var p, f := Text.TrimSpace(primaryHex), Text.TrimSpace(fontKey);
    FontHalfMeans(f);
    ColorHalfPaths(pow, p);
    HalvesMeet(ColorHalf(pow, p).value, FontHalf(f).value);
  }

  predicate TypesFit(l: Layer) {
    && l.types.Keys == l.values.Keys
    && forall path | path in l.types ::
         l.types[path] == if path in {FontBody, FontDisplay} then FontFamilyToken else ColorToken
  }

  ghost predicate MeasuresAA(pow: Power, a: string, b: string)
    requires IsPower(pow)
  {
    && ParseHex(a).Ok? && ParseHex(b).Ok?
    && RelativeLuminance(pow, ParseHex(a).value) >= 0.0 && RelativeLuminance(pow, ParseHex(b).value) >= 0.0
    && ContrastRatio(RelativeLuminance(pow, ParseHex(a).value), RelativeLuminance(pow, ParseHex(b).value))
       >= WCAG_AA_CONTRAST
  }

  lemma WhiteTextMeasuresAA(pow: Power, c: Color)
    requires IsPower(pow) && InGamut(Quantized(c)) && RelativeLuminance(pow, Quantized(c)) <= AA_LUMINANCE
    ensures MeasuresAA(pow, ToHex(c), WHITE_HEX)
  {
    ParseOfToHex(c);
    InkAndWhiteParse();
    ReadableIffDark(pow, Quantized(c));
  }

  // Every pair an accepted primary emits measures 4.5:1 when the emitted strings
  // are read back, and signal and focus are the primary itself.
  lemma EmittedPairsMeasureAA(pow: Power, primaryHex: string, fontKey: string)
    requires IsPower(pow) && Acceptable(primaryHex, fontKey) && !Text.Blank(primaryHex)
    ensures var values := DerivedLayer(pow, primaryHex, fontKey).value.value.values;
            && COLOR_PATHS <= values.Keys <= COLOR_PATHS + {FontBody, FontDisplay}
            && MeasuresAA(pow, values[AccentDefault], values[AccentOn])
            && MeasuresAA(pow, values[AccentHover], values[AccentOn])
            && values[Signal] == values[Focus]
            && ParseHex(values[Signal]) == ParseHex(Text.TrimSpace(primaryHex))
  {
    var p := Text.TrimSpace(primaryHex);
    var c := ParseHex(p).value;
    ParsedIsOnGrid(p);
    CanonicalKeepsColor(p);
    var a := CorrectedAccent(pow, c);
    HoverStaysReadable(pow, c);
    CorrectionIsIdempotent(pow, c);
    var k := CorrectFromFinds(pow, c, 0);
    QuantizedIdempotent(Darken(c, k as real * DARKEN_STEP));
    WhiteTextMeasuresAA(pow, a.color);
    WhiteTextMeasuresAA(pow, HoverOf(a));
    var values := DerivedLayer(pow, primaryHex, fontKey).value.value.values;
    var f := Text.TrimSpace(fontKey);
    assert values == ColorValues(c, a) + FontHalf(f).value;
    EmittedValues(c, a, FontHalf(f).value);
  }

  // What an accepted primary emits: the least readable shade, that shade with 92
  // parts in 100 of each channel kept, white, and the primary itself.
  ghost predicate Emits(pow: Power, c: Color, k: nat, values: map<Path, string>) {
    var shade := Shade(c, k);
    && RelativeLuminance(pow, shade) <= AA_LUMINANCE
    && (forall j: nat | j < k :: RelativeLuminance(pow, Shade(c, j)) > AA_LUMINANCE)
    && COLOR_PATHS <= values.Keys
    && values[AccentDefault] == ToHex(shade)
    && values[AccentHover] == ToHex(Color(shade.r * 0.92, shade.g * 0.92, shade.b * 0.92))
    && values[AccentOn] == "#ffffff"
    && values[Signal] == ToHex(c) && values[Focus] == ToHex(c)
  }

  lemma EmitsWhat(pow: Power, primaryHex: string, fontKey: string) returns (k: nat)
    requires IsPower(pow) && Acceptable(primaryHex, fontKey) && !Text.Blank(primaryHex)
    ensures Emits(pow, ParseHex(Text.TrimSpace(primaryHex)).value, k,
              DerivedLayer(pow, primaryHex, fontKey).value.value.values)
  {
    LayerValues(pow, primaryHex, fontKey);
    k := AccentEmits(pow, ParseHex(Text.TrimSpace(primaryHex)).value, FontHalf(Text.TrimSpace(fontKey)).value,
      DerivedLayer(pow, primaryHex, fontKey).value.value.values);
  }

  lemma AccentEmits(pow: Power, c: Color, fonts: map<Path, string>, values: map<Path, string>) returns (k: nat)
    requires IsPower(pow) && InGamut(c) && fonts.Keys <= {FontBody, FontDisplay}
    requires values == ColorValues(c, CorrectedAccent(pow, c)) + fonts
    ensures Emits(pow, c, k, values)
  {
    k := AccentIs(pow, c);
    EmittedValues(c, CorrectedAccent(pow, c), fonts);
  }

  lemma AccentIs(pow: Power, c: Color) returns (k: nat)
    requires IsPower(pow) && InGamut(c)
    ensures var a, shade := CorrectedAccent(pow, c), Shade(c, k);
            && a == Accent(shade, "#ffffff")
            && HoverOf(a) == Color(shade.r * 0.92, shade.g * 0.92, shade.b * 0.92)
            && RelativeLuminance(pow, shade) <= AA_LUMINANCE
            && forall j: nat | j < k :: RelativeLuminance(pow, Shade(c, j)) > AA_LUMINANCE
  {
    k := CorrectFromFinds(pow, c, 0);
    HoverKeepsMost(Accent(Shade(c, k), "#ffffff"));
  }

  lemma LayerValues(pow: Power, primaryHex: string, fontKey: string)
    requires IsPower(pow) && Acceptable(primaryHex, fontKey) && !Text.Blank(primaryHex)
    ensures var c := ParseHex(Text.TrimSpace(primaryHex)).value;
            && InGamut(c)
            && DerivedLayer(pow, primaryHex, fontKey).value.value.values ==
               ColorValues(c, CorrectedAccent(pow, c)) + FontHalf(Text.TrimSpace(fontKey)).value
            && FontHalf(Text.TrimSpace(fontKey)).value.Keys <= {FontBody, FontDisplay}
  {
    ParsedIsOnGrid(Text.TrimSpace(primaryHex));
  }

  lemma EmittedValues(c: Color, a: Accent, fonts: map<Path, string>)
    requires fonts.Keys <= {FontBody, FontDisplay}
    ensures var values := ColorValues(c, a) + fonts;
            && COLOR_PATHS <= values.Keys <= COLOR_PATHS + {FontBody, FontDisplay}
            && values[AccentDefault] == ToHex(a.color) && values[AccentHover] == ToHex(HoverOf(a))
            && values[AccentOn] == a.on
            && values[Signal] == values[Focus] == ToHex(c)
  {
  }
}
