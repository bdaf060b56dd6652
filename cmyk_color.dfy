/** `CMYKColor.kt`: the CMYK value type and its conversions to and from a packed `@ColorInt`. */
module CMYK {
  import opened KotlinNumbers
  import opened AndroidColor

  /** `data class CMYKColor`: four `Float` components, compared field by field. */
  datatype CMYKColor = CMYKColor(cyan: real, magenta: real, yellow: real, key: real)

  /** What `Int.asCMYK()` produces. For pure black the three divisions by `1 - k` are
      `0f / 0f`, whose NaN the model does not represent: that case is named instead and
      carries only the key, which is well defined. */
  datatype Conversion = Converted(color: CMYKColor) | ZeroByZero(key: real)

  /** Every component lies in [0, 1], the ranges the source's formulas are written for. */
  predicate InUnitRange(x: CMYKColor)
  {
    && 0.0 <= x.cyan <= 1.0 && 0.0 <= x.magenta <= 1.0
    && 0.0 <= x.yellow <= 1.0 && 0.0 <= x.key <= 1.0
  }

  predicate IsBlack(c: ColorInt)
  {
    Red(c) == 0 && Green(c) == 0 && Blue(c) == 0
  }

  /** The largest of three channels. */
  function Brightest(r: UByte, g: UByte, b: UByte): (m: UByte)
    ensures r <= m && g <= m && b <= m
    ensures m == r || m == g || m == b
  {
    var gb := if g >= b then g else b;
    if r >= gb then r else gb
  }

  /** `kotlin.math.max` on two `Float`s (no NaN reaches it here). */
  function Max(a: real, b: real): (m: real)
    ensures a <= m && b <= m
    ensures m == a || m == b
  {
    if a >= b then a else b
  }

  /** A channel scaled to [0, 1]: `r / 255f`. */
  function Fraction(channel: UByte): real
  {
    channel as real / 255.0
  }

  /** `k = 1.0f - max(r1, max(g1, b1))`, for the channels `r`, `g`, `b`. */
  function Key(r: UByte, g: UByte, b: UByte): real
  {
    1.0 - Max(Fraction(r), Max(Fraction(g), Fraction(b)))
  }

  /** The arithmetic of `Int.asCMYK()` once the three channels have been read. */
  function ChannelsToCMYK(r: UByte, g: UByte, b: UByte): (res: Conversion)
    ensures res.ZeroByZero? <==> r == 0 && g == 0 && b == 0
    ensures res.ZeroByZero? ==> res.key == 1.0
  {
    var r1, g1, b1 := Fraction(r), Fraction(g), Fraction(b);
    var k := Key(r, g, b);
    if k == 1.0 then
      assert Brightest(r, g, b) == 0 by { KeyIsComplementOfBrightest(r, g, b); }
      ZeroByZero(k)
    else
      assert Brightest(r, g, b) != 0 by { KeyIsComplementOfBrightest(r, g, b); }
      Converted(CMYKColor((1.0 - r1 - k) / (1.0 - k), (1.0 - g1 - k) / (1.0 - k),
                          (1.0 - b1 - k) / (1.0 - k), k))
  }

  /** `Int.asCMYK()`: reads `Color.red`, `Color.green` and `Color.blue` of the colour. */
  function AsCMYK(c: ColorInt): (res: Conversion)
    ensures res.ZeroByZero? <==> IsBlack(c)
    ensures res.ZeroByZero? ==> res.key == 1.0
  {
    ChannelsToCMYK(Red(c), Green(c), Blue(c))
  }

  /** `CMYKColor.asColorInt()`: each channel is `255 * (1 - ink) * (1 - key)`, truncated by
      `toInt()` and packed with `Color.rgb`, which always sets alpha to 255. */
  function AsColorInt(x: CMYKColor): (c: ColorInt)
    ensures Alpha(c) == 255
  {
    var red := Channel(x.cyan, x.key);
    var green := Channel(x.magenta, x.key);
    var blue := Channel(x.yellow, x.key);
    Rgb(FloatToInt(red), FloatToInt(green), FloatToInt(blue))
  }

  /** `255 * (1 - ink) * (1 - key)`, one channel of `asColorInt` before truncation. */
  function Channel(ink: real, key: real): real
  {
    255.0 * (1.0 - ink) * (1.0 - key)
  }

  /** `CMYKColor.asCmyk()`: the round trip through the packed colour. */
  function AsCmyk(x: CMYKColor): Conversion
  {
    AsCMYK(AsColorInt(x))
  }

  // ---------------------------------------------------------------------------------------
  // Properties of asCMYK

  /** The key is one minus the brightest channel's fraction; it lies in [0, 1] and is 1 just
      for pure black. */
  lemma KeyIsComplementOfBrightest(r: UByte, g: UByte, b: UByte)
    ensures Key(r, g, b) == 1.0 - Brightest(r, g, b) as real / 255.0
    ensures 0.0 <= Key(r, g, b) <= 1.0
    ensures Key(r, g, b) == 1.0 <==> r == 0 && g == 0 && b == 0
  {
    var m := Brightest(r, g, b);
    assert Fraction(r) <= Fraction(m) && Fraction(g) <= Fraction(m) && Fraction(b) <= Fraction(m);
    assert Max(Fraction(r), Max(Fraction(g), Fraction(b))) == Fraction(m);
  }

  /** The key of a packed colour, in terms of its brightest channel. */
  lemma AsCMYKKey(c: ColorInt)
    requires !IsBlack(c)
    ensures AsCMYK(c).Converted?
    ensures AsCMYK(c).color.key == 1.0 - Brightest(Red(c), Green(c), Blue(c)) as real / 255.0
    ensures 0.0 <= AsCMYK(c).color.key < 1.0
  {
    KeyIsComplementOfBrightest(Red(c), Green(c), Blue(c));
  }

  lemma QuotientOfScaled(a: real, m: real)
    requires m > 0.0
    ensures (a / 255.0) / (m / 255.0) == a / m
  {
    var q := (a / 255.0) / (m / 255.0);
    assert q * (m / 255.0) == a / 255.0;
    assert q * m == a;
  }

  lemma ComponentOfChannel(x: UByte, m: UByte, k: real)
    requires 0 < m && k == 1.0 - m as real / 255.0
    ensures (1.0 - Fraction(x) - k) / (1.0 - k) == (m - x) as real / m as real
  {
    assert 1.0 - Fraction(x) - k == (m - x) as real / 255.0;
    assert 1.0 - k == m as real / 255.0;
    QuotientOfScaled((m - x) as real, m as real);
  }

  /** Apart from pure black the components are the channels' shortfalls from the brightest
      channel `m`: cyan = (m - r) / m, and likewise, and key = (255 - m) / 255. */
  lemma ClosedForm(r: UByte, g: UByte, b: UByte)
    requires r != 0 || g != 0 || b != 0
    ensures var m := Brightest(r, g, b) as real;
      ChannelsToCMYK(r, g, b) == Converted(CMYKColor((m - r as real) / m, (m - g as real) / m,
                                                     (m - b as real) / m, (255.0 - m) / 255.0))
  {
    KeyIsComplementOfBrightest(r, g, b);
    var m, k := Brightest(r, g, b), Key(r, g, b);
    ComponentOfChannel(r, m, k);
    ComponentOfChannel(g, m, k);
    ComponentOfChannel(b, m, k);
  }

  lemma ShortfallInUnitRange(x: UByte, m: UByte)
    requires 0 < m && x <= m
    ensures 0.0 <= (m - x) as real / m as real <= 1.0
    ensures (m - x) as real / m as real == 0.0 <==> x == m
  {
  }

  /** For a non-black colour every component lies in [0, 1]. */
  lemma AsCMYKInUnitRange(c: ColorInt)
    requires !IsBlack(c)
    ensures AsCMYK(c).Converted? && InUnitRange(AsCMYK(c).color)
  {
    var r, g, b := Red(c), Green(c), Blue(c);
    ClosedForm(r, g, b);
    ShortfallInUnitRange(r, Brightest(r, g, b));
    ShortfallInUnitRange(g, Brightest(r, g, b));
    ShortfallInUnitRange(b, Brightest(r, g, b));
  }

  /** A component is 0 exactly when its channel is the brightest, so at least one of cyan,
      magenta and yellow is 0. */
  lemma BrightestChannelHasNoInk(c: ColorInt)
    requires !IsBlack(c)
    ensures AsCMYK(c).Converted?
    ensures var x, m := AsCMYK(c).color, Brightest(Red(c), Green(c), Blue(c));
      && (x.cyan == 0.0 <==> Red(c) == m)
      && (x.magenta == 0.0 <==> Green(c) == m)
      && (x.yellow == 0.0 <==> Blue(c) == m)
    ensures var x := AsCMYK(c).color; x.cyan == 0.0 || x.magenta == 0.0 || x.yellow == 0.0
  {
    var r, g, b := Red(c), Green(c), Blue(c);
    ClosedForm(r, g, b);
    ShortfallInUnitRange(r, Brightest(r, g, b));
    ShortfallInUnitRange(g, Brightest(r, g, b));
    ShortfallInUnitRange(b, Brightest(r, g, b));
  }

  /** `asCMYK` reads only the red, green and blue bytes: the alpha byte does not matter. */
  lemma AsCMYKIgnoresAlpha(c: ColorInt, a: UByte)
    ensures AsCMYK(WithAlpha(c, a)) == AsCMYK(c)
  {
    WithAlphaChannels(c, a);
  }

  lemma WhiteToCMYK(c: ColorInt)
    requires Red(c) == 255 && Green(c) == 255 && Blue(c) == 255
    ensures AsCMYK(c) == Converted(CMYKColor(0.0, 0.0, 0.0, 0.0))
  {
    ClosedForm(255, 255, 255);
  }

  // ---------------------------------------------------------------------------------------
  // Properties of asColorInt

  lemma ScaledProductInRange(ink: real, key: real)
    requires 0.0 <= ink <= 1.0 && 0.0 <= key <= 1.0
    ensures 0.0 <= Channel(ink, key) <= 255.0
  {
    assert 0.0 <= (1.0 - ink) * (1.0 - key) <= 1.0 - ink;
  }

  lemma TruncatedChannel(v: real)
    requires 0.0 <= v <= 255.0
    ensures 0 <= FloatToInt(v) <= 255 && FloatToInt(v) == v.Floor
  {
  }

  /** For components in [0, 1] each channel of `asColorInt` is its scaled product rounded
      down, so nothing spills between channels; alpha is 255. */
  lemma AsColorIntChannels(x: CMYKColor)
    requires InUnitRange(x)
    ensures var c := AsColorInt(x);
      && Red(c) == (Channel(x.cyan, x.key)).Floor
      && Green(c) == (Channel(x.magenta, x.key)).Floor
      && Blue(c) == (Channel(x.yellow, x.key)).Floor
      && Alpha(c) == 255
  {
    var red := Channel(x.cyan, x.key);
    var green := Channel(x.magenta, x.key);
    var blue := Channel(x.yellow, x.key);
    assert 0 <= red.Floor <= 255 && FloatToInt(red) == red.Floor by {
      ScaledProductInRange(x.cyan, x.key);
      TruncatedChannel(red);
    }
    assert 0 <= green.Floor <= 255 && FloatToInt(green) == green.Floor by {
      ScaledProductInRange(x.magenta, x.key);
      TruncatedChannel(green);
    }
    assert 0 <= blue.Floor <= 255 && FloatToInt(blue) == blue.Floor by {
      ScaledProductInRange(x.yellow, x.key);
      TruncatedChannel(blue);
    }
    AsColorIntOfTruncated(x, red.Floor, green.Floor, blue.Floor);
    RgbChannels(red.Floor, green.Floor, blue.Floor);
  }

  /** With full key every channel is 0, so `asCmyk` of such a colour is the pure-black case. */
  lemma FullKeyIsBlack(x: CMYKColor)
    requires x.key == 1.0
    ensures IsBlack(AsColorInt(x)) && AsCmyk(x) == ZeroByZero(1.0)
  {
    assert AsColorInt(x) == Rgb(0, 0, 0);
    RgbChannels(0, 0, 0);
  }

  lemma ZeroToWhite()
    ensures AsColorInt(CMYKColor(0.0, 0.0, 0.0, 0.0)) == 0xFFFF_FFFF
  {
    assert AsColorInt(CMYKColor(0.0, 0.0, 0.0, 0.0)) == Rgb(255, 255, 255);
    BitsOfByte(255);
    ByteBitsOfValue(0xFF);
  }

  // ---------------------------------------------------------------------------------------
  // Round trips

  lemma ChannelBack(x: UByte, m: UByte)
    requires 0 < m && x <= m
    ensures Channel((m - x) as real / m as real, (255.0 - m as real) / 255.0) == x as real
  {
    var xr, mr := x as real, m as real;
    var q, p := (m - x) as real / mr, (255.0 - mr) / 255.0;
    assert q * mr == mr - xr;
    assert (1.0 - q) * mr == xr;
    assert (1.0 - p) * 255.0 == mr;
    calc {
      255.0 * (1.0 - q) * (1.0 - p);
      (1.0 - q) * ((1.0 - p) * 255.0);
      (1.0 - q) * mr;
    }
  }

  lemma AsColorIntOfTruncated(x: CMYKColor, r: UByte, g: UByte, b: UByte)
    requires FloatToInt(Channel(x.cyan, x.key)) == r
    requires FloatToInt(Channel(x.magenta, x.key)) == g
    requires FloatToInt(Channel(x.yellow, x.key)) == b
    ensures AsColorInt(x) == Rgb(r, g, b)
  {
    assert AsColorInt(x) == Rgb(FloatToInt(Channel(x.cyan, x.key)),
                                FloatToInt(Channel(x.magenta, x.key)),
                                FloatToInt(Channel(x.yellow, x.key)));
  }

  lemma TruncatedBack(x: UByte, m: UByte)
    requires 0 < m && x <= m
    ensures FloatToInt(Channel((m - x) as real / m as real, (255.0 - m as real) / 255.0)) == x
  {
    ChannelBack(x, m);
    FloatToIntOfWhole(x);
  }

  /** The channels computed by `asColorInt` from the closed form are the original ones. */
  lemma ChannelsBack(r: UByte, g: UByte, b: UByte)
    requires r != 0 || g != 0 || b != 0
    ensures AsColorInt(ChannelsToCMYK(r, g, b).color) == Rgb(r, g, b)
  {
    var x := ChannelsToCMYK(r, g, b).color;
    var m := Brightest(r, g, b);
    assert x.cyan == (m - r) as real / m as real && x.magenta == (m - g) as real / m as real
      && x.yellow == (m - b) as real / m as real && x.key == (255.0 - m as real) / 255.0
    by {
      ClosedForm(r, g, b);
    }
    TruncatedBack(r, m);
    TruncatedBack(g, m);
    TruncatedBack(b, m);
    AsColorIntOfTruncated(x, r, g, b);
  }

  /** int -> CMYK -> int: a colour that is not pure black comes back with the same red, green
      and blue and with alpha 255. */
  lemma RoundTrip(c: ColorInt)
    requires !IsBlack(c)
    ensures AsCMYK(c).Converted?
    ensures AsColorInt(AsCMYK(c).color) == c | 0xFF00_0000
    ensures var d := AsColorInt(AsCMYK(c).color);
      Red(d) == Red(c) && Green(d) == Green(c) && Blue(d) == Blue(c) && Alpha(d) == 255
  {
    ChannelsBack(Red(c), Green(c), Blue(c));
    RgbOfChannels(c);
    RgbChannels(Red(c), Green(c), Blue(c));
  }

  /** Every CMYK colour that `asCMYK` produces is left unchanged by `asCmyk`. */
  lemma AsCmykFixesConverted(c: ColorInt)
    requires AsCMYK(c).Converted?
    ensures AsCmyk(AsCMYK(c).color) == AsCMYK(c)
  {
    RoundTrip(c);
  }

  /** `asCmyk` is idempotent wherever it is defined. */
  lemma AsCmykIdempotent(x: CMYKColor)
    requires AsCmyk(x).Converted?
    ensures AsCmyk(AsCmyk(x).color) == AsCmyk(x)
  {
    AsCmykFixesConverted(AsColorInt(x));
  }
}
