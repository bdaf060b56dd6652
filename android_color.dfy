/** The parts of `android.graphics.Color` that the CMYK conversion relies on: reading the
    channels of a `@ColorInt` and packing one with `Color.rgb`. */
module AndroidColor {
  import opened KotlinNumbers

  /** One colour channel, as `Color.red` and its siblings return it: an unsigned byte. */
  type UByte = x: int | 0 <= x < 0x100

  /** A `@ColorInt`: the 32 bits of a Kotlin `Int`, alpha in the top byte, then red, green, blue. */
  type ColorInt = bv32

  /** The byte `shift` bits up from the bottom: `(color >> shift) & 0xFF`. */
  function ByteAt(c: ColorInt, shift: bv32): UByte
    requires shift <= 24
  {
    ((c >> shift) & 0xFF) as int
  }

  /** `Color.alpha(color)`: `color >>> 24`. */
  function Alpha(c: ColorInt): UByte { ByteAt(c, 24) }

  /** `Color.red(color)`: `(color >> 16) & 0xFF`. */
  function Red(c: ColorInt): UByte { ByteAt(c, 16) }

  /** `Color.green(color)`: `(color >> 8) & 0xFF`. */
  function Green(c: ColorInt): UByte { ByteAt(c, 8) }

  /** `Color.blue(color)`: `color & 0xFF`. */
  function Blue(c: ColorInt): UByte { ByteAt(c, 0) }

  /** A byte as the low 8 bits of a 32-bit word, counted up one at a time. This stands in for
      the cast `b as bv32`, which the solver reasons about unreliably; `ByteBitsValue` and
      `ByteBitsOfValue` prove the two agree. */
  function ByteBits(b: UByte): bv32
  {
    if b == 0 then 0 else ByteBits(b - 1) + 1
  }

  /** The two's-complement bits of a Kotlin `Int`, assembled byte by byte. */
  function Bits(x: Int32): bv32
  {
    var u := x % 0x1_0000_0000;
    (ByteBits(u / 0x100_0000) << 24) | (ByteBits((u / 0x1_0000) % 0x100) << 16)
      | (ByteBits((u / 0x100) % 0x100) << 8) | ByteBits(u % 0x100)
  }

  /** `Color.rgb(red, green, blue)`: `0xff000000 | (red << 16) | (green << 8) | blue`.
      The arguments are not masked, so one outside 0..255 spills into the other channels. */
  function Rgb(red: Int32, green: Int32, blue: Int32): (c: ColorInt)
    ensures Alpha(c) == 255
  {
    0xFF00_0000 | (Bits(red) << 16) | (Bits(green) << 8) | Bits(blue)
  }

  /** `c` with its alpha byte replaced by `a` and its other three bytes kept. */
  function WithAlpha(c: ColorInt, a: UByte): ColorInt
  {
    (c & 0x00FF_FFFF) | (ByteBits(a) << 24)
  }

  lemma IncrementBelow256(w: bv32)
    requires w < 255
    ensures w + 1 < 256 && (w + 1) as int == w as int + 1
  {
  }

  /** `ByteBits` encodes a byte: reading the word back as a number gives the byte. */
  lemma {:induction false} ByteBitsValue(b: UByte)
    ensures ByteBits(b) < 256 && ByteBits(b) as int == b
  {
    if b > 0 {
      ByteBitsValue(b - 1);
      IncrementBelow256(ByteBits(b - 1));
    }
  }

  /** ... and every word below 256 is the encoding of its own value. */
  lemma {:induction false} ByteBitsOfValue(w: bv32)
    requires w < 256
    ensures ByteBits(w as int) == w
    decreases w as int
  {
    if w != 0 {
      ByteBitsOfValue(w - 1);
      IncrementBelow256(w - 1);
    }
  }

  lemma ByteDigits(b: UByte)
    ensures var u := b % 0x1_0000_0000;
      u / 0x100_0000 == 0 && (u / 0x1_0000) % 0x100 == 0 && (u / 0x100) % 0x100 == 0
      && u % 0x100 == b
  {
  }

  lemma BitsOfByte(b: UByte)
    ensures Bits(b) == ByteBits(b)
  {
    var z := ByteBits(0);
    assert Bits(b) == (z << 24) | (z << 16) | (z << 8) | ByteBits(b) by {
      ByteDigits(b);
    }
    assert z == 0;
  }

  lemma PackedBytes(r: bv32, g: bv32, b: bv32)
    requires r < 256 && g < 256 && b < 256
    ensures var w := 0xFF00_0000 | (r << 16) | (g << 8) | b;
      (w >> 16) & 0xFF == r && (w >> 8) & 0xFF == g && (w >> 0) & 0xFF == b
  {
  }

  /** For arguments in 0..255, `Color.rgb` stores each one in its own channel. */
  lemma RgbChannels(r: UByte, g: UByte, b: UByte)
    ensures Red(Rgb(r, g, b)) == r && Green(Rgb(r, g, b)) == g && Blue(Rgb(r, g, b)) == b
    ensures Alpha(Rgb(r, g, b)) == 255
  {
    BitsOfByte(r);
    BitsOfByte(g);
    BitsOfByte(b);
    ByteBitsValue(r);
    ByteBitsValue(g);
    ByteBitsValue(b);
    PackedBytes(ByteBits(r), ByteBits(g), ByteBits(b));
  }

  lemma ReassembleLowBytes(c: ColorInt)
    ensures 0xFF00_0000 | (((c >> 16) & 0xFF) << 16) | (((c >> 8) & 0xFF) << 8) | ((c >> 0) & 0xFF)
      == c | 0xFF00_0000
  {
  }

  /** Unpacking a colour and packing its channels again with `Color.rgb` gives back the
      same colour made fully opaque. */
  lemma RgbOfChannels(c: ColorInt)
    ensures Rgb(Red(c), Green(c), Blue(c)) == c | 0xFF00_0000
  {
    ChannelBits(c, 16);
    ChannelBits(c, 8);
    ChannelBits(c, 0);
    ReassembleLowBytes(c);
  }

  lemma ChannelBits(c: ColorInt, shift: bv32)
    requires shift <= 24
    ensures Bits(ByteAt(c, shift)) == (c >> shift) & 0xFF
  {
    BitsOfByte(ByteAt(c, shift));
    ByteBitsOfValue((c >> shift) & 0xFF);
  }

  lemma ReplacedTopByte(c: ColorInt, a: bv32)
    requires a < 256
    ensures var w := (c & 0x00FF_FFFF) | (a << 24);
      (w >> 16) & 0xFF == (c >> 16) & 0xFF && (w >> 8) & 0xFF == (c >> 8) & 0xFF
      && (w >> 0) & 0xFF == (c >> 0) & 0xFF && (w >> 24) & 0xFF == a
  {
  }

  /** Replacing the alpha byte leaves red, green and blue as they were. */
  lemma WithAlphaChannels(c: ColorInt, a: UByte)
    ensures Alpha(WithAlpha(c, a)) == a
    ensures Red(WithAlpha(c, a)) == Red(c) && Green(WithAlpha(c, a)) == Green(c)
    ensures Blue(WithAlpha(c, a)) == Blue(c)
  {
    ByteBitsValue(a);
    ReplacedTopByte(c, ByteBits(a));
  }
}
