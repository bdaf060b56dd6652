# CMYK conversion of AndroidColorX, modelled in Dafny

This project models the CMYK part of the AndroidColorX library: the `CMYKColor` value type and
the conversions between it and a packed Android colour integer (`@ColorInt`). It also models the
platform behaviour those conversions rely on: `Color.red`, `Color.green`, `Color.blue`,
`Color.alpha` and `Color.rgb` from `android.graphics.Color`, and Kotlin's `Float.toInt()`.
On that model it proves the conversion's algebra:
- the key is one minus the brightest channel;
- every component lies in [0, 1];
- the brightest channel's component is 0;
- the alpha byte is ignored;
- int → CMYK → int gives back the same colour, made opaque;
- the `asCmyk` round trip is idempotent.

Modules, one per concern:

- `KotlinNumbers` (`kotlin_numbers.dfy`): the range of a Kotlin `Int`, and `Float.toInt()`.
  `toInt()` rounds toward zero and saturates at `Int.MIN_VALUE` and `Int.MAX_VALUE`.
- `AndroidColor` (`android_color.dfy`): a `@ColorInt` is the 32 bits of a Kotlin `Int` (`bv32`).
  The channel readers are shifts and masks. `Color.rgb` is modelled bit for bit as
  `0xff000000 | (red << 16) | (green << 8) | blue` over two's-complement arguments.
  `Color.rgb` does not mask its arguments, so the model does not require them to lie in 0..255.
  Instead, `RgbChannels` proves what `Color.rgb` gives when they do, and `Rgb` proves that
  alpha is always 255.
- `CMYK` (`cmyk_color.dfy`): `CMYKColor` is a datatype of four `real` components, one for each
  `Float` field. It also holds `Int.asCMYK()` (`AsCMYK`), `CMYKColor.asColorInt()`
  (`AsColorInt`), `CMYKColor.asCmyk()` (`AsCmyk`) and the lemmas about them.

`Float` arithmetic is modelled as exact real arithmetic. So the round trip holds exactly in the
model. In single-precision floats it holds only up to rounding.

Pure black (red = green = blue = 0) gives `k = 1`. Lines 36-38 of `CMYKColor.kt` then divide
`0f / 0f`, which in Kotlin yields NaN for cyan, magenta and yellow. The model has no NaN. Instead,
`AsCMYK` returns a separate result, `ZeroByZero`, in exactly that case. The usual convention sets
cyan, magenta and yellow to 0 for pure black. The code does not do that, and the model follows
the code.

## Model

| member | source | states |
|---|---|---|
| `KotlinNumbers.FloatToInt` | library/src/main/java/dev/jorgecastillo/androidcolorx/library/CMYKColor.kt:49 | `toInt()` rounds toward zero: `n <= x < n + 1` for non-negative `x` and `n - 1 < x <= n` for negative `x` within `Int`'s range. It saturates at `Int.MAX_VALUE` and `Int.MIN_VALUE` |
| `AndroidColor.Rgb` | library/src/main/java/dev/jorgecastillo/androidcolorx/library/CMYKColor.kt:49 | `Color.rgb` always gives alpha 255, for any `Int` arguments |
| `AndroidColor.RgbChannels` | library/src/main/java/dev/jorgecastillo/androidcolorx/library/CMYKColor.kt:49 | for arguments in 0..255, `Color.rgb(r, g, b)` has red `r`, green `g`, blue `b` and alpha 255 |
| `AndroidColor.RgbOfChannels` | library/src/main/java/dev/jorgecastillo/androidcolorx/library/CMYKColor.kt:26-28 | reading red, green and blue and repacking them with `Color.rgb` gives the original colour with alpha set to 255 (the colour OR `0xFF000000`) |
| `AndroidColor.WithAlphaChannels` | library/src/main/java/dev/jorgecastillo/androidcolorx/library/CMYKColor.kt:26-28 | replacing a colour's alpha byte changes `Color.alpha` to the new value and leaves `Color.red`, `Color.green` and `Color.blue` unchanged |
| `CMYK.Max` | library/src/main/java/dev/jorgecastillo/androidcolorx/library/CMYKColor.kt:34 | `kotlin.math.max` is an upper bound of both arguments and equal to one of them |
| `CMYK.ChannelsToCMYK` | library/src/main/java/dev/jorgecastillo/androidcolorx/library/CMYKColor.kt:30-40 | the arithmetic of `asCMYK` on three channels, returning the `CMYKColor(cyan, magenta, yellow, k)` of lines 8-13; it hits the `0f/0f` case exactly when all three channels are 0, and the key is then 1 |
| `CMYK.AsCMYK` | library/src/main/java/dev/jorgecastillo/androidcolorx/library/CMYKColor.kt:25-41 | `asCMYK` is defined (no `0f/0f`) exactly when the colour is not pure black |
| `CMYK.KeyIsComplementOfBrightest` | library/src/main/java/dev/jorgecastillo/androidcolorx/library/CMYKColor.kt:30-34 | `k = 1 - max(r, g, b) / 255`, `0 <= k <= 1`, and `k = 1` exactly for pure black |
| `CMYK.AsCMYKKey` | library/src/main/java/dev/jorgecastillo/androidcolorx/library/CMYKColor.kt:34 | for a colour that is not pure black, the key of the result is `1 - max(r, g, b) / 255` and lies in [0, 1) |
| `CMYK.ClosedForm` | library/src/main/java/dev/jorgecastillo/androidcolorx/library/CMYKColor.kt:30-38 | for any channels that are not all 0, with `m = max(r, g, b)`: cyan = (m - r) / m, magenta = (m - g) / m, yellow = (m - b) / m, key = (255 - m) / 255 |
| `CMYK.AsCMYKInUnitRange` | library/src/main/java/dev/jorgecastillo/androidcolorx/library/CMYKColor.kt:36-38 | for a colour that is not pure black, cyan, magenta, yellow and key all lie in [0, 1] |
| `CMYK.BrightestChannelHasNoInk` | library/src/main/java/dev/jorgecastillo/androidcolorx/library/CMYKColor.kt:34-38 | cyan (magenta, yellow) is 0 if and only if red (green, blue) is the brightest channel, so at least one of the three is 0 |
| `CMYK.AsCMYKIgnoresAlpha` | library/src/main/java/dev/jorgecastillo/androidcolorx/library/CMYKColor.kt:26-28 | two colours that differ only in their alpha byte give the same `asCMYK` result |
| `CMYK.WhiteToCMYK` | library/src/main/java/dev/jorgecastillo/androidcolorx/library/CMYKColor.kt:30-38 | red = green = blue = 255 gives CMYK (0, 0, 0, 0), whatever the alpha |
| `CMYK.AsColorInt` | library/src/main/java/dev/jorgecastillo/androidcolorx/library/CMYKColor.kt:44-50 | `asColorInt` always gives alpha 255, for any components |
| `CMYK.AsColorIntChannels` | library/src/main/java/dev/jorgecastillo/androidcolorx/library/CMYKColor.kt:45-49 | for components in [0, 1], each channel is `floor(255 * (1 - ink) * (1 - key))`, which lies in 0..255 so that no channel spills into another. Alpha is 255 |
| `CMYK.FullKeyIsBlack` | library/src/main/java/dev/jorgecastillo/androidcolorx/library/CMYKColor.kt:45-49 | any components with key 1 give pure black, so `asCmyk` of them falls into the `0f/0f` case |
| `CMYK.ZeroToWhite` | library/src/main/java/dev/jorgecastillo/androidcolorx/library/CMYKColor.kt:45-49 | CMYK (0, 0, 0, 0) gives opaque white `0xFFFFFFFF` |
| `CMYK.RoundTrip` | library/src/main/java/dev/jorgecastillo/androidcolorx/library/CMYKColor.kt:25-50 | for a colour that is not pure black, `asCMYK().asColorInt()` is the colour with alpha set to 255: same red, green and blue, alpha 255 |
| `CMYK.AsCmykFixesConverted` | library/src/main/java/dev/jorgecastillo/androidcolorx/library/CMYKColor.kt:56 | every CMYK value that `asCMYK` produces is a fixed point of `asCmyk` |
| `CMYK.AsCmykIdempotent` | library/src/main/java/dev/jorgecastillo/androidcolorx/library/CMYKColor.kt:56 | `asCmyk(asCmyk(x)) == asCmyk(x)` wherever `asCmyk(x)` is defined |
| `AndroidColor.Alpha` | library/src/main/java/dev/jorgecastillo/androidcolorx/library/CMYKColor.kt:26-28 | `Color.alpha`: `color >>> 24`, the top byte (no contract of its own); see `Rgb`, `WithAlphaChannels`, `RgbChannels` |
| `AndroidColor.Red` | library/src/main/java/dev/jorgecastillo/androidcolorx/library/CMYKColor.kt:26 | `Color.red`: `(color >> 16) & 0xFF` (no contract of its own); see `RgbChannels`, `RgbOfChannels`, `WithAlphaChannels` |
| `AndroidColor.Green` | library/src/main/java/dev/jorgecastillo/androidcolorx/library/CMYKColor.kt:27 | `Color.green`: `(color >> 8) & 0xFF` (no contract of its own); see `RgbChannels`, `RgbOfChannels`, `WithAlphaChannels` |
| `AndroidColor.Blue` | library/src/main/java/dev/jorgecastillo/androidcolorx/library/CMYKColor.kt:28 | `Color.blue`: `color & 0xFF` (no contract of its own); see `RgbChannels`, `RgbOfChannels`, `WithAlphaChannels` |
| `AndroidColor.Bits` | library/src/main/java/dev/jorgecastillo/androidcolorx/library/CMYKColor.kt:49 | the two's-complement bits of the `Int` arguments that `Color.rgb` shifts and ORs (no contract of its own); see `RgbChannels`, `RgbOfChannels` |
| `CMYK.Fraction` | library/src/main/java/dev/jorgecastillo/androidcolorx/library/CMYKColor.kt:30-32 | `r / 255f` and its siblings (no contract of its own); see `KeyIsComplementOfBrightest`, `ClosedForm` |
| `CMYK.Key` | library/src/main/java/dev/jorgecastillo/androidcolorx/library/CMYKColor.kt:34 | `k = 1.0f - max(r1, max(g1, b1))` (no contract of its own); see `KeyIsComplementOfBrightest`, `AsCMYKKey` |
| `CMYK.Channel` | library/src/main/java/dev/jorgecastillo/androidcolorx/library/CMYKColor.kt:45-47 | `255 * (1 - ink) * (1 - key)` before `toInt()` (no contract of its own); see `ScaledProductInRange`, `AsColorIntChannels`, `RoundTrip` |
| `CMYK.AsCmyk` | library/src/main/java/dev/jorgecastillo/androidcolorx/library/CMYKColor.kt:56 | `asColorInt().asCMYK()` (no contract of its own); see `AsCmykFixesConverted`, `AsCmykIdempotent`, `FullKeyIsBlack` |

## Left out

- `CMYKColor.toString` (CMYKColor.kt:14-19): string formatting with `String.format("%.2f")` depends on locale and float formatting. It has no logic to check.
- `CMYKColor.isDark` (CMYKColor.kt:134): it delegates to `androidx.core.graphics.ColorUtils.calculateLuminance`. That code is not part of this model.
- `asRgb`, `asArgb`, `asHex`, `asHsl`, `lighten`, `darken`, `getShades`, `getTints`, `complimentary`, `triadic`, `tetradic`, `analogous` (CMYKColor.kt:52-129): each is a one-line delegation through `asColorInt()`. The `Int` extensions and the RGB, ARGB, HEX and HSL types it delegates to are not part of this model.
- IEEE-754 `Float` rounding: components are exact reals. The round trip is exact in the model, not bit for bit in single precision.
- NaN: the `0f / 0f` of pure black is the `ZeroByZero` result rather than a NaN value; it carries the key, which is 1, but no cyan, magenta or yellow. `asColorInt` of NaN components, where `toInt()` would give 0, is therefore not modelled.
