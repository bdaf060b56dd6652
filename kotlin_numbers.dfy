/** Kotlin's 32-bit `Int` and the `Float.toInt()` conversion, with `Float` modelled as `real`. */
module KotlinNumbers {

  const INT_MIN: int := -0x8000_0000
  const INT_MAX: int := 0x7FFF_FFFF

  /** The values of a Kotlin `Int`. */
  type Int32 = x: int | INT_MIN <= x <= INT_MAX

  /** `Float.toInt()`: rounds toward zero and saturates at the bounds of `Int`.
      (NaN, which `toInt()` maps to 0, has no counterpart among the reals.) */
  function FloatToInt(x: real): (n: Int32)
    ensures 0.0 <= x < INT_MAX as real ==> n as real <= x < n as real + 1.0
    ensures INT_MIN as real < x <= 0.0 ==> n as real - 1.0 < x <= n as real
    ensures x >= INT_MAX as real ==> n == INT_MAX
    ensures x <= INT_MIN as real ==> n == INT_MIN
  {
    if x >= INT_MAX as real then INT_MAX
    else if x <= INT_MIN as real then INT_MIN
    else if x >= 0.0 then x.Floor
    else -((-x).Floor)
  }

  /** On a value that is already whole, `toInt()` gives that value back. */
  lemma FloatToIntOfWhole(n: Int32)
    ensures FloatToInt(n as real) == n
  {
  }
}
