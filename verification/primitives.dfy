/**
  Framework members that the string extensions call but whose source is not
  part of this model. Each is written out from the documented behaviour of the
  .NET member it stands for; these are assumptions of the model.
*/
module Primitives {

  /**
    The library's `Clamp(value, min, max)` extension on `int`. The lower bound
    is checked first, so when `min > max` a value below `min` still gives `min`
    and any other value gives `max`.
  */
  function Clamp(v: int, lo: int, hi: int): (r: int)
    ensures lo <= hi ==> lo <= r <= hi
    ensures r == lo || r == hi || r == v
  {
    if v < lo then lo else if v > hi then hi else v
  }

  function Min(a: int, b: int): int { if a <= b then a else b }

  function Max(a: int, b: int): int { if a >= b then a else b }

  /** `char.IsControl`: the Unicode general category Cc, U+0000–U+001F and U+007F–U+009F. */
  predicate IsControl(c: char) {
    c as int <= 0x1F || 0x7F <= c as int <= 0x9F
  }

  /**
    `char.IsWhiteSpace`: the space, line and paragraph separators (Zs, Zl, Zp)
    together with U+0009–U+000D and U+0085.
  */
  predicate IsWhiteSpace(c: char) {
    var n := c as int;
    || 0x09 <= n <= 0x0D
    || n == 0x20 || n == 0x85 || n == 0xA0 || n == 0x1680
    || 0x2000 <= n <= 0x200A
    || n == 0x2028 || n == 0x2029 || n == 0x202F || n == 0x205F || n == 0x3000
  }

  /** The character class `[a-z]` of a culture-invariant, case-sensitive .NET regex. */
  predicate IsAsciiLower(c: char) { 'a' <= c <= 'z' }

  /** The character class `[A-Z]`. */
  predicate IsAsciiUpper(c: char) { 'A' <= c <= 'Z' }

  /** `new string(c, n)`: `n` copies of `c`. */
  function Repeat(c: char, n: nat): (r: string)
    ensures |r| == n
    ensures forall i :: 0 <= i < n ==> r[i] == c
  {
    if n == 0 then "" else [c] + Repeat(c, n - 1)
  }
}
