/**
 * The Monokai colour modules' contrast rule: black or white text over an RGB
 * background, chosen by the YIQ brightness of the background.
 */
module Yiq {
  datatype TextColor = Black | White

  /** The YIQ brightness `(299 r + 587 g + 114 b) / 1000`, as an exact quotient. */
  function Brightness(r: int, g: int, b: int): (y: real)
    ensures y * 1000.0 == (r * 299 + g * 587 + b * 114) as real
  {
    (r * 299 + g * 587 + b * 114) as real / 1000.0
  }

  /** Black text over backgrounds of brightness at least 128, white text otherwise. */
  function ContrastColor(r: int, g: int, b: int): (t: TextColor)
    ensures t == Black <==> 299 * r + 587 * g + 114 * b >= 128000
  {
    if Brightness(r, g, b) >= 128.0 then Black else White
  }

  /** A gray `(v, v, v)` has brightness `v`, since the weights add up to 1000. */
  lemma GrayThreshold(v: int)
    ensures ContrastColor(v, v, v) == Black <==> v >= 128
  {
  }

  /** Raising any component never turns black text into white. */
  lemma Monotone(r: int, g: int, b: int, r': int, g': int, b': int)
    requires r <= r' && g <= g' && b <= b'
    ensures ContrastColor(r, g, b) == Black ==> ContrastColor(r', g', b') == Black
  {
  }

  /** Black and white backgrounds, and the three primaries at full intensity. */
  lemma Examples()
    ensures ContrastColor(0, 0, 0) == White
    ensures ContrastColor(255, 255, 255) == Black
    ensures ContrastColor(0, 255, 0) == Black
    ensures ContrastColor(255, 0, 0) == White
    ensures ContrastColor(0, 0, 255) == White
  {
  }
}
