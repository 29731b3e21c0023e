/** The System.Drawing value types the helpers consume and produce. */
module Drawing {

  /** True if `n` fits an 8-bit colour channel. */
  predicate IsByte(n: int) { 0 <= n <= 255 }

  /** An 8-bit colour channel. */
  type Byte = n: int | IsByte(n)

  /** An ARGB colour; `Color.FromArgb` throws for a channel outside [0, 255],
      which the subset type `Byte` turns into an obligation on every caller. */
  datatype Color = Color(a: Byte, r: Byte, g: Byte, b: Byte)

  /** `Color.Transparent`: white with alpha 0. */
  const Transparent := Color(0, 255, 255, 255)

  /** `Color.FromArgb(r, g, b)`: an opaque colour. */
  function FromRgb(r: Byte, g: Byte, b: Byte): (c: Color)
    ensures c.a == 255
    ensures c.r == r && c.g == g && c.b == b
  {
    Color(255, r, g, b)
  }

  /** Integer rectangle (`Rectangle`). */
  datatype Rectangle = Rectangle(x: int, y: int, width: int, height: int)

  /** Floating-point rectangle (`RectangleF`). */
  datatype RectangleF = RectangleF(x: real, y: real, width: real, height: real)

  /** The implicit widening of a `Rectangle` to a `RectangleF`. */
  function ToRectangleF(rect: Rectangle): (f: RectangleF)
    ensures f.x == rect.x as real && f.y == rect.y as real
    ensures f.width == rect.width as real && f.height == rect.height as real
  {
    RectangleF(rect.x as real, rect.y as real, rect.width as real, rect.height as real)
  }

  /** Integer extent (`Size`). */
  datatype Size = Size(width: int, height: int)
}
