/** Packed 24-bit colours (grid.py:4-13): red in the high byte, green in the
    middle byte, blue in the low byte. */
module Colors {
  import opened Arith

  const RED_UNIT: int := 256 * 256
  const GREEN_UNIT: int := 256
  const BLUE_UNIT: int := 1
  const RED: int := 255 * RED_UNIT
  const GREEN: int := 255 * GREEN_UNIT
  const BLUE: int := 255 * BLUE_UNIT
  const BLACK: int := 0
  const WHITE: int := RED + GREEN + BLUE
  const GRAY_FACTOR: int := 190
  const GRAY: int := GRAY_FACTOR * (RED_UNIT + GREEN_UNIT + BLUE_UNIT)

  datatype Rgb = Rgb(red: int, green: int, blue: int)

  predicate IsChannel(v: int) {
    0 <= v <= 255
  }

  predicate IsRgb(c: Rgb) {
    IsChannel(c.red) && IsChannel(c.green) && IsChannel(c.blue)
  }

  /** A value that packs three channels. */
  predicate IsColor(color: int) {
    0 <= color < 256 * RED_UNIT
  }

  /** The channel split `color // RED_UNIT`, `color % RED_UNIT // GREEN_UNIT`,
      `color % GREEN_UNIT` (grid.py:35, 196-198).  The divisors are positive,
      so Dafny's `/` and `%` agree with Python's `//` and `%` on every
      integer. */
  function Split(color: int): (c: Rgb)
    ensures IsColor(color) ==> IsRgb(c)
    ensures IsColor(color) ==> c.red * RED_UNIT + c.green * GREEN_UNIT + c.blue * BLUE_UNIT == color
  {
    Rgb(color / RED_UNIT, color % RED_UNIT / GREEN_UNIT, color % GREEN_UNIT)
  }

  /** `r * RED_UNIT + g * GREEN_UNIT + b * BLUE_UNIT` (grid.py:202). */
  function Pack(c: Rgb): (color: int)
    ensures IsRgb(c) ==> IsColor(color) && Split(color) == c
  {
    var color := c.red * RED_UNIT + c.green * GREEN_UNIT + c.blue * BLUE_UNIT;
    if IsRgb(c) then ChannelsOf(c.red, c.green, c.blue); color else color
  }

  /** The three divisions of `Split` recover the channels of a packed
      value. */
  lemma ChannelsOf(r: int, g: int, b: int)
    requires IsChannel(r) && IsChannel(g) && IsChannel(b)
    ensures var color := r * RED_UNIT + g * GREEN_UNIT + b;
      color / RED_UNIT == r && color % RED_UNIT / GREEN_UNIT == g && color % GREEN_UNIT == b
  {
    var low := g * GREEN_UNIT + b;
    var color := r * RED_UNIT + low;
    DivModOf(color, RED_UNIT, r, low);
    DivModOf(low, GREEN_UNIT, g, b);
    DivModOf(color, GREEN_UNIT, r * 256 + g, b);
  }

  /** Every packed colour is the packing of its own channels. */
  lemma PackSplit(color: int)
    requires IsColor(color)
    ensures Pack(Split(color)) == color
  {
  }

  /** Integer stand-in for `int(np.floor((2.0/3) * GRAY_FACTOR + (1.0/3) * v))`
      (grid.py:199-201): the exact floor of two thirds of the way from v to
      GRAY_FACTOR.  The source computes it in double precision, which is not
      modelled. */
  function Blend(v: int): (r: int)
    ensures IsChannel(v) ==> IsChannel(r)
    ensures v <= GRAY_FACTOR ==> v <= r <= GRAY_FACTOR
    ensures v >= GRAY_FACTOR ==> GRAY_FACTOR <= r <= v
    ensures 3 * (r - GRAY_FACTOR) <= v - GRAY_FACTOR < 3 * (r - GRAY_FACTOR) + 3
  {
    (2 * GRAY_FACTOR + v) / 3
  }

  /** The colour a cell is drawn in when it is off the highlighted
      anti-diagonal (grid.py:196-202). */
  function BlendColor(color: int): (r: int)
    ensures IsColor(color) ==> IsColor(r)
    ensures var c, d := Split(color), Split(r);
      IsColor(color) ==> d == Rgb(Blend(c.red), Blend(c.green), Blend(c.blue))
  {
    var c := Split(color);
    Pack(Rgb(Blend(c.red), Blend(c.green), Blend(c.blue)))
  }

  /** The three cell colours and their blends: GRAY is its own blend, so
      the shape cache never holds more than five colours. */
  lemma CellColorBlends()
    ensures BlendColor(GRAY) == GRAY
    ensures BlendColor(WHITE) == 211 * (RED_UNIT + GREEN_UNIT + BLUE_UNIT)
    ensures BlendColor(BLACK) == 126 * (RED_UNIT + GREEN_UNIT + BLUE_UNIT)
  {
    assert Split(GRAY) == Rgb(190, 190, 190);
    assert Split(WHITE) == Rgb(255, 255, 255);
    assert Split(BLACK) == Rgb(0, 0, 0);
  }
}
