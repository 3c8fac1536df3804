/** Drawable masks (grid.py:44-142).  A widget owns a mask array whose
    entries are -1 (transparent) or a colour; `draw` regenerates the mask and
    copies its opaque entries onto a canvas.  The source's class hierarchy
    (Rectangle, Square, the two lines and the three arrows) becomes one class
    with a shape tag and one named constructor per source class. */
module Shapes {
  import Raster

  datatype Shape =
    | RectangleMask
    | LeftArrowMask(arrowheadDim: nat)
    | DownArrowMask(arrowheadDim: nat)
    | DownLeftArrowMask(arrowheadDim: nat)

  /** Entries (p, q) the chevron loop of grid.py:111-115 has set after its
      iterations i = 1 .. n-1: (i, a+i), (i+1, a+i), (i, a-i), (i+1, a-i). */
  predicate LeftHead(a: int, n: int, p: int, q: int) {
    (1 <= p < n && (q == a + p || q == a - p)) ||
    (2 <= p <= n && (q == a + p - 1 || q == a - p + 1))
  }

  /** The entries the mask generator of a shape sets to 1 (grid.py:83-85,
      108-142). */
  predicate Covers(s: Shape, p: int, q: int) {
    match s
    case RectangleMask => true
    case LeftArrowMask(a) => q == a || LeftHead(a, a + 1, p, q)
    case DownArrowMask(a) => p == a || LeftHead(a, a + 1, q, p)
    case DownLeftArrowMask(a) => p == q || (q == 0 && 1 <= p <= a) || (p == 0 && 1 <= q <= a)
  }

  /** The dimensions under which the arrow generators stay inside the mask:
      grid.py:113 needs width >= arrowheadDim + 2, grid.py:128 needs
      height >= arrowheadDim + 2 and grid.py:141-142 need
      dim >= arrowheadDim + 1, whenever there is an arrowhead at all. */
  predicate Fits(s: Shape, width: int, height: int) {
    match s
    case RectangleMask => true
    case LeftArrowMask(a) => height == 2 * a + 1 && (a == 0 || width >= a + 2)
    case DownArrowMask(a) => width == 2 * a + 1 && (a == 0 || height >= a + 2)
    case DownLeftArrowMask(a) => width == height && (a == 0 || a < width)
  }

  class Widget {
    /** First dimension of the mask (`self.__width`). */
    const width: nat
    /** Second dimension of the mask (`self.__height`). */
    const height: nat
    const color: int
    const shape: Shape
    /** Indexed `[i, j]` with i < width and j < height. */
    const pixels: array2<int>

    predicate Valid() {
      pixels.Length0 == width && pixels.Length1 == height && Fits(shape, width, height)
    }

    /** Every mask entry is -1 or 1, as it is before the first `draw`. */
    ghost predicate Unit()
      reads pixels
    {
      forall i, j :: 0 <= i < pixels.Length0 && 0 <= j < pixels.Length1 ==>
        pixels[i, j] == -1 || pixels[i, j] == 1
    }

    ghost predicate Transparent()
      reads pixels
    {
      forall i, j :: 0 <= i < pixels.Length0 && 0 <= j < pixels.Length1 ==> pixels[i, j] == -1
    }

    /** `Rectangle(width, height, color)` (grid.py:79-81), through
        `Widget.__init__` and `MonochromaticWidget.__init__` (grid.py:45-48,
        67-69): an all-transparent mask. */
    constructor Rectangle(width: nat, height: nat, color: int)
      ensures this.width == width && this.height == height && this.color == color
      ensures shape == RectangleMask && Valid() && fresh(pixels) && Transparent()
    {
      this.width, this.height := width, height;
      this.shape, this.color := RectangleMask, color;
      pixels := new int[width, height]((_, _) => 0 - 1);
    }

    /** `Square(dim, color)` (grid.py:88-90). */
    constructor Square(dim: nat, color: int)
      ensures width == dim && height == dim && this.color == color
      ensures shape == RectangleMask && Valid() && fresh(pixels) && Transparent()
    {
      width, height := dim, dim;
      this.shape, this.color := RectangleMask, color;
      pixels := new int[dim, dim]((_, _) => 0 - 1);
    }

    /** `VerticalLine(height, color)`: a mask of shape (height, 1)
        (grid.py:93-95). */
    constructor VerticalLine(length: nat, color: int)
      ensures width == length && height == 1 && this.color == color
      ensures shape == RectangleMask && Valid() && fresh(pixels) && Transparent()
    {
      width, height := length, 1;
      this.shape, this.color := RectangleMask, color;
      pixels := new int[length, 1]((_, _) => 0 - 1);
    }

    /** `HorizontalLine(width, color)`: a mask of shape (1, width)
        (grid.py:98-100). */
    constructor HorizontalLine(length: nat, color: int)
      ensures width == 1 && height == length && this.color == color
      ensures shape == RectangleMask && Valid() && fresh(pixels) && Transparent()
    {
      width, height := 1, length;
      this.shape, this.color := RectangleMask, color;
      pixels := new int[1, length]((_, _) => 0 - 1);
    }

    /** `LeftArrow(width, arrowheadDim, color)` (grid.py:103-106). */
    constructor LeftArrow(length: nat, arrowheadDim: nat, color: int)
      ensures width == length && height == 2 * arrowheadDim + 1 && this.color == color
      ensures shape == LeftArrowMask(arrowheadDim) && fresh(pixels) && Transparent()
      ensures Valid() <==> arrowheadDim == 0 || length >= arrowheadDim + 2
    {
      width, height := length, 2 * arrowheadDim + 1;
      this.shape, this.color := LeftArrowMask(arrowheadDim), color;
      pixels := new int[length, 2 * arrowheadDim + 1]((_, _) => 0 - 1);
    }

    /** `DownArrow(height, arrowheadDim, color)` (grid.py:118-121). */
    constructor DownArrow(length: nat, arrowheadDim: nat, color: int)
      ensures width == 2 * arrowheadDim + 1 && height == length && this.color == color
      ensures shape == DownArrowMask(arrowheadDim) && fresh(pixels) && Transparent()
      ensures Valid() <==> arrowheadDim == 0 || length >= arrowheadDim + 2
    {
      width, height := 2 * arrowheadDim + 1, length;
      this.shape, this.color := DownArrowMask(arrowheadDim), color;
      pixels := new int[2 * arrowheadDim + 1, length]((_, _) => 0 - 1);
    }

    /** `DownLeftArrow(dim, arrowheadDim, color)` (grid.py:132-135). */
    constructor DownLeftArrow(dim: nat, arrowheadDim: nat, color: int)
      ensures width == dim && height == dim && this.color == color
      ensures shape == DownLeftArrowMask(arrowheadDim) && fresh(pixels) && Transparent()
      ensures Valid() <==> arrowheadDim == 0 || arrowheadDim < dim
    {
      width, height := dim, dim;
      this.shape, this.color := DownLeftArrowMask(arrowheadDim), color;
      pixels := new int[dim, dim]((_, _) => 0 - 1);
    }

    /** The per-shape mask generator: the covered entries become 1, the
        others keep their value (grid.py:83-85, 108-142). */
    method GenPixelsMono()
      requires Valid()
      modifies pixels
      ensures forall i, j :: 0 <= i < width && 0 <= j < height ==>
        pixels[i, j] == if Covers(shape, i, j) then 1 else old(pixels[i, j])
    {
      match shape
      case RectangleMask => GenRectangle();
      case LeftArrowMask(a) => GenLeftArrow(a);
      case DownArrowMask(a) => GenDownArrow(a);
      case DownLeftArrowMask(a) => GenDownLeftArrow(a);
    }

    /** `Rectangle.genPixelsMono` (grid.py:83-85): `pixels *= 0; pixels += 1`. */
    method GenRectangle()
      requires Valid() && shape == RectangleMask
      modifies pixels
      ensures forall i, j :: 0 <= i < width && 0 <= j < height ==> pixels[i, j] == 1
    {
      forall i, j | 0 <= i < width && 0 <= j < height {
        pixels[i, j] := pixels[i, j] * 0;
      }
      forall i, j | 0 <= i < width && 0 <= j < height {
        pixels[i, j] := pixels[i, j] + 1;
      }
    }

    /** `LeftArrow.genPixelsMono` (grid.py:108-115): the shaft along the
        middle column, then the two sides of the head, two entries per step. */
    method GenLeftArrow(a: nat)
      requires Valid() && shape == LeftArrowMask(a)
      modifies pixels
      ensures forall i, j :: 0 <= i < width && 0 <= j < height ==>
        pixels[i, j] == if j == a || LeftHead(a, a + 1, i, j) then 1 else old(pixels[i, j])
    {
      for col := 0 to width
        invariant forall i, j :: 0 <= i < width && 0 <= j < height ==>
          pixels[i, j] == if j == a && i < col then 1 else old(pixels[i, j])
      {
        pixels[col, a] := 1;
      }
      for i := 1 to a + 1
        invariant forall p, q :: 0 <= p < width && 0 <= q < height ==>
          pixels[p, q] == if q == a || LeftHead(a, i, p, q) then 1 else old(pixels[p, q])
      {
        pixels[i, a + i] := 1;
        pixels[i + 1, a + i] := 1;
        pixels[i, a - i] := 1;
        pixels[i + 1, a - i] := 1;
      }
    }

    /** `DownArrow.genPixelsMono` (grid.py:123-130): the left arrow's
        generator with the two indices swapped. */
    method GenDownArrow(a: nat)
      requires Valid() && shape == DownArrowMask(a)
      modifies pixels
      ensures forall i, j :: 0 <= i < width && 0 <= j < height ==>
        pixels[i, j] == if i == a || LeftHead(a, a + 1, j, i) then 1 else old(pixels[i, j])
    {
      for row := 0 to height
        invariant forall i, j :: 0 <= i < width && 0 <= j < height ==>
          pixels[i, j] == if i == a && j < row then 1 else old(pixels[i, j])
      {
        pixels[a, row] := 1;
      }
      for i := 1 to a + 1
        invariant forall p, q :: 0 <= p < width && 0 <= q < height ==>
          pixels[p, q] == if p == a || LeftHead(a, i, q, p) then 1 else old(pixels[p, q])
      {
        pixels[a + i, i] := 1;
        pixels[a + i, i + 1] := 1;
        pixels[a - i, i] := 1;
        pixels[a - i, i + 1] := 1;
      }
    }

    /** `DownLeftArrow.genPixelsMono` (grid.py:137-142): the main diagonal,
        then the first row and column up to the arrowhead size. */
    method GenDownLeftArrow(a: nat)
      requires Valid() && shape == DownLeftArrowMask(a)
      modifies pixels
      ensures forall i, j :: 0 <= i < width && 0 <= j < height ==>
        pixels[i, j] ==
          if i == j || (j == 0 && 1 <= i <= a) || (i == 0 && 1 <= j <= a) then 1 else old(pixels[i, j])
    {
      for ix := 0 to height
        invariant forall i, j :: 0 <= i < width && 0 <= j < height ==>
          pixels[i, j] == if i == j && i < ix then 1 else old(pixels[i, j])
      {
        pixels[ix, ix] := 1;
      }
      for ix := 1 to a + 1
        invariant forall p, q :: 0 <= p < width && 0 <= q < height ==>
          pixels[p, q] ==
            if p == q || (q == 0 && 1 <= p < ix) || (p == 0 && 1 <= q < ix) then 1
            else old(pixels[p, q])
      {
        pixels[ix, 0] := 1;
        pixels[0, ix] := 1;
      }
    }

    /** `MonochromaticWidget.genPixels` (grid.py:71-76): generate the mask,
        then map 1 to the colour and -1 to -1 by in-place arithmetic.  A
        rectangle can be regenerated from any mask; an arrow's generator does
        not clear the mask, so its entries must still be -1 or 1. */
    method GenPixels()
      requires Valid() && (shape == RectangleMask || Unit())
      modifies pixels
      ensures forall i, j :: 0 <= i < width && 0 <= j < height ==>
        pixels[i, j] == if Covers(shape, i, j) || old(pixels[i, j]) == 1 then color else -1
    {
      GenPixelsMono();
      forall i, j | 0 <= i < width && 0 <= j < height {
        pixels[i, j] := pixels[i, j] + 1;
      }
      forall i, j | 0 <= i < width && 0 <= j < height {
        pixels[i, j] := pixels[i, j] / 2;
      }
      forall i, j | 0 <= i < width && 0 <= j < height {
        pixels[i, j] := pixels[i, j] * (color + 1);
      }
      forall i, j | 0 <= i < width && 0 <= j < height {
        pixels[i, j] := pixels[i, j] - 1;
      }
    }

    /** `Widget.draw` (grid.py:59-63): mask entry [i, j] that is not negative
        is written to canvas pixel [j + offsetX, i + offsetY]; no other
        canvas pixel changes.  The whole mask must land inside the canvas. */
    method Draw(canvas: Raster.Canvas, offsetX: int, offsetY: int)
      requires Valid() && (shape == RectangleMask || Unit())
      requires canvas.pixels != pixels
      requires 0 <= offsetX && offsetX + height <= canvas.pixels.Length0
      requires 0 <= offsetY && offsetY + width <= canvas.pixels.Length1
      modifies pixels, canvas.pixels
      ensures forall i, j :: 0 <= i < width && 0 <= j < height ==>
        pixels[i, j] == if Covers(shape, i, j) || old(pixels[i, j]) == 1 then color else -1
      ensures forall x, y :: 0 <= x < canvas.pixels.Length0 && 0 <= y < canvas.pixels.Length1 ==>
        canvas.pixels[x, y] ==
          if offsetX <= x < offsetX + height && offsetY <= y < offsetY + width
             && pixels[y - offsetY, x - offsetX] >= 0
          then pixels[y - offsetY, x - offsetX]
          else old(canvas.pixels[x, y])
    {
      GenPixels();
      var target := canvas.pixels;
      for row := 0 to width
        modifies target
        invariant forall x, y :: 0 <= x < target.Length0 && 0 <= y < target.Length1 ==>
          target[x, y] ==
            if offsetX <= x < offsetX + height && offsetY <= y < offsetY + row
               && pixels[y - offsetY, x - offsetX] >= 0
            then pixels[y - offsetY, x - offsetX]
            else old(target[x, y])
      {
        for col := 0 to height
          modifies target
          invariant forall x, y :: 0 <= x < target.Length0 && 0 <= y < target.Length1 ==>
            target[x, y] ==
              if ((offsetX <= x < offsetX + height && offsetY <= y < offsetY + row) ||
                  (offsetX <= x < offsetX + col && y == offsetY + row))
                 && pixels[y - offsetY, x - offsetX] >= 0
              then pixels[y - offsetY, x - offsetX]
              else old(target[x, y])
        {
          var c := pixels[row, col];
          if c >= 0 {
            target[col + offsetX, row + offsetY] := c;
          }
        }
      }
    }
  }
}
