/** The `Grid` of grid.py:145-270: the table of cell states, the round
    that classifies cells, the overlay-arrow records each round leaves for
    its frames, and the drawing of grid lines and cells onto the canvas.

    `Grid` extends `Canvas` in the source; here it holds its canvas as the
    constant `canvas`, whose `pixels` and frame counter play the inherited
    fields. */
module GridEngine {
  import opened Wythoff
  import opened Colors
  import Matrix
  import Raster
  import Shapes
  import opened Arith

  datatype Option<T> = None | Some(value: T)

  function Max(a: int, b: int): int { if a >= b then a else b }

  // ---------------------------------------------------------------------------
  // Overlay-arrow records

  /** The dictionaries `step` appends to `leftArrows`, `downArrows` and
      `downLeftArrows`. */
  datatype Arrow =
    | Left(xLeft: int, xRight: int, y: int, color: int)
    | Down(x: int, yBottom: int, yTop: int, color: int)
    | DownLeft(xLeft: int, yBottom: int, yTop: int, color: int)

  /** Which of the six appends of `step` made an arrow. */
  datatype ArrowKind = RedLeft | RedDown | RedDownLeft | BlueLeft | BlueDown | BlueDownLeft

  /** The record appended for the cell `p` of `newBlack` on an n x n grid:
      the red ones for a candidate (row, col) (grid.py:240-243), the blue ones
      for the tuple rebound as (col, row) (grid.py:254, 261, 268). */
  function MakeArrow(kind: ArrowKind, n: int, p: Pos): Arrow {
    match kind
    case RedLeft => Left(0, p.1, p.0, RED)
    case RedDown => Down(p.1, 0, p.0, RED)
    case RedDownLeft => DownLeft(Max(0, p.1 - p.0), Max(0, p.0 - p.1), p.0, RED)
    case BlueLeft => Left(p.0, n - 1, p.1, BLUE)
    case BlueDown => Down(p.0, p.1, n - 1, BLUE)
    case BlueDownLeft => DownLeft(p.0, p.1, n - 1 - Max(0, p.0 - p.1), BLUE)
  }

  /** One record of the given kind per listed cell, in list order. */
  function Overlay(kind: ArrowKind, n: int, nb: seq<Pos>): (arrows: seq<Arrow>)
    ensures |arrows| == |nb|
  {
    seq(|nb|, i requires 0 <= i < |nb| => MakeArrow(kind, n, nb[i]))
  }

  lemma OverlayAppend(kind: ArrowKind, n: int, nb: seq<Pos>, p: Pos)
    ensures Overlay(kind, n, nb + [p]) == Overlay(kind, n, nb) + [MakeArrow(kind, n, p)]
  {
    assert Overlay(kind, n, nb + [p])[..|nb|] == Overlay(kind, n, nb);
  }

  lemma ConcatAssoc<T>(a: seq<T>, b: seq<T>, c: seq<T>)
    ensures (a + b) + c == a + (b + c)
  {
  }

  lemma AppendThree<T>(s: seq<T>, a: T, b: T, c: T)
    ensures s + [a] + [b] + [c] == s + [a, b, c]
  {
  }

  lemma OverlayConcat(kind: ArrowKind, n: int, nb: seq<Pos>, more: seq<Pos>)
    ensures Overlay(kind, n, nb + more) == Overlay(kind, n, nb) + Overlay(kind, n, more)
  {
  }

  /** An arrow record whose ends are cells of an n x n grid, with its ends in
      order, and whose diagonal stays inside the grid. */
  predicate ArrowInGrid(n: int, a: Arrow) {
    match a
    case Left(xLeft, xRight, y, _) => 0 <= xLeft <= xRight < n && 0 <= y < n
    case Down(x, yBottom, yTop, _) => 0 <= x < n && 0 <= yBottom <= yTop < n
    case DownLeft(xLeft, yBottom, yTop, _) =>
      0 <= xLeft && 0 <= yBottom <= yTop < n && xLeft + (yTop - yBottom) < n
  }

  /** What one frame shows: the cell states, the three arrow lists and the
      highlighted anti-diagonal at the time of `renderPPM`. */
  datatype View = View(board: Board, left: seq<Arrow>, down: seq<Arrow>, downLeft: seq<Arrow>,
                       highlight: Option<int>)

  /** The four frames of one `step` on board b (grid.py:225-270): the new
      BLACK cells with red arrows (none in the first round), then each
      propagation phase with its blue arrows. */
  function StepViews(b: Board, h: Option<int>): (views: seq<View>)
    requires IsSquare(b) && |b| >= 1
    ensures |views| == 4 && views[3].board == Round(b)
  {
    var n, nb := |b|, Frontier(b);
    var red := if AllGray(b) then [] else nb;
    [View(Phase1(b), Overlay(RedLeft, n, red), Overlay(RedDown, n, red), Overlay(RedDownLeft, n, red), h),
     View(Phase2(b), Overlay(BlueLeft, n, nb), [], [], h),
     View(Phase3(b), [], Overlay(BlueDown, n, nb), [], h),
     View(Round(b), [], [], Overlay(BlueDownLeft, n, nb), h)]
  }

  /** Four frames whose views are those of phases 1 to 4 of a round make up
      `StepViews`. */
  lemma StepViewsAre(b: Board, h: Option<int>, s0: seq<View>, s1: seq<View>, s4: seq<View>)
    requires IsSquare(b) && |b| >= 1
    requires var red := if AllGray(b) then [] else Frontier(b);
      s1 == s0 + [View(Phase1(b), Overlay(RedLeft, |b|, red), Overlay(RedDown, |b|, red),
                       Overlay(RedDownLeft, |b|, red), h)]
    requires var nb, b1 := Frontier(b), RowPhase(Phase1(b), Frontier(b));
      s4 == s1 + [View(b1, Overlay(BlueLeft, |b|, nb), [], [], h),
                  View(ColPhase(b1, nb), [], Overlay(BlueDown, |b|, nb), [], h),
                  View(Round(b), [], [], Overlay(BlueDownLeft, |b|, nb), h)]
    ensures s4 == s0 + StepViews(b, h)
  {
  }

  /** `step` on a finished board emits four identical frames: the
      unchanged board with no arrows. */
  lemma DoneStepViews(b: Board, h: Option<int>)
    requires IsSquare(b) && |b| >= 1 && Done(b)
    ensures forall i :: 0 <= i < 4 ==> StepViews(b, h)[i] == View(b, [], [], [], h)
  {
    DonePhases(b);
    DoneIsFixpoint(b);
  }

  /** Every arrow a round records lies inside the grid, the red diagonal
      ones ending at their candidate cell. */
  lemma ArrowsInGrid(b: Board, h: Option<int>)
    requires IsSquare(b) && |b| >= 1
    ensures forall v, a :: v in StepViews(b, h) && (a in v.left || a in v.down || a in v.downLeft) ==>
      ArrowInGrid(|b|, a)
    ensures !AllGray(b) ==> forall p :: p in Frontier(b) ==>
      var a := MakeArrow(RedDownLeft, |b|, p); a.yTop == p.0 && a.xLeft + (a.yTop - a.yBottom) == p.1
  {
    var n, nb := |b|, Frontier(b);
    forall p | p in nb ensures InBounds(n, p.0, p.1) {
      FrontierMembers(b, p.0, p.1);
    }
    var red := if AllGray(b) then [] else nb;
    OverlayInGrid(RedLeft, n, red);
    OverlayInGrid(RedDown, n, red);
    OverlayInGrid(RedDownLeft, n, red);
    OverlayInGrid(BlueLeft, n, nb);
    OverlayInGrid(BlueDown, n, nb);
    OverlayInGrid(BlueDownLeft, n, nb);
  }

  lemma OverlayInGrid(kind: ArrowKind, n: int, nb: seq<Pos>)
    requires forall p :: p in nb ==> InBounds(n, p.0, p.1)
    ensures forall a :: a in Overlay(kind, n, nb) ==> ArrowInGrid(n, a)
  {
    forall a | a in Overlay(kind, n, nb) ensures ArrowInGrid(n, a) {
      var i :| 0 <= i < |nb| && Overlay(kind, n, nb)[i] == a;
      assert nb[i] in nb;
    }
  }

  // ---------------------------------------------------------------------------
  // Cell colours

  /** The colour a cell state is stored as (grid.py:155, 166, 246, 253). */
  function CellColor(s: CellState): int {
    match s
    case Gray => GRAY
    case Black => BLACK
    case White => WHITE
  }

  /** `colorAdj` of grid.py:194-204: the cell colour, blended towards GRAY
      when an anti-diagonal is highlighted and the cell is not on it. */
  function DrawColor(color: int, row: int, col: int, h: Option<int>): (c: int)
    ensures IsColor(color) ==> IsColor(c)
    ensures h == None || h == Some(row + col) ==> c == color
    ensures h.Some? && row + col != h.value ==> c == BlendColor(color)
  {
    if h.Some? && row + col != h.value then BlendColor(color) else color
  }

  /** Every colour a cell can be drawn in. */
  const PALETTE: set<int> := {GRAY, BLACK, WHITE, BlendColor(BLACK), BlendColor(WHITE)}

  lemma DrawColorInPalette(s: CellState, row: int, col: int, h: Option<int>)
    ensures DrawColor(CellColor(s), row, col, h) in PALETTE
  {
    CellColorBlends();
  }

  lemma PaletteSize()
    ensures |PALETTE| == 5
  {
    CellColorBlends();
  }

  class Grid {
    const gridSize: nat
    const tickSize: nat
    const arrowheadDim: nat
    const pixelsThickness: nat
    const cellSizeInner: nat
    const cellStep: nat
    const canvasSize: nat
    /** The canvas `Grid` inherits in the source. */
    const canvas: Raster.Canvas
    const cells: array2<CellState>
    /** Squares already built, keyed by the colour they draw (the source's
        key is the string 'cell%d' of that colour). */
    var shapeCache: map<int, Shapes.Widget>
    var leftArrows: seq<Arrow>
    var downArrows: seq<Arrow>
    var downLeftArrows: seq<Arrow>
    var highlightAntidiagonal: Option<int>
    /** What each frame rendered so far shows, in order. */
    ghost var shown: seq<View>

    /** The geometry of grid.py:151-153 and the shapes of both arrays. */
    ghost predicate Geometry() {
      cellSizeInner == 2 * arrowheadDim + 3 &&
      cellStep == cellSizeInner + pixelsThickness &&
      canvasSize == tickSize + cellStep * gridSize + pixelsThickness &&
      tickSize >= 1 &&
      canvas.pixels.Length0 == canvasSize && canvas.pixels.Length1 == canvasSize &&
      cells.Length0 == gridSize && cells.Length1 == gridSize
    }

    /** The geometry holds, and every cached square is a cell-sized rectangle
        mask of its key colour, one of the five palette colours. */
    ghost predicate Valid()
      reads this`shapeCache
    {
      Geometry() &&
      forall k :: k in shapeCache ==> CachedSquare(k, shapeCache[k])
    }

    ghost predicate CachedSquare(k: int, w: Shapes.Widget) {
      k in PALETTE &&
      w.shape == Shapes.RectangleMask && w.color == k &&
      w.width == cellSizeInner && w.height == cellSizeInner && w.Valid() &&
      w.pixels != canvas.pixels
    }

    ghost function CacheMasks(): set<array2<int>>
      reads this`shapeCache
    {
      set k | k in shapeCache :: shapeCache[k].pixels
    }

    /** The cell states as a value. */
    ghost function Board(): Board
      reads cells
    {
      Matrix.Snapshot(cells)
    }

    /** First pixel of the grid line `i` along either axis (grid.py:186-187). */
    function LineOffset(i: int): int {
      tickSize - 1 + i * cellStep
    }

    ghost predicate LineBefore(z: int, k: int) {
      exists i :: 0 <= i < k && LineOffset(i) == z
    }

    /** Pixel index z lies on one of the N + 1 grid lines. */
    ghost predicate OnLine(z: int) {
      LineBefore(z, gridSize + 1)
    }

    /** First pixel of cell r along either axis (grid.py:209). */
    function Corner(r: int): int {
      tickSize + cellStep * r
    }

    predicate InSquare(z: int, r: int) {
      Corner(r) <= z < Corner(r) + cellSizeInner
    }

    /** Pixel index z lies inside the square of some cell. */
    predicate InCells(z: int) {
      tickSize <= z && cellStep > 0 &&
      (z - tickSize) % cellStep < cellSizeInner && (z - tickSize) / cellStep < gridSize
    }

    function CellOf(z: int): int
      requires cellStep > 0
    {
      (z - tickSize) / cellStep
    }

    /** The colour cell (r, c) is drawn in. */
    function CellPaint(r: int, c: int): int
      requires 0 <= r < cells.Length0 && 0 <= c < cells.Length1
      reads this`highlightAntidiagonal, cells
    {
      DrawColor(CellColor(cells[r, c]), r, c, highlightAntidiagonal)
    }

    lemma CellOfBounds(z: int)
      requires Geometry() && InCells(z)
      ensures 0 <= CellOf(z) < gridSize
    {
      DivNonneg(z - tickSize, cellStep);
    }

    /** The pixel (x, y) once the cells before (row, col) in row-major order
        are drawn, given its value `under` before: the colour of the cell
        whose square holds it, if that cell is drawn, else unchanged. */
    ghost function CellsPainted(x: int, y: int, row: int, col: int, under: int): int
      requires Geometry()
      reads this`highlightAntidiagonal, cells
    {
      if InCells(x) && InCells(y) && (CellOf(x) < row || (CellOf(x) == row && CellOf(y) < col))
      then CellOfBounds(x); CellOfBounds(y); CellPaint(CellOf(x), CellOf(y))
      else under
    }

    /** The pixel (x, y) after `draw`, given its value `under` before: the
        cell colour inside a cell square, BLACK on a grid line, unchanged
        elsewhere. */
    ghost function Painted(x: int, y: int, under: int): int
      requires Geometry()
      reads this`highlightAntidiagonal, cells
    {
      CellsPainted(x, y, gridSize, 0, if OnLine(x) || OnLine(y) then BLACK else under)
    }

    /** `Painted` for a board given as a value and a highlight: what `draw`
        leaves at pixel (x, y) when the cells hold b. */
    ghost function PaintedOn(b: Board, h: Option<int>, x: int, y: int, under: int): int
      requires Geometry() && |b| == gridSize && IsSquare(b)
    {
      if InCells(x) && InCells(y) then
        CellOfBounds(x); CellOfBounds(y);
        DrawColor(CellColor(b[CellOf(x)][CellOf(y)]), CellOf(x), CellOf(y), h)
      else if OnLine(x) || OnLine(y) then BLACK
      else under
    }

    lemma PaintedIsPaintedOn(x: int, y: int, under: int)
      requires Geometry()
      ensures Painted(x, y, under) == PaintedOn(Board(), highlightAntidiagonal, x, y, under)
    {
      if InCells(x) && InCells(y) {
        CellOfBounds(x);
        CellOfBounds(y);
      }
    }

    /** Drawing a second time hides the first drawing entirely: every pixel
        the first `draw` sets, the second sets again. */
    lemma Repaint(b1: Board, h1: Option<int>, b2: Board, h2: Option<int>, x: int, y: int, under: int)
      requires Geometry() && |b1| == gridSize && IsSquare(b1) && |b2| == gridSize && IsSquare(b2)
      ensures PaintedOn(b2, h2, x, y, PaintedOn(b1, h1, x, y, under)) == PaintedOn(b2, h2, x, y, under)
    {
    }

    /** The square of cell r lies inside the canvas. */
    lemma CornerFits(r: int)
      requires Geometry() && 0 <= r < gridSize
      ensures 0 <= Corner(r) && Corner(r) + cellSizeInner <= canvasSize
    {
      MulMono(r + 1, gridSize, cellStep);
      assert cellStep * r + cellStep == (r + 1) * cellStep;
    }

    lemma SquareIsCell(r: int)
      requires Geometry() && 0 <= r < gridSize
      ensures forall z :: InSquare(z, r) <==> InCells(z) && CellOf(z) == r
    {
      forall z ensures InSquare(z, r) <==> InCells(z) && CellOf(z) == r {
        if InSquare(z, r) {
          DivModOf(z - tickSize, cellStep, r, z - Corner(r));
        }
      }
    }

    lemma LineStep(k: int)
      requires k >= 0
      ensures forall z :: LineBefore(z, k + 1) <==> LineBefore(z, k) || z == LineOffset(k)
    {
      forall z | LineBefore(z, k + 1) ensures LineBefore(z, k) || z == LineOffset(k) {
        var i :| 0 <= i < k + 1 && LineOffset(i) == z;
        if i < k {
          assert LineBefore(z, k);
        }
      }
    }

    // -------------------------------------------------------------------------
    // Construction

    /** `Grid.__init__` (grid.py:146-162): the geometry, an all-GRAY table,
        no arrows, no highlight, and a white canvas with the grid drawn. */
    constructor (gridSize: nat, tickSize: nat, arrowheadDim: nat, gridThickness: nat)
      requires tickSize >= 1
      ensures Valid() && fresh(canvas) && fresh(canvas.pixels) && fresh(cells)
      ensures this.gridSize == gridSize && this.tickSize == tickSize
      ensures this.arrowheadDim == arrowheadDim && pixelsThickness == gridThickness
      ensures canvasSize == tickSize + (2 * arrowheadDim + 3 + gridThickness) * gridSize + gridThickness
      ensures Board() == AllGrayBoard(gridSize)
      ensures leftArrows == [] && downArrows == [] && downLeftArrows == []
      ensures highlightAntidiagonal == None && shown == [] && canvas.frameNum == 0
      ensures forall x, y :: 0 <= x < canvasSize && 0 <= y < canvasSize ==>
        canvas.pixels[x, y] == Painted(x, y, WHITE)
    {
      this.gridSize := gridSize;
      this.tickSize := tickSize;
      this.arrowheadDim := arrowheadDim;
      pixelsThickness := gridThickness;
      cellSizeInner := arrowheadDim * 2 + 3;
      cellStep := arrowheadDim * 2 + 3 + gridThickness;
      canvasSize := tickSize + (arrowheadDim * 2 + 3 + gridThickness) * gridSize + gridThickness;
      shapeCache := map[];
      cells := new CellState[gridSize, gridSize]((_, _) => Black);
      leftArrows, downArrows, downLeftArrows := [], [], [];
      highlightAntidiagonal := None;
      shown := [];
      var size := tickSize + (arrowheadDim * 2 + 3 + gridThickness) * gridSize + gridThickness;
      canvas := new Raster.Canvas(size, size, WHITE);
      new;
      InitCells();
      Draw();
    }

    /** `initCells` (grid.py:164-166): every cell GRAY. */
    method InitCells()
      requires Geometry()
      modifies cells
      ensures Board() == AllGrayBoard(gridSize)
    {
      forall i, j | 0 <= i < gridSize && 0 <= j < gridSize {
        cells[i, j] := Gray;
      }
      Matrix.RowsEqual(Board(), AllGrayBoard(gridSize));
    }

    /** `isDone` (grid.py:222-223).  The source takes the minimum of an empty
        array, and fails, on a 0 x 0 grid. */
    function IsDone(): (done: bool)
      requires Geometry() && gridSize >= 1
      reads cells
      ensures done <==> Done(Board())
    {
      forall x, y :: 0 <= x < gridSize && 0 <= y < gridSize ==> cells[x, y] != Gray
    }

    /** `resetArrows` (grid.py:177-180). */
    method ResetArrows()
      modifies this`leftArrows, this`downArrows, this`downLeftArrows
      ensures leftArrows == [] && downArrows == [] && downLeftArrows == []
    {
      leftArrows, downArrows, downLeftArrows := [], [], [];
    }

    // -------------------------------------------------------------------------
    // Drawing

    /** `drawGridLines` (grid.py:182-187): the pixels of every grid line turn
        BLACK and nothing else changes. */
    method DrawGridLines()
      requires Valid()
      modifies canvas.pixels
      ensures forall x, y :: 0 <= x < canvasSize && 0 <= y < canvasSize ==>
        canvas.pixels[x, y] == if OnLine(x) || OnLine(y) then BLACK else old(canvas.pixels[x, y])
    {
      var vert := new Shapes.Widget.VerticalLine(canvasSize, BLACK);
      var horiz := new Shapes.Widget.HorizontalLine(canvasSize, BLACK);
      for i := 0 to gridSize + 1
        invariant forall x, y :: 0 <= x < canvasSize && 0 <= y < canvasSize ==>
          canvas.pixels[x, y] ==
            if LineBefore(x, i) || LineBefore(y, i) then BLACK else old(canvas.pixels[x, y])
      {
        MulMono(i, gridSize, cellStep);
        LineStep(i);
        vert.Draw(canvas, LineOffset(i), 0);
        horiz.Draw(canvas, 0, LineOffset(i));
      }
    }

    /** `__drawCell` (grid.py:193-209): the square of cell (row, col) takes
        the adjusted colour, which is built into a square at most once and
        served from the cache afterwards; nothing else changes. */
    method DrawCell(row: int, col: int, color: int)
      requires Valid() && 0 <= row < gridSize && 0 <= col < gridSize
      requires color == GRAY || color == BLACK || color == WHITE
      modifies this`shapeCache, canvas.pixels, CacheMasks()
      ensures Valid()
      ensures var c := DrawColor(color, row, col, highlightAntidiagonal);
        shapeCache.Keys == old(shapeCache.Keys) + {c} &&
        (c in old(shapeCache) ==> shapeCache == old(shapeCache))
      ensures forall k :: k in old(shapeCache) ==> shapeCache[k] == old(shapeCache[k])
      ensures forall k :: k in shapeCache && k !in old(shapeCache) ==> fresh(shapeCache[k].pixels)
      ensures forall x, y :: 0 <= x < canvasSize && 0 <= y < canvasSize ==>
        canvas.pixels[x, y] ==
          if InSquare(x, row) && InSquare(y, col) then DrawColor(color, row, col, highlightAntidiagonal)
          else old(canvas.pixels[x, y])
    {
      var colorAdj := DrawColor(color, row, col, highlightAntidiagonal);
      assert colorAdj in PALETTE by {
        var s := if color == GRAY then Gray else if color == BLACK then Black else White;
        DrawColorInPalette(s, row, col, highlightAntidiagonal);
      }
      var square := CachedSquareFor(colorAdj);
      CornerFits(row);
      CornerFits(col);
      square.Draw(canvas, Corner(row), Corner(col));
      forall x, y | 0 <= x < canvasSize && 0 <= y < canvasSize
        ensures canvas.pixels[x, y] ==
          if InSquare(x, row) && InSquare(y, col) then colorAdj else old(canvas.pixels[x, y])
      {
        if InSquare(x, row) && InSquare(y, col) {
          assert square.pixels[y - Corner(col), x - Corner(row)] == colorAdj;
        }
      }
    }

    /** The lookup of grid.py:206-208: the cached square of a colour, built
        and stored on the first request for that colour. */
    method CachedSquareFor(colorAdj: int) returns (square: Shapes.Widget)
      requires Valid() && colorAdj in PALETTE
      modifies this`shapeCache
      ensures Valid() && colorAdj in shapeCache && square == shapeCache[colorAdj]
      ensures CachedSquare(colorAdj, square)
      ensures shapeCache.Keys == old(shapeCache.Keys) + {colorAdj}
      ensures colorAdj in old(shapeCache) ==> shapeCache == old(shapeCache) && square.pixels in old(CacheMasks())
      ensures forall k :: k in old(shapeCache) ==> shapeCache[k] == old(shapeCache[k])
      ensures colorAdj !in old(shapeCache) ==> fresh(square.pixels)
    {
      if colorAdj !in shapeCache {
        square := new Shapes.Widget.Square(cellSizeInner, colorAdj);
        shapeCache := shapeCache[colorAdj := square];
      } else {
        square := shapeCache[colorAdj];
      }
    }

    /** `drawCells` (grid.py:189-191): every cell square takes its cell's
        colour, and pixels outside the squares keep theirs. */
    method DrawCells()
      requires Valid()
      modifies this`shapeCache, canvas.pixels, CacheMasks()
      ensures Valid()
      ensures forall k :: k in old(shapeCache) ==> k in shapeCache && shapeCache[k] == old(shapeCache[k])
      ensures forall k :: k in shapeCache && k !in old(shapeCache) ==> fresh(shapeCache[k].pixels)
      ensures forall x, y :: 0 <= x < canvasSize && 0 <= y < canvasSize ==>
        canvas.pixels[x, y] == CellsPainted(x, y, gridSize, 0, old(canvas.pixels[x, y]))
    {
      ghost var base := Matrix.Snapshot(canvas.pixels);
      forall x, y | 0 <= x < canvasSize && 0 <= y < canvasSize
        ensures canvas.pixels[x, y] == CellsPainted(x, y, 0, 0, base[x][y])
      {
        NothingPainted(x, y, base[x][y]);
      }
      for row := 0 to gridSize
        invariant Valid()
        invariant forall k :: k in old(shapeCache) ==> k in shapeCache && shapeCache[k] == old(shapeCache[k])
        invariant forall k :: k in shapeCache && k !in old(shapeCache) ==> fresh(shapeCache[k].pixels)
        invariant forall x, y :: 0 <= x < canvasSize && 0 <= y < canvasSize ==>
          canvas.pixels[x, y] == CellsPainted(x, y, row, 0, base[x][y])
      {
        DrawRow(row, base);
      }
    }

    /** The inner loop of grid.py:190-191 for one row of cells. */
    method DrawRow(row: int, ghost base: seq<seq<int>>)
      requires Valid() && 0 <= row < gridSize
      requires |base| == canvasSize && forall x :: 0 <= x < canvasSize ==> |base[x]| == canvasSize
      requires forall x, y :: 0 <= x < canvasSize && 0 <= y < canvasSize ==>
        canvas.pixels[x, y] == CellsPainted(x, y, row, 0, base[x][y])
      modifies this`shapeCache, canvas.pixels, CacheMasks()
      ensures Valid()
      ensures forall k :: k in old(shapeCache) ==> k in shapeCache && shapeCache[k] == old(shapeCache[k])
      ensures forall k :: k in shapeCache && k !in old(shapeCache) ==> fresh(shapeCache[k].pixels)
      ensures forall x, y :: 0 <= x < canvasSize && 0 <= y < canvasSize ==>
        canvas.pixels[x, y] == CellsPainted(x, y, row + 1, 0, base[x][y])
    {
      for col := 0 to gridSize
        invariant Valid()
        invariant forall k :: k in old(shapeCache) ==> k in shapeCache && shapeCache[k] == old(shapeCache[k])
        invariant forall k :: k in shapeCache && k !in old(shapeCache) ==> fresh(shapeCache[k].pixels)
        invariant forall x, y :: 0 <= x < canvasSize && 0 <= y < canvasSize ==>
          canvas.pixels[x, y] == CellsPainted(x, y, row, col, base[x][y])
      {
        DrawCell(row, col, CellColor(cells[row, col]));
        forall x, y | 0 <= x < canvasSize && 0 <= y < canvasSize
          ensures canvas.pixels[x, y] == CellsPainted(x, y, row, col + 1, base[x][y])
        {
          PaintNext(x, y, row, col, base[x][y]);
        }
      }
      forall x, y | 0 <= x < canvasSize && 0 <= y < canvasSize
        ensures CellsPainted(x, y, row, gridSize, base[x][y]) == CellsPainted(x, y, row + 1, 0, base[x][y])
      {
        if InCells(y) {
          CellOfBounds(y);
        }
      }
    }

    /** The first pixel of a cell's square shows that cell. */
    lemma CornerPainted(r: int, c: int, under: int)
      requires Geometry() && 0 <= r < gridSize && 0 <= c < gridSize
      ensures Painted(Corner(r), Corner(c), under) == CellPaint(r, c)
    {
      SquareIsCell(r);
      SquareIsCell(c);
      assert InSquare(Corner(r), r) && InSquare(Corner(c), c);
    }

    lemma NothingPainted(x: int, y: int, under: int)
      requires Geometry()
      ensures CellsPainted(x, y, 0, 0, under) == under
    {
      if InCells(x) {
        CellOfBounds(x);
      }
      if InCells(y) {
        CellOfBounds(y);
      }
    }

    lemma PaintNext(x: int, y: int, row: int, col: int, under: int)
      requires Geometry() && 0 <= row < gridSize && 0 <= col < gridSize
      ensures CellsPainted(x, y, row, col + 1, under) ==
        if InSquare(x, row) && InSquare(y, col) then CellPaint(row, col)
        else CellsPainted(x, y, row, col, under)
    {
      SquareIsCell(row);
      SquareIsCell(col);
    }

    /** `draw` (grid.py:168-171) without the arrows: grid lines, then the
        cells over them. */
    method Draw()
      requires Valid()
      modifies this`shapeCache, canvas.pixels, CacheMasks()
      ensures Valid()
      ensures forall k :: k in old(shapeCache) ==> k in shapeCache && shapeCache[k] == old(shapeCache[k])
      ensures forall k :: k in shapeCache && k !in old(shapeCache) ==> fresh(shapeCache[k].pixels)
      ensures forall x, y :: 0 <= x < canvasSize && 0 <= y < canvasSize ==>
        canvas.pixels[x, y] == Painted(x, y, old(canvas.pixels[x, y]))
    {
      DrawGridLines();
      DrawCells();
    }

    /** `Grid.renderPPM` (grid.py:173-175): draw, then emit one frame.  The
        frame holds every pixel of the canvas, and the first pixel of each
        cell's square carries that cell's colour. */
    method RenderPPM() returns (frame: Raster.Frame)
      requires Valid()
      modifies this`shapeCache, this`shown, canvas.pixels, canvas`frameNum, CacheMasks()
      ensures Valid()
      ensures forall k :: k in old(shapeCache) ==> k in shapeCache && shapeCache[k] == old(shapeCache[k])
      ensures forall k :: k in shapeCache && k !in old(shapeCache) ==> fresh(shapeCache[k].pixels)
      ensures forall x, y :: 0 <= x < canvasSize && 0 <= y < canvasSize ==>
        canvas.pixels[x, y] == Painted(x, y, old(canvas.pixels[x, y]))
      ensures canvas.frameNum == old(canvas.frameNum) + 1
      ensures frame == Raster.PpmFrame(canvasSize, canvasSize, Matrix.Snapshot(canvas.pixels))
      ensures forall r, c :: 0 <= r < gridSize && 0 <= c < gridSize ==>
        var i := Raster.TripletIndex(canvasSize, canvasSize, Corner(r), Corner(c));
        0 <= i < |frame.triplets| && frame.triplets[i] == Split(CellPaint(r, c))
      ensures shown == old(shown) + [View(Board(), leftArrows, downArrows, downLeftArrows, highlightAntidiagonal)]
    {
      Draw();
      frame := canvas.RenderPPM();
      shown := shown + [View(Board(), leftArrows, downArrows, downLeftArrows, highlightAntidiagonal)];
      forall r, c | 0 <= r < gridSize && 0 <= c < gridSize
        ensures 0 <= Corner(r) < canvasSize && 0 <= Corner(c) < canvasSize
        ensures canvas.pixels[Corner(r), Corner(c)] == CellPaint(r, c)
      {
        CornerFits(r);
        CornerFits(c);
        CornerPainted(r, c, old(canvas.pixels[Corner(r), Corner(c)]));
      }
      CornerTriplets(frame);
    }

    /** A frame of a canvas whose cell corners show their cells carries each
        cell's colour at the triplet of its corner. */
    lemma CornerTriplets(frame: Raster.Frame)
      requires Geometry()
      requires frame == Raster.PpmFrame(canvasSize, canvasSize, Matrix.Snapshot(canvas.pixels))
      requires forall r, c :: 0 <= r < gridSize && 0 <= c < gridSize ==>
        0 <= Corner(r) < canvasSize && 0 <= Corner(c) < canvasSize &&
        canvas.pixels[Corner(r), Corner(c)] == CellPaint(r, c)
      ensures forall r, c :: 0 <= r < gridSize && 0 <= c < gridSize ==>
        var i := Raster.TripletIndex(canvasSize, canvasSize, Corner(r), Corner(c));
        0 <= i < |frame.triplets| && frame.triplets[i] == Split(CellPaint(r, c))
    {
      var rows := Matrix.Snapshot(canvas.pixels);
      assert |rows| == canvasSize && Raster.Rectangular(rows, canvasSize);
      forall r, c | 0 <= r < gridSize && 0 <= c < gridSize
        ensures var i := Raster.TripletIndex(canvasSize, canvasSize, Corner(r), Corner(c));
          0 <= i < |frame.triplets| && frame.triplets[i] == Split(CellPaint(r, c))
      {
        var x, y := Corner(r), Corner(c);
        Raster.ScanLayout(rows, canvasSize, x, y);
        assert rows[x][y] == CellPaint(r, c);
      }
    }

    /** A frame emitted inside `step`: the canvas shows the current cells,
        the frame holds the canvas, and the log records what it shows. */
    method EmitFrame() returns (frame: Raster.Frame)
      requires Valid()
      modifies this`shapeCache, this`shown, canvas.pixels, canvas`frameNum, CacheMasks()
      ensures Valid()
      ensures forall k :: k in old(shapeCache) ==> k in shapeCache && shapeCache[k] == old(shapeCache[k])
      ensures forall k :: k in shapeCache && k !in old(shapeCache) ==> fresh(shapeCache[k].pixels)
      ensures forall x, y :: 0 <= x < canvasSize && 0 <= y < canvasSize ==>
        canvas.pixels[x, y] == PaintedOn(Board(), highlightAntidiagonal, x, y, old(canvas.pixels[x, y]))
      ensures canvas.frameNum == old(canvas.frameNum) + 1
      ensures frame == Raster.PpmFrame(canvasSize, canvasSize, Matrix.Snapshot(canvas.pixels))
      ensures shown == old(shown) + [View(Board(), leftArrows, downArrows, downLeftArrows, highlightAntidiagonal)]
    {
      frame := RenderPPM();
      forall x, y | 0 <= x < canvasSize && 0 <= y < canvasSize
        ensures canvas.pixels[x, y] == PaintedOn(Board(), highlightAntidiagonal, x, y, old(canvas.pixels[x, y]))
      {
        PaintedIsPaintedOn(x, y, old(canvas.pixels[x, y]));
      }
    }

    // -------------------------------------------------------------------------
    // One round

    /** The three slice tests of grid.py:236-238 read on the array, the
        diagonal `cells.diagonal(row - col)[0:min(row, col)]` written as the
        index pairs (i, j) with j - i == row - col below (col, row). */
    predicate SlicesWhite(row: int, col: int)
      requires 0 <= row < cells.Length0 && 0 <= col < cells.Length0 && cells.Length0 == cells.Length1
      reads cells
    {
      (forall i :: 0 <= i < col ==> cells[i, row] == White) &&
      (forall j :: 0 <= j < row ==> cells[col, j] == White) &&
      (forall i, j :: 0 <= i < col && 0 <= j < row && j - i == row - col ==> cells[i, j] == White)
    }

    lemma SlicesWhiteIsPrefixesWhite(row: int, col: int)
      requires Geometry() && 0 <= row < gridSize && 0 <= col < gridSize
      ensures SlicesWhite(row, col) <==> PrefixesWhite(Board(), row, col)
    {
      if SlicesWhite(row, col) {
        SlicesGivePrefixes(row, col);
      }
      if PrefixesWhite(Board(), row, col) {
        PrefixesGiveSlices(row, col);
      }
    }

    lemma SlicesGivePrefixes(row: int, col: int)
      requires Geometry() && 0 <= row < gridSize && 0 <= col < gridSize
      requires SlicesWhite(row, col)
      ensures PrefixesWhite(Board(), row, col)
    {
      var b := Board();
      var m := Min(row, col);
      var s := Diagonal(b, row - col)[..m];
      forall k | 0 <= k < |s| ensures s[k] == White {
        var d := m - k;
        DiagonalSliceAt(b, row, col, d);
        assert cells[col - d, row - d] == White;
      }
    }

    lemma PrefixesGiveSlices(row: int, col: int)
      requires Geometry() && 0 <= row < gridSize && 0 <= col < gridSize
      requires PrefixesWhite(Board(), row, col)
      ensures SlicesWhite(row, col)
    {
      var b := Board();
      var m := Min(row, col);
      var s := Diagonal(b, row - col)[..m];
      forall i, j | 0 <= i < col && 0 <= j < row && j - i == row - col ensures cells[i, j] == White {
        var d := col - i;
        DiagonalSliceAt(b, row, col, d);
        assert s[m - d] == White;
      }
    }

    /** The test of grid.py:234-238 on the array is `IsCandidate` on its
        value. */
    lemma CandidateTest(b: Board, row: int, col: int)
      requires Geometry() && b == Board() && 0 <= row < gridSize && 0 <= col < gridSize
      ensures (cells[row, col] == Gray && SlicesWhite(row, col)) == IsCandidate(b, row, col)
    {
      SlicesWhiteIsPrefixesWhite(row, col);
    }

    /** `np.all(self.cells == GRAY)` (grid.py:230). */
    predicate AllGrayCells()
      reads cells
    {
      forall x, y :: 0 <= x < cells.Length0 && 0 <= y < cells.Length1 ==> cells[x, y] == Gray
    }

    /** Phase 1 of `step` up to the marking (grid.py:229-243): the list
        `newBlack` and the red arrow records, without changing a cell. */
    method FindFrontier() returns (newBlack: seq<Pos>)
      requires Geometry() && gridSize >= 1
      modifies this`leftArrows, this`downArrows, this`downLeftArrows
      ensures newBlack == Frontier(Board())
      ensures var red := if AllGray(Board()) then [] else newBlack;
        leftArrows == old(leftArrows) + Overlay(RedLeft, gridSize, red) &&
        downArrows == old(downArrows) + Overlay(RedDown, gridSize, red) &&
        downLeftArrows == old(downLeftArrows) + Overlay(RedDownLeft, gridSize, red)
    {
      ghost var b := Board();
      if AllGrayCells() {
        newBlack := [(0, 0)];
        assert AllGray(b);
        return;
      }
      assert !AllGray(b);
      newBlack := [];
      for row := 0 to gridSize
        invariant newBlack == ScanRows(b, row)
        invariant leftArrows == old(leftArrows) + Overlay(RedLeft, gridSize, newBlack)
        invariant downArrows == old(downArrows) + Overlay(RedDown, gridSize, newBlack)
        invariant downLeftArrows == old(downLeftArrows) + Overlay(RedDownLeft, gridSize, newBlack)
      {
        ghost var before, l, d, dl := newBlack, leftArrows, downArrows, downLeftArrows;
        newBlack := VisitRow(row, newBlack, b);
        ghost var found := ScanRow(b, row, gridSize);
        OverlayConcat(RedLeft, gridSize, before, found);
        OverlayConcat(RedDown, gridSize, before, found);
        OverlayConcat(RedDownLeft, gridSize, before, found);
        ConcatAssoc(old(leftArrows), Overlay(RedLeft, gridSize, before), Overlay(RedLeft, gridSize, found));
        ConcatAssoc(old(downArrows), Overlay(RedDown, gridSize, before), Overlay(RedDown, gridSize, found));
        ConcatAssoc(old(downLeftArrows), Overlay(RedDownLeft, gridSize, before),
                    Overlay(RedDownLeft, gridSize, found));
      }
    }

    /** The inner loop of grid.py:233-243 over the cells of one row: its
        candidates, in column order, are appended to `newBlack`, each with its
        three red arrows. */
    method VisitRow(row: int, newBlack: seq<Pos>, ghost b: Board) returns (result: seq<Pos>)
      requires Geometry() && b == Board() && 0 <= row < gridSize
      modifies this`leftArrows, this`downArrows, this`downLeftArrows
      ensures var found := ScanRow(b, row, gridSize);
        result == newBlack + found &&
        leftArrows == old(leftArrows) + Overlay(RedLeft, gridSize, found) &&
        downArrows == old(downArrows) + Overlay(RedDown, gridSize, found) &&
        downLeftArrows == old(downLeftArrows) + Overlay(RedDownLeft, gridSize, found)
    {
      result := newBlack;
      for col := 0 to gridSize
        invariant result == newBlack + ScanRow(b, row, col)
        invariant leftArrows == old(leftArrows) + Overlay(RedLeft, gridSize, ScanRow(b, row, col))
        invariant downArrows == old(downArrows) + Overlay(RedDown, gridSize, ScanRow(b, row, col))
        invariant downLeftArrows == old(downLeftArrows) + Overlay(RedDownLeft, gridSize, ScanRow(b, row, col))
      {
        ghost var before := ScanRow(b, row, col);
        result := VisitCell(row, col, result, b);
        ghost var found := if IsCandidate(b, row, col) then [(row, col)] else [];
        assert ScanRow(b, row, col + 1) == before + found;
        ConcatAssoc(newBlack, before, found);
        OverlayConcat(RedLeft, gridSize, before, found);
        OverlayConcat(RedDown, gridSize, before, found);
        OverlayConcat(RedDownLeft, gridSize, before, found);
        ConcatAssoc(old(leftArrows), Overlay(RedLeft, gridSize, before), Overlay(RedLeft, gridSize, found));
        ConcatAssoc(old(downArrows), Overlay(RedDown, gridSize, before), Overlay(RedDown, gridSize, found));
        ConcatAssoc(old(downLeftArrows), Overlay(RedDownLeft, gridSize, before),
                    Overlay(RedDownLeft, gridSize, found));
      }
    }

    /** One pass of the loop body of grid.py:233-243 over the cell
        (row, col): a candidate is appended to `newBlack` with its three red
        arrows; any other cell changes nothing. */
    method VisitCell(row: int, col: int, newBlack: seq<Pos>, ghost b: Board) returns (result: seq<Pos>)
      requires Geometry() && b == Board() && 0 <= row < gridSize && 0 <= col < gridSize
      modifies this`leftArrows, this`downArrows, this`downLeftArrows
      ensures var found := if IsCandidate(b, row, col) then [(row, col)] else [];
        result == newBlack + found &&
        leftArrows == old(leftArrows) + Overlay(RedLeft, gridSize, found) &&
        downArrows == old(downArrows) + Overlay(RedDown, gridSize, found) &&
        downLeftArrows == old(downLeftArrows) + Overlay(RedDownLeft, gridSize, found)
    {
      result := newBlack;
      CandidateTest(b, row, col);
      if cells[row, col] != Gray {
        return;
      }
      if SlicesWhite(row, col) {
        result := result + [(row, col)];
        leftArrows := leftArrows + [MakeArrow(RedLeft, gridSize, (row, col))];
        downArrows := downArrows + [MakeArrow(RedDown, gridSize, (row, col))];
        downLeftArrows := downLeftArrows + [MakeArrow(RedDownLeft, gridSize, (row, col))];
      }
    }

    /** grid.py:245-246. */
    method MarkNewBlack(newBlack: seq<Pos>)
      requires Geometry() && forall k :: 0 <= k < |newBlack| ==> InBounds(gridSize, newBlack[k].0, newBlack[k].1)
      modifies cells
      ensures Board() == MarkBlack(old(Board()), newBlack)
    {
      ghost var b := Board();
      for k := 0 to |newBlack|
        invariant forall x, y :: 0 <= x < gridSize && 0 <= y < gridSize ==>
          cells[x, y] == if (x, y) in newBlack[..k] then Black else b[x][y]
      {
        assert newBlack[..k + 1] == newBlack[..k] + [newBlack[k]];
        cells[newBlack[k].0, newBlack[k].1] := Black;
      }
      assert newBlack[..|newBlack|] == newBlack;
      Matrix.RowsEqual(Board(), MarkBlack(b, newBlack));
    }

    /** grid.py:251-254: right of each new BLACK cell (a, c), the cells
        (a, j) with j > c turn WHITE; one blue left arrow per cell. */
    method PropagateRows(newBlack: seq<Pos>)
      requires Geometry() && forall k :: 0 <= k < |newBlack| ==> InBounds(gridSize, newBlack[k].0, newBlack[k].1)
      modifies cells, this`leftArrows
      ensures Board() == RowPhase(old(Board()), newBlack)
      ensures leftArrows == old(leftArrows) + Overlay(BlueLeft, gridSize, newBlack)
    {
      ghost var b := Board();
      for k := 0 to |newBlack|
        invariant forall x, y :: 0 <= x < gridSize && 0 <= y < gridSize ==>
          cells[x, y] == if RowHit(newBlack, k, x, y) then White else b[x][y]
        invariant leftArrows == old(leftArrows) + Overlay(BlueLeft, gridSize, newBlack[..k])
      {
        var col, row := newBlack[k].0, newBlack[k].1;
        for row2 := row + 1 to gridSize
          modifies cells
          invariant forall x, y :: 0 <= x < gridSize && 0 <= y < gridSize ==>
            cells[x, y] == if RowHit(newBlack, k, x, y) || (x == col && row < y < row2) then White else b[x][y]
        {
          cells[col, row2] := White;
        }
        assert newBlack[..k + 1] == newBlack[..k] + [newBlack[k]];
        OverlayAppend(BlueLeft, gridSize, newBlack[..k], newBlack[k]);
        leftArrows := leftArrows + [MakeArrow(BlueLeft, gridSize, newBlack[k])];
      }
      assert newBlack[..|newBlack|] == newBlack;
      Matrix.RowsEqual(Board(), RowPhase(b, newBlack));
    }

    /** grid.py:258-261: below each new BLACK cell (a, c), the cells (i, c)
        with i > a turn WHITE; one blue down arrow per cell. */
    method PropagateColumns(newBlack: seq<Pos>)
      requires Geometry() && forall k :: 0 <= k < |newBlack| ==> InBounds(gridSize, newBlack[k].0, newBlack[k].1)
      modifies cells, this`downArrows
      ensures Board() == ColPhase(old(Board()), newBlack)
      ensures downArrows == old(downArrows) + Overlay(BlueDown, gridSize, newBlack)
    {
      ghost var b := Board();
      for k := 0 to |newBlack|
        invariant forall x, y :: 0 <= x < gridSize && 0 <= y < gridSize ==>
          cells[x, y] == if ColHit(newBlack, k, x, y) then White else b[x][y]
        invariant downArrows == old(downArrows) + Overlay(BlueDown, gridSize, newBlack[..k])
      {
        var col, row := newBlack[k].0, newBlack[k].1;
        for col2 := col + 1 to gridSize
          modifies cells
          invariant forall x, y :: 0 <= x < gridSize && 0 <= y < gridSize ==>
            cells[x, y] == if ColHit(newBlack, k, x, y) || (y == row && col < x < col2) then White else b[x][y]
        {
          cells[col2, row] := White;
        }
        assert newBlack[..k + 1] == newBlack[..k] + [newBlack[k]];
        OverlayAppend(BlueDown, gridSize, newBlack[..k], newBlack[k]);
        downArrows := downArrows + [MakeArrow(BlueDown, gridSize, newBlack[k])];
      }
      assert newBlack[..|newBlack|] == newBlack;
      Matrix.RowsEqual(Board(), ColPhase(b, newBlack));
    }

    /** grid.py:265-268: up the diagonal from each new BLACK cell (a, c), the
        cells (a + z + 1, c + z + 1) inside the grid turn WHITE; one blue
        diagonal arrow per cell. */
    method PropagateDiagonals(newBlack: seq<Pos>)
      requires Geometry() && forall k :: 0 <= k < |newBlack| ==> InBounds(gridSize, newBlack[k].0, newBlack[k].1)
      modifies cells, this`downLeftArrows
      ensures Board() == DiagPhase(old(Board()), newBlack)
      ensures downLeftArrows == old(downLeftArrows) + Overlay(BlueDownLeft, gridSize, newBlack)
    {
      ghost var b := Board();
      for k := 0 to |newBlack|
        invariant forall x, y :: 0 <= x < gridSize && 0 <= y < gridSize ==>
          cells[x, y] == if DiagHit(newBlack, k, x, y) then White else b[x][y]
        invariant downLeftArrows == old(downLeftArrows) + Overlay(BlueDownLeft, gridSize, newBlack[..k])
      {
        var col, row := newBlack[k].0, newBlack[k].1;
        for z := 0 to Min(gridSize - row, gridSize - col) - 1
          modifies cells
          invariant forall x, y :: 0 <= x < gridSize && 0 <= y < gridSize ==>
            cells[x, y] ==
              if DiagHit(newBlack, k, x, y) || (x - col == y - row && 0 < x - col <= z) then White
              else b[x][y]
        {
          cells[col + z + 1, row + z + 1] := White;
        }
        assert newBlack[..k + 1] == newBlack[..k] + [newBlack[k]];
        OverlayAppend(BlueDownLeft, gridSize, newBlack[..k], newBlack[k]);
        downLeftArrows := downLeftArrows + [MakeArrow(BlueDownLeft, gridSize, newBlack[k])];
      }
      assert newBlack[..|newBlack|] == newBlack;
      Matrix.RowsEqual(Board(), DiagPhase(b, newBlack));
    }

    /** `step` (grid.py:225-270): one round of classification, emitting four
        frames.  The table becomes `Round` of the old one, the frames show the
        four phases with their arrows, and the arrow lists end empty.  On a
        finished table nothing changes, and the invariant `Sound` is kept.
        The source indexes cell (0, 0), and fails, on a 0 x 0 grid. */
    method Step()
      requires Valid() && gridSize >= 1
      modifies this`shapeCache, this`shown, this`leftArrows, this`downArrows, this`downLeftArrows
      modifies cells, canvas.pixels, canvas`frameNum, CacheMasks()
      ensures Valid()
      ensures Board() == Round(old(Board()))
      ensures shown == old(shown) + StepViews(old(Board()), highlightAntidiagonal)
      ensures canvas.frameNum == old(canvas.frameNum) + 4
      ensures forall x, y :: 0 <= x < canvasSize && 0 <= y < canvasSize ==>
        canvas.pixels[x, y] == PaintedOn(Board(), highlightAntidiagonal, x, y, old(canvas.pixels[x, y]))
      ensures leftArrows == [] && downArrows == [] && downLeftArrows == []
      ensures old(IsDone()) ==> Board() == old(Board())
      ensures old(IsDone()) ==> forall i :: |old(shown)| <= i < |shown| ==>
        shown[i] == View(Board(), [], [], [], highlightAntidiagonal)
      ensures Sound(old(Board())) ==> Sound(Board())
    {
      ghost var b, h, s0 := Board(), highlightAntidiagonal, shown;
      var newBlack := StepFrontier();
      ghost var s1, b1 := shown, Board();
      Propagate(newBlack);
      forall x, y | 0 <= x < canvasSize && 0 <= y < canvasSize
        ensures canvas.pixels[x, y] == PaintedOn(Board(), h, x, y, old(canvas.pixels[x, y]))
      {
        Repaint(b1, h, Board(), h, x, y, old(canvas.pixels[x, y]));
      }
      StepViewsAre(b, h, s0, s1, shown);
      if Done(b) {
        DoneIsFixpoint(b);
        DoneStepViews(b, h);
      }
      if Sound(b) {
        RoundPreservesSound(b);
      }
    }

    /** The last three frames of `step` (grid.py:250-270): each new BLACK
        cell's row, column and diagonal beyond it turn WHITE, one phase per
        frame, each frame with its blue arrows. */
    method Propagate(newBlack: seq<Pos>)
      requires Valid() && forall k :: 0 <= k < |newBlack| ==> InBounds(gridSize, newBlack[k].0, newBlack[k].1)
      modifies this`shapeCache, this`shown, this`leftArrows, this`downArrows, this`downLeftArrows
      modifies cells, canvas.pixels, canvas`frameNum, CacheMasks()
      ensures Valid()
      ensures canvas.frameNum == old(canvas.frameNum) + 3
      ensures forall x, y :: 0 <= x < canvasSize && 0 <= y < canvasSize ==>
        canvas.pixels[x, y] == PaintedOn(Board(), highlightAntidiagonal, x, y, old(canvas.pixels[x, y]))
      ensures Board() == DiagPhase(ColPhase(RowPhase(old(Board()), newBlack), newBlack), newBlack)
      ensures var h, b1 := highlightAntidiagonal, RowPhase(old(Board()), newBlack);
        shown == old(shown) + [View(b1, Overlay(BlueLeft, gridSize, newBlack), [], [], h),
                               View(ColPhase(b1, newBlack), [], Overlay(BlueDown, gridSize, newBlack), [], h),
                               View(Board(), [], [], Overlay(BlueDownLeft, gridSize, newBlack), h)]
      ensures leftArrows == [] && downArrows == [] && downLeftArrows == []
    {
      ghost var s0, h := shown, highlightAntidiagonal;
      StepRows(newBlack);
      ghost var s1, b1 := shown, Board();
      StepColumns(newBlack);
      ghost var s2, b2 := shown, Board();
      forall x, y | 0 <= x < canvasSize && 0 <= y < canvasSize
        ensures canvas.pixels[x, y] == PaintedOn(b2, h, x, y, old(canvas.pixels[x, y]))
      {
        Repaint(b1, h, b2, h, x, y, old(canvas.pixels[x, y]));
      }
      StepDiagonals(newBlack);
      forall x, y | 0 <= x < canvasSize && 0 <= y < canvasSize
        ensures canvas.pixels[x, y] == PaintedOn(Board(), h, x, y, old(canvas.pixels[x, y]))
      {
        Repaint(b2, h, Board(), h, x, y, old(canvas.pixels[x, y]));
      }
      AppendThree(s0, s1[|s0|], s2[|s1|], shown[|s2|]);
    }

    /** The first frame of `step` (grid.py:226-247): the new BLACK cells
        marked, with their red arrows. */
    method StepFrontier() returns (newBlack: seq<Pos>)
      requires Valid() && gridSize >= 1
      modifies this`shapeCache, this`shown, this`leftArrows, this`downArrows, this`downLeftArrows
      modifies cells, canvas.pixels, canvas`frameNum, CacheMasks()
      ensures Valid()
      ensures forall k :: k in old(shapeCache) ==> k in shapeCache && shapeCache[k] == old(shapeCache[k])
      ensures forall k :: k in shapeCache && k !in old(shapeCache) ==> fresh(shapeCache[k].pixels)
      ensures canvas.frameNum == old(canvas.frameNum) + 1
      ensures forall x, y :: 0 <= x < canvasSize && 0 <= y < canvasSize ==>
        canvas.pixels[x, y] == PaintedOn(Board(), highlightAntidiagonal, x, y, old(canvas.pixels[x, y]))
      ensures newBlack == Frontier(old(Board())) && forall k :: 0 <= k < |newBlack| ==> InBounds(gridSize, newBlack[k].0, newBlack[k].1)
      ensures Board() == Phase1(old(Board()))
      ensures var red := if AllGray(old(Board())) then [] else newBlack;
        leftArrows == Overlay(RedLeft, gridSize, red) && downArrows == Overlay(RedDown, gridSize, red) &&
        downLeftArrows == Overlay(RedDownLeft, gridSize, red)
      ensures shown == old(shown) + [View(Board(), leftArrows, downArrows, downLeftArrows, highlightAntidiagonal)]
    {
      newBlack := MarkFrontier();
      var frame := EmitFrame();
    }

    /** grid.py:226-246: the arrows cleared, the candidates found with their
        red arrows, and marked BLACK. */
    method MarkFrontier() returns (newBlack: seq<Pos>)
      requires Geometry() && gridSize >= 1
      modifies this`leftArrows, this`downArrows, this`downLeftArrows, cells
      ensures newBlack == Frontier(old(Board())) && forall k :: 0 <= k < |newBlack| ==> InBounds(gridSize, newBlack[k].0, newBlack[k].1)
      ensures Board() == Phase1(old(Board()))
      ensures var red := if AllGray(old(Board())) then [] else newBlack;
        leftArrows == Overlay(RedLeft, gridSize, red) && downArrows == Overlay(RedDown, gridSize, red) &&
        downLeftArrows == Overlay(RedDownLeft, gridSize, red)
    {
      ghost var b := Board();
      ResetArrows();
      newBlack := FindFrontier();
      FrontierInBounds(b);
      MarkNewBlack(newBlack);
    }

    /** The second frame of `step` (grid.py:250-256). */
    method StepRows(newBlack: seq<Pos>)
      requires Valid() && forall k :: 0 <= k < |newBlack| ==> InBounds(gridSize, newBlack[k].0, newBlack[k].1)
      modifies this`shapeCache, this`shown, this`leftArrows, this`downArrows, this`downLeftArrows
      modifies cells, canvas.pixels, canvas`frameNum, CacheMasks()
      ensures Valid()
      ensures forall k :: k in old(shapeCache) ==> k in shapeCache && shapeCache[k] == old(shapeCache[k])
      ensures forall k :: k in shapeCache && k !in old(shapeCache) ==> fresh(shapeCache[k].pixels)
      ensures canvas.frameNum == old(canvas.frameNum) + 1
      ensures forall x, y :: 0 <= x < canvasSize && 0 <= y < canvasSize ==>
        canvas.pixels[x, y] == PaintedOn(Board(), highlightAntidiagonal, x, y, old(canvas.pixels[x, y]))
      ensures Board() == RowPhase(old(Board()), newBlack)
      ensures shown == old(shown) + [View(Board(), Overlay(BlueLeft, gridSize, newBlack), [], [], highlightAntidiagonal)]
      ensures leftArrows == [] && downArrows == [] && downLeftArrows == []
    {
      ResetArrows();
      PropagateRows(newBlack);
      assert leftArrows == Overlay(BlueLeft, gridSize, newBlack);
      var frame := EmitFrame();
      leftArrows := [];
    }

    /** The third frame of `step` (grid.py:258-263). */
    method StepColumns(newBlack: seq<Pos>)
      requires Valid() && forall k :: 0 <= k < |newBlack| ==> InBounds(gridSize, newBlack[k].0, newBlack[k].1)
      requires leftArrows == [] && downArrows == [] && downLeftArrows == []
      modifies this`shapeCache, this`shown, this`leftArrows, this`downArrows, this`downLeftArrows
      modifies cells, canvas.pixels, canvas`frameNum, CacheMasks()
      ensures Valid()
      ensures forall k :: k in old(shapeCache) ==> k in shapeCache && shapeCache[k] == old(shapeCache[k])
      ensures forall k :: k in shapeCache && k !in old(shapeCache) ==> fresh(shapeCache[k].pixels)
      ensures canvas.frameNum == old(canvas.frameNum) + 1
      ensures forall x, y :: 0 <= x < canvasSize && 0 <= y < canvasSize ==>
        canvas.pixels[x, y] == PaintedOn(Board(), highlightAntidiagonal, x, y, old(canvas.pixels[x, y]))
      ensures Board() == ColPhase(old(Board()), newBlack)
      ensures shown == old(shown) + [View(Board(), [], Overlay(BlueDown, gridSize, newBlack), [], highlightAntidiagonal)]
      ensures leftArrows == [] && downArrows == [] && downLeftArrows == []
    {
      PropagateColumns(newBlack);
      assert downArrows == Overlay(BlueDown, gridSize, newBlack);
      var frame := EmitFrame();
      downArrows := [];
    }

    /** The fourth frame of `step` (grid.py:265-270). */
    method StepDiagonals(newBlack: seq<Pos>)
      requires Valid() && forall k :: 0 <= k < |newBlack| ==> InBounds(gridSize, newBlack[k].0, newBlack[k].1)
      requires leftArrows == [] && downArrows == [] && downLeftArrows == []
      modifies this`shapeCache, this`shown, this`leftArrows, this`downArrows, this`downLeftArrows
      modifies cells, canvas.pixels, canvas`frameNum, CacheMasks()
      ensures Valid()
      ensures forall k :: k in old(shapeCache) ==> k in shapeCache && shapeCache[k] == old(shapeCache[k])
      ensures forall k :: k in shapeCache && k !in old(shapeCache) ==> fresh(shapeCache[k].pixels)
      ensures canvas.frameNum == old(canvas.frameNum) + 1
      ensures forall x, y :: 0 <= x < canvasSize && 0 <= y < canvasSize ==>
        canvas.pixels[x, y] == PaintedOn(Board(), highlightAntidiagonal, x, y, old(canvas.pixels[x, y]))
      ensures Board() == DiagPhase(old(Board()), newBlack)
      ensures shown == old(shown) + [View(Board(), [], [], Overlay(BlueDownLeft, gridSize, newBlack), highlightAntidiagonal)]
      ensures leftArrows == [] && downArrows == [] && downLeftArrows == []
    {
      PropagateDiagonals(newBlack);
      assert downLeftArrows == Overlay(BlueDownLeft, gridSize, newBlack);
      var frame := EmitFrame();
      downLeftArrows := [];
    }

    /** The shape cache never holds more than the five palette squares. */
    lemma CacheBound()
      requires Valid()
      ensures |shapeCache| <= 5
    {
      PaletteSize();
      assert forall k :: k in shapeCache.Keys ==> CachedSquare(k, shapeCache[k]);
      SubsetNotLarger(shapeCache.Keys, PALETTE);
    }
  }
}
