# Coin-stack grid: a Dafny model

`grid.py` tabulates the winning positions of a two-pile coin game, which is
Wythoff's game. A
position is a pair of piles (x, y). A move takes coins from one pile, or the
same number from both piles. An N x N table of cells, one per position, starts
GRAY. Each call of `step` then does the following:

- It finds the GRAY cells whose every move reaches a WHITE cell, or only
  (0, 0) on the first round.
- It marks those cells BLACK; these are the losing positions.
- It turns WHITE every cell in the same row, column or diagonal beyond a new
  BLACK cell.
- It renders a frame after the marking and after each of the three
  propagation directions: four frames in all, with red and blue arrows
  recorded for the overlay.

A driver repeats `step` until no cell is GRAY. It then renders the table with
one anti-diagonal highlighted, and the other cells' colours blended towards
gray.

The model has seven modules:

- `Wythoff` (wythoff.dfy) states the classification on values. `Round` is
  one `step` on a board, built from the source's four phases with the
  source's literal slice indexing. The lemmas say what a round does to every
  cell, including these results:
  - it keeps the symmetry `cells[i][j] == cells[j][i]`;
  - it keeps the invariant `Sound`;
  - it never changes a decided cell;
  - it leaves a finished board alone;
  - it settles at least one GRAY cell per round;
  - a finished board's BLACK cells are exactly the P-positions of Wythoff's
    game.
- `GridEngine` (grid.dfy) is the `Grid` class. Its fields are as in the
  source: the cell array, the arrow lists, the shape cache, the highlight
  and the canvas. Its methods are `initCells`, `isDone`, `step` (phase by
  phase, loop by loop), `drawGridLines`, `drawCells`, `__drawCell` with its
  cache, `draw` and `renderPPM`. Each is proved against the functions of
  `Wythoff` or against a per-pixel description of the canvas.
- `Shapes` (shapes.dfy) is the widget hierarchy. It holds the mask
  generators of the rectangle and of the three arrows, the colouring
  arithmetic of `genPixels`, and `draw`'s copy of opaque mask entries onto a
  canvas at an offset.
- `Raster` (raster.dfy) is the `Canvas`. It covers the content of a plain PPM
  frame, the frame counter and `reset`, and proves that a frame's triplets
  give the buffer back.
- `Colors` (colors.dfy) covers the packed 24-bit colours: the channel split,
  packing, and the blend towards gray.
- `Matrix` (matrix.dfy) and `Arith` (arith.dfy) are small helpers. `Matrix`
  reads a two-dimensional array as a value; `Arith` holds facts about
  division.

The frontier test of grid.py:236-238 reads `cells[0:col, row]`,
`cells[col, 0:row]` and a diagonal of the transposed cell. The model keeps
that indexing literally. `Wythoff.PrefixesWhiteIsMoveTest` proves that on a
symmetric board it says "every move from (row, col) reaches a WHITE cell".
`Wythoff.RoundPreservesSymmetry` proves that `step` preserves that
symmetry.

The source never clears the canvas between frames: each frame's grid lines
and cell squares are drawn over the previous frame's pixels. `Grid.Draw` is
stated over the old pixel values.

## Model

| member | source | states |
|---|---|---|
| Colors.Split | grid.py:35 | the three channels of a packed colour are bytes that pack back to it |
| Colors.Pack | grid.py:202 | three byte channels pack to a colour whose split gives the same three channels |
| Colors.PackSplit | grid.py:196-202 | splitting any colour and packing the channels again gives the colour back |
| Colors.Blend | grid.py:199-201 | a blended channel is a byte between the original value and GRAY_FACTOR, and is the floor of the point two thirds of the way from the value to GRAY_FACTOR |
| Colors.BlendColor | grid.py:194-202 | the adjusted colour is a colour whose channels are the blends of the original channels |
| Colors.CellColorBlends | grid.py:199-202 | GRAY blends to itself; WHITE blends to gray level 211 and BLACK to gray level 126 |
| Raster.Canvas.constructor | grid.py:17-20 | the buffer has shape (width, height), every pixel is the background colour, and the frame counter is 0 |
| Raster.Canvas.RenderPPM | grid.py:28-38 | the frame has header P3, width, height, 255, then one channel triplet per pixel, rows from last to first; the counter goes up by exactly one |
| Raster.ScanLayout | grid.py:31-35 | a frame holds width x height triplets, and pixel (r, c) is triplet (height-1-r)*width + c, equal to that pixel's channels |
| Raster.ScanRoundTrip | grid.py:32-35 | reading a frame's triplets back, a row of `width` at a time from the end, gives exactly the buffer's colours |
| Raster.Canvas.Reset | grid.py:40-41 | every pixel becomes 0 |
| Shapes.Widget.Rectangle | grid.py:79-81 | a rectangle mask of the given shape and colour, every entry -1 as `Widget.__init__` leaves it |
| Shapes.Widget.Square | grid.py:88-90 | a dim x dim rectangle mask |
| Shapes.Widget.VerticalLine | grid.py:93-95 | a rectangle mask of shape (length, 1) |
| Shapes.Widget.HorizontalLine | grid.py:98-100 | a rectangle mask of shape (1, length) |
| Shapes.Widget.LeftArrow | grid.py:103-106 | a mask of shape (width, 2a+1); its generator stays inside the mask exactly when a == 0 or width >= a+2 |
| Shapes.Widget.DownArrow | grid.py:118-121 | a mask of shape (2a+1, height); its generator stays inside the mask exactly when a == 0 or height >= a+2 |
| Shapes.Widget.DownLeftArrow | grid.py:132-135 | a dim x dim mask; its generator stays inside the mask exactly when a == 0 or a < dim |
| Shapes.Widget.GenPixelsMono | grid.py:83-142 | the entries the shape covers become 1 and every other entry keeps its value |
| Shapes.Widget.GenRectangle | grid.py:83-85 | every mask entry becomes 1 |
| Shapes.Widget.GenLeftArrow | grid.py:108-115 | the middle column and the two chevron sides of the head become 1, and nothing else changes |
| Shapes.Widget.GenDownArrow | grid.py:123-130 | the same shape as the left arrow with the two indices swapped |
| Shapes.Widget.GenDownLeftArrow | grid.py:137-142 | the main diagonal and the first a entries of the first row and first column become 1, and nothing else changes |
| Shapes.Widget.GenPixels | grid.py:71-76 | covered or already-set entries take the widget's colour and all others become -1 |
| Shapes.Widget.Draw | grid.py:59-63 | canvas pixel (col+offsetX, row+offsetY) takes mask entry (row, col) when that entry is not negative; every other canvas pixel is unchanged |
| Wythoff.ScanRowMembers | grid.py:233-239 | the scan of one row lists exactly the GRAY cells of that row, among the columns scanned, that pass the three tests |
| Wythoff.ScanRowsMembers | grid.py:233-239 | the row-major scan lists exactly the cells of the visited rows that pass the tests |
| Wythoff.FrontierMembers | grid.py:229-239 | a cell is in `newBlack` iff it is in bounds and is either (0, 0) on an all-GRAY board, or, otherwise, a GRAY cell passing the three tests |
| Wythoff.FrontierInBounds | grid.py:229-239 | every listed cell lies on the board |
| Wythoff.HitsAreMoves | grid.py:251-267 | one of the three propagation loops writes a cell iff a new BLACK cell is one move away from it |
| Wythoff.MoveIsHit | grid.py:251-267 | a cell one move away from a new BLACK cell is written by the row, column or diagonal loop |
| Wythoff.RoundAt | grid.py:245-267 | after `step`, a cell one move from a new BLACK cell is WHITE; otherwise a new BLACK cell is BLACK; any other cell keeps its state |
| Wythoff.DiagonalSliceAt | grid.py:238 | entry min(row, col) - d of the diagonal slice read for (row, col) is cell (col-d, row-d) |
| Wythoff.PrefixesWhiteGivesMoves | grid.py:236-238 | on a symmetric board, passing the three slice tests makes every move from the cell reach a WHITE cell |
| Wythoff.MovesGivePrefixesWhite | grid.py:236-238 | on a symmetric board, a cell whose every move reaches a WHITE cell passes the three slice tests |
| Wythoff.PrefixesWhiteIsMoveTest | grid.py:236-238 | on a symmetric board, the literal slice tests hold iff every move from (row, col) reaches a WHITE cell |
| Wythoff.NewBlackSymmetric | grid.py:229-239 | on a symmetric board, (x, y) turns BLACK iff (y, x) does |
| Wythoff.NewWhiteSymmetric | grid.py:251-267 | on a symmetric board, a cell that turns WHITE has a transpose that turns WHITE too |
| Wythoff.RoundPreservesSymmetry | grid.py:225-270 | `step` keeps cells[i][j] == cells[j][i] |
| Wythoff.FirstRound | grid.py:230-267 | the first `step` makes (0, 0) BLACK; the rest of the first row, first column and main diagonal WHITE; and every other cell GRAY |
| Wythoff.FirstRoundFinishes | grid.py:225-270 | one `step` finishes the grid iff N <= 2 |
| Wythoff.InitialBoardSound | grid.py:164-166 | the all-GRAY board satisfies the invariant `Sound` |
| Wythoff.NewBlackFacts | grid.py:233-239 | on a sound board, a cell that turns BLACK was GRAY and every move from it reaches a WHITE cell |
| Wythoff.NoBlackIsOverwritten | grid.py:245-267 | on a sound board, no old or new BLACK cell is one move from a new BLACK cell, so propagation never overwrites one |
| Wythoff.RoundMonotone | grid.py:234-267 | on a sound board, `step` changes no BLACK or WHITE cell and never writes GRAY; a cell ends BLACK iff it was BLACK or is newly found |
| Wythoff.RoundPreservesSound | grid.py:225-270 | `step` keeps the invariant `Sound` |
| Wythoff.BlackStaysSound | grid.py:225-270 | after `step`, every move from a BLACK cell reaches a WHITE cell |
| Wythoff.WhiteNextToBlack | grid.py:225-270 | after `step`, every cell one move before a BLACK cell is WHITE |
| Wythoff.WhiteHasBlackMove | grid.py:225-270 | after `step`, every WHITE cell has a move to a BLACK cell |
| Wythoff.DoneIsFixpoint | grid.py:225-270 | `step` on a finished board changes no cell |
| Wythoff.DonePhases | grid.py:229-262 | on a finished board `newBlack` is empty and each of the first three phases leaves the board as it was |
| GridEngine.DoneStepViews | grid.py:225-270 | `step` on a finished board logs four identical views: the unchanged board with no arrows and the same highlight |
| Wythoff.SettledGray | grid.py:233-239 | from any GRAY cell, some GRAY cell is reached all of whose moves are non-GRAY |
| Wythoff.SettledGrayIsCandidate | grid.py:234-238 | on a sound board, a GRAY cell all of whose moves are non-GRAY passes the frontier test |
| Wythoff.RoundProgress | grid.py:225-270 | on a sound, unfinished board, `step` settles some GRAY cell |
| Wythoff.GrayCountFalls | grid.py:277-278 | the number of GRAY cells strictly falls with each `step`, so the driver loop ends |
| Wythoff.DoneBoardIsWythoff | grid.py:282-288 | on a finished sound board, a cell is BLACK iff its position is a P-position of Wythoff's game, the winning answer the driver prints |
| GridEngine.ArrowsInGrid | grid.py:240-268 | every arrow record a round appends has its ends on the grid and in order; a red diagonal arrow ends at its candidate cell |
| GridEngine.DrawColor | grid.py:194-204 | the adjusted colour is a colour; it equals the cell colour when nothing is highlighted or the cell is on the highlighted anti-diagonal, and is the blend towards gray (`BlendColor`) otherwise |
| GridEngine.DrawColorInPalette | grid.py:194-204 | every cell is drawn in one of five colours |
| GridEngine.Grid.CornerFits | grid.py:209 | the square of every cell lies inside the canvas |
| GridEngine.Grid.SquareIsCell | grid.py:209 | a pixel index lies in the square of cell r iff it lies in some cell's square and that cell is r |
| GridEngine.Grid.constructor | grid.py:146-162 | the geometry of lines 151-153; an all-GRAY table; no arrows and no highlight; a fresh canvas with the grid lines and GRAY cells drawn over white |
| GridEngine.Grid.InitCells | grid.py:164-166 | every cell becomes GRAY |
| GridEngine.Grid.IsDone | grid.py:222-223 | true iff no cell is GRAY |
| GridEngine.Grid.ResetArrows | grid.py:177-180 | the three arrow lists become empty |
| GridEngine.Grid.DrawGridLines | grid.py:182-187 | every pixel on one of the N+1 grid lines in either direction becomes BLACK, and every other pixel is unchanged |
| GridEngine.Grid.CachedSquareFor | grid.py:206-208 | the square for a colour is built and cached on the first request only; later requests return the cached square and leave the cache unchanged |
| GridEngine.Grid.DrawCell | grid.py:193-209 | the square of cell (row, col) takes the adjusted colour and no other pixel changes; the cache gains at most that colour |
| GridEngine.Grid.DrawRow | grid.py:190-191 | after one row of cells, every pixel in a square of a drawn cell shows that cell's colour |
| GridEngine.Grid.DrawCells | grid.py:189-191 | every pixel inside a cell square shows its cell's colour, and pixels outside the squares are unchanged |
| GridEngine.Grid.CornerPainted | grid.py:209 | after the grid lines and cells are drawn, and before any arrow, the first pixel of a cell's square shows that cell's colour |
| GridEngine.Grid.Draw | grid.py:168-170 | before the arrows are painted, each pixel shows its cell's colour inside a cell square, BLACK on a grid line, and its old value elsewhere |
| GridEngine.Grid.RenderPPM | grid.py:173-175 | draws, then emits the frame of the drawn canvas; in that arrow-free frame each cell's colour is at the triplet of its square's first pixel; the counter goes up by one; the view logged for the frame holds the current cells, arrows and highlight |
| GridEngine.Grid.CornerTriplets | grid.py:31-35 | in a frame of the drawn canvas, the triplet of each cell's first pixel is that cell's colour |
| GridEngine.Grid.EmitFrame | grid.py:247 | the canvas is drawn for the current cells (cell squares in their colours, grid lines BLACK, other pixels kept), the frame returned holds that canvas, the counter goes up by one, and the log records the cells, arrows and highlight shown |
| GridEngine.Grid.SlicesGivePrefixes | grid.py:236-238 | the slice tests read on the array imply the tests on the board value |
| GridEngine.Grid.PrefixesGiveSlices | grid.py:236-238 | the tests on the board value imply the slice tests read on the array |
| GridEngine.Grid.SlicesWhiteIsPrefixesWhite | grid.py:236-238 | the slice tests on the array, including `cells.diagonal(row - col)[0:min(row, col)]`, hold iff they hold on the board value |
| GridEngine.Grid.CandidateTest | grid.py:234-238 | the array test of a cell agrees with `IsCandidate` on the board |
| GridEngine.Grid.VisitCell | grid.py:234-243 | a candidate is appended to `newBlack` together with its three red arrows; any other cell changes nothing |
| GridEngine.Grid.VisitRow | grid.py:233-243 | one row's candidates are appended in column order, each with its red arrows |
| GridEngine.Grid.FindFrontier | grid.py:229-243 | `newBlack` is the frontier of the board; every candidate gets its red arrows, and the first round gets none |
| GridEngine.Grid.MarkNewBlack | grid.py:245-246 | exactly the listed cells become BLACK |
| GridEngine.Grid.PropagateRows | grid.py:251-254 | the table becomes the row phase: cells after a listed cell in its row turn WHITE, plus one blue left arrow per listed cell |
| GridEngine.Grid.PropagateColumns | grid.py:258-261 | the table becomes the column phase, plus one blue down arrow per listed cell |
| GridEngine.Grid.PropagateDiagonals | grid.py:265-268 | the table becomes the diagonal phase, which stops at the grid edge, plus one blue diagonal arrow per listed cell |
| GridEngine.Grid.MarkFrontier | grid.py:226-246 | arrows are cleared; the frontier is found with its red arrows and marked BLACK |
| GridEngine.Grid.StepFrontier | grid.py:226-247 | the table becomes phase 1 of the round; the view logged for the first frame holds the new BLACK cells with their red arrows; the canvas is left drawn for the new table |
| GridEngine.Grid.StepRows | grid.py:250-256 | the table becomes the row phase; the view logged for the second frame holds it with blue left arrows; the canvas is left drawn for it; the lists are then cleared |
| GridEngine.Grid.StepColumns | grid.py:258-263 | the table becomes the column phase; the view logged for the third frame holds it with blue down arrows; the canvas is left drawn for it |
| GridEngine.Grid.StepDiagonals | grid.py:265-270 | the table becomes the diagonal phase; the view logged for the fourth frame holds it with blue diagonal arrows; the canvas is left drawn for it |
| GridEngine.Grid.Propagate | grid.py:249-270 | the three propagation phases happen in order, three frames are emitted, the canvas ends drawn for the final table over its old pixels, and the arrow lists end empty |
| GridEngine.Grid.Step | grid.py:225-270 | the table becomes `Round` of the old table; the views logged for the four frames hold the four phases with their arrows; the canvas ends with the cell squares of the new table, BLACK grid lines and every other pixel unchanged; the lists end empty; on a finished table the board is unchanged and the four views logged are identical, with no arrows; the invariant `Sound` is kept |
| Wythoff.Diagonal | grid.py:238 | numpy's `cells.diagonal(offset)`: the entries (k, k+offset) for a non-negative offset and (k-offset, k) otherwise, of length N - abs(offset); `Wythoff.DiagonalSliceAt` locates its entries |
| Wythoff.PrefixesWhite | grid.py:236-238 | the three slice tests read literally, a GRAY entry failing; `Wythoff.PrefixesWhiteIsMoveTest` states their meaning |
| Wythoff.IsCandidate | grid.py:234-238 | a GRAY cell passing the three tests; `Wythoff.FrontierMembers` states that these are the cells listed |
| Wythoff.Frontier | grid.py:229-239 | the list `newBlack`: [(0, 0)] on an all-GRAY board, else the candidates in row-major order; its members are stated by `Wythoff.FrontierMembers` |
| Wythoff.MarkBlack | grid.py:245-246 | the listed cells BLACK, every other cell unchanged; it keeps the board N x N |
| Wythoff.RowPhase | grid.py:251-253 | a cell becomes WHITE when a listed cell lies before it in its row, else unchanged; it keeps the board N x N |
| Wythoff.ColPhase | grid.py:258-260 | the same along columns |
| Wythoff.DiagPhase | grid.py:265-267 | the same along diagonals, inside the grid |
| Wythoff.Phase1 | grid.py:229-246 | the board of the first frame: the frontier marked BLACK |
| Wythoff.Phase2 | grid.py:249-255 | the board of the second frame |
| Wythoff.Phase3 | grid.py:258-262 | the board of the third frame |
| Wythoff.Round | grid.py:225-270 | the board after `step`, the four phases in the source's order; `Wythoff.RoundAt` states its effect on each cell |
| Raster.Scan | grid.py:32-35 | the frame body: the rows from last to first, each left to right, split into channels; `Raster.ScanLayout` and `Raster.ScanRoundTrip` state its layout and that it loses nothing |
| GridEngine.MakeArrow | grid.py:240-268 | the six arrow dictionaries field for field: red left {xLeft 0, xRight col, y row}, red down {x col, yBottom 0, yTop row}, red diagonal {yTop row, yBottom max(0, row-col), xLeft max(0, col-row)} for a candidate (row, col); for a tuple rebound as (col, row), blue left {xLeft col, xRight N-1, y row}, blue down {x col, yBottom row, yTop N-1}, blue diagonal {xLeft col, yBottom row, yTop N-1-max(0, col-row)} |
| GridEngine.Overlay | grid.py:240-268 | one arrow record per listed cell, in list order |
| GridEngine.CellColor | grid.py:155-166 | the stored colour of each cell state: GRAY, BLACK or WHITE |
| GridEngine.Grid.AllGrayCells | grid.py:230 | `np.all(self.cells == GRAY)` on the array |
| GridEngine.Grid.SlicesWhite | grid.py:236-238 | the three slice tests on the array, the diagonal slice written as the index pairs it reads; `GridEngine.Grid.SlicesWhiteIsPrefixesWhite` ties it to the board value |
| GridEngine.Grid.PaintedOn | grid.py:182-209 | the pixel after the grid lines and cells are drawn, before `drawArrows`, for a given table and highlight: its cell's adjusted colour inside a cell square, BLACK on a grid line, its old value elsewhere |
| GridEngine.Grid.PaintedIsPaintedOn | grid.py:182-209 | the canvas description read through the cell array agrees with `PaintedOn` of the array's value |
| GridEngine.Grid.Repaint | grid.py:182-209 | drawing the grid lines and cells twice, without arrows, leaves what the second drawing alone leaves, whatever the first table was |
| GridEngine.Grid.CacheBound | grid.py:206-208 | the shape cache never holds more than five squares |

## Left out

- File output is left out: the file name, the writes, `print` and the file handle (grid.py:29-30, 36-37). A frame is returned as a value.
- The driver's printing and the ImageMagick call (grid.py:273-293) are left out. `Wythoff.GrayCountFalls` states why its loop ends, and `Wythoff.DoneBoardIsWythoff` states what it prints.
- `drawArrows` (grid.py:211-220) is left out, together with `draw`'s call to it (grid.py:171). Arrows are kept as records in the frame views, without pixel placement.
- `drawArrows` raises an index error when arrowheadDim >= 1 and some arrow has extent 0: its mask is then 0 wide or 0 high, and the head is written out of range. An extent of 1 or more always fits the head. Red arrows never have extent 0: the first round records none, and every later candidate lies off row 0 and column 0. The blue arrows of a new BLACK cell (p, q) have extents N-1-p, N-1-q and N-1-max(p, q). So the program crashes exactly when some BLACK cell has a coordinate N-1, that is, when N-1 is the larger pile of a P-position: N = 1, 3, 6, 8, 11, 14, 16, and so on. The driver's N = 31 is not one of them. The mask-size condition is stated by the arrow constructors' `Valid()` equivalences.
- Colors.Blend: computes the exact integer floor of (2*GRAY_FACTOR + v)/3. The source computes this in double precision, which is not modelled.
- GridEngine.Grid.constructor: requires tickSize >= 1. With 0, the first grid line sits at pixel -1, which numpy wraps to the last pixel.
- GridEngine.Grid.IsDone and GridEngine.Grid.Step: require N >= 1. The source fails on a 0 x 0 grid: `np.min` of an empty array, or the write to cell (0, 0).
- Shapes.Widget.Draw: requires the whole mask to land inside the canvas. Negative or too-large numpy indices (wrap-around or an index error) are not modelled. Every call the grid makes meets this.
- Shapes.Widget.GenPixels: requires the mask of an arrow to hold only -1 and 1, which every fresh arrow does. The arrow generators do not clear their mask.
- The abstract `genPixels` that raises (grid.py:56-57) is not modelled. The class hierarchy becomes one `Widget` class with a shape tag, so no widget is left without a generator.
- `Grid` extends `Canvas` in the source. Here the grid holds its canvas as a field.
- The shape cache is keyed by the colour itself rather than the string 'cell%d'. The two keys determine each other.
- Inside `step`, the source writes each frame to a file. Here `EmitFrame` returns the frame and `step` drops it. The ghost log `shown` records the cells, arrows and highlight each frame shows, and each phase's contract states the canvas it leaves drawn.
- `Canvas.width()`/`height()` and the widget getters are plain functions or constants, with no contracts of their own.
- GridEngine.Grid.Draw: draws no arrows. In the source, `draw` also paints the red and blue arrows, and a diagonal arrow runs through the first pixels of the cells it crosses, the cells (yBottom + k, xLeft + k) for 1 <= k <= yTop - yBottom. Left and down arrows start one pixel inside a cell and miss these pixels. The canvas stated here is the one before the arrows are painted.
- GridEngine.Grid.RenderPPM: the frame stated is that of the arrow-free canvas. In the source a diagonal arrow can overwrite a cell's first pixel: with N = 31, tick 3 and arrowheadDim 4, the red arrow of cell (1, 2) in round two paints that cell's first pixel (15, 27) RED. So the corner-triplet claim holds of the source's frames only for cells no arrow crosses.
- GridEngine.Grid.CornerPainted: holds of the arrow-free canvas only, for the reason given for `Draw`.
- GridEngine.Grid.EmitFrame: the canvas and frame stated are arrow-free, as for `RenderPPM`.
- GridEngine.Grid.PaintedOn: describes the canvas before `drawArrows` (grid.py:171). In the source the arrows then overwrite some of these pixels, the corners of cells a diagonal arrow crosses among them.
- GridEngine.Grid.Repaint: holds of the arrow-free drawing only. Grid lines are one pixel wide (grid.py:93-100), so with gridThickness >= 2 there is a gap between each line and the next cell square. An arrow pixel in such a gap survives every later `draw` of the source.
- GridEngine.Grid.StepFrontier: the canvas it leaves is stated without the arrows its frames paint, as for `Draw`.
- GridEngine.Grid.StepRows: the canvas it leaves is stated without the arrows its frames paint, as for `Draw`.
- GridEngine.Grid.StepColumns: the canvas it leaves is stated without the arrows its frames paint, as for `Draw`.
- GridEngine.Grid.StepDiagonals: the canvas it leaves is stated without the arrows its frames paint, as for `Draw`.
- GridEngine.Grid.Propagate: the canvas it leaves is stated without the arrows its frames paint, as for `Draw`.
- GridEngine.Grid.Step: the canvas it leaves is stated without the arrows its frames paint, as for `Draw`.
- Raster.Unscan: requires a width of at least 1. A frame of width 0 has no rows to read back.
