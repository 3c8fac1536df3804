/** The classification rules of the grid engine, stated on values.

    A board is the N x N table of cell states that the engine keeps in
    `Grid.cells` (grid.py:155); `b[x][y]` is `cells[x, y]`.  The cell (x, y)
    stands for the position of Wythoff's game with piles of x and y coins: a
    move takes coins from one pile, or the same number from both.  One call of
    `Grid.step` (grid.py:225-270) is the function `Round` below, built from its
    four phases exactly as the source orders them. */
module Wythoff {

  datatype CellState = Gray | Black | White

  type Board = seq<seq<CellState>>

  /** A cell address (first index, second index) as the source's tuples hold it. */
  type Pos = (int, int)

  function Min(a: int, b: int): int { if a <= b then a else b }

  predicate IsSquare(b: Board) {
    forall i :: 0 <= i < |b| ==> |b[i]| == |b|
  }

  predicate InBounds(n: int, x: int, y: int) {
    0 <= x < n && 0 <= y < n
  }

  /** The board as `initCells` leaves it (grid.py:164-166). */
  function AllGrayBoard(n: nat): (b: Board)
    ensures |b| == n && IsSquare(b)
  {
    seq(n, _ => seq(n, _ => Gray))
  }

  /** `np.all(self.cells == GRAY)` (grid.py:230). */
  predicate AllGray(b: Board)
    requires IsSquare(b)
  {
    forall x, y :: 0 <= x < |b| && 0 <= y < |b| ==> b[x][y] == Gray
  }

  /** The condition `isDone` tests (grid.py:222-223): no cell is GRAY. */
  predicate Done(b: Board)
    requires IsSquare(b)
  {
    forall x, y :: 0 <= x < |b| && 0 <= y < |b| ==> b[x][y] != Gray
  }

  predicate Symmetric(b: Board)
    requires IsSquare(b)
  {
    forall x, y :: 0 <= x < |b| && 0 <= y < |b| ==> b[x][y] == b[y][x]
  }

  /** One legal move of Wythoff's game leads from (x, y) to (x2, y2): take from
      the first pile, from the second pile, or the same amount from both. */
  predicate Move(x: int, y: int, x2: int, y2: int) {
    0 <= x2 && 0 <= y2 &&
    ((x2 < x && y2 == y) || (x2 == x && y2 < y) || (x2 < x && x - x2 == y - y2))
  }

  /** Every position one move away from (x, y) is WHITE. */
  ghost predicate AllMovesWhite(b: Board, x: int, y: int)
    requires IsSquare(b) && InBounds(|b|, x, y)
  {
    forall x2, y2 :: Move(x, y, x2, y2) ==> b[x2][y2] == White
  }

  // ---------------------------------------------------------------------------
  // Phase 1: frontier detection, with the source's own indexing

  /** `cells.diagonal(offset)`: the entries `cells[k, k + offset]` for a
      non-negative offset and `cells[k - offset, k]` otherwise. */
  function Diagonal(b: Board, offset: int): (d: seq<CellState>)
    requires IsSquare(b) && -|b| <= offset <= |b|
    ensures |d| == |b| - (if offset >= 0 then offset else -offset)
  {
    if offset >= 0 then seq(|b| - offset, k requires 0 <= k < |b| - offset => b[k][k + offset])
    else seq(|b| + offset, k requires 0 <= k < |b| + offset => b[k - offset][k])
  }

  /** `np.all(s == WHITE)`. */
  predicate AllWhite(s: seq<CellState>) {
    forall k :: 0 <= k < |s| ==> s[k] == White
  }

  /** The three tests of grid.py:236-238 for the cell (row, col): the slices
      `cells[0:col, row]`, `cells[col, 0:row]` and the first `min(row, col)`
      entries of diagonal `row - col`, every entry literally equal to WHITE
      (a GRAY entry fails the test). */
  predicate PrefixesWhite(b: Board, row: int, col: int)
    requires IsSquare(b) && InBounds(|b|, row, col)
  {
    (forall k :: 0 <= k < col ==> b[k][row] == White) &&
    (forall k :: 0 <= k < row ==> b[col][k] == White) &&
    AllWhite(Diagonal(b, row - col)[..Min(row, col)])
  }

  /** A cell the non-initial branch of phase 1 appends to `newBlack`
      (grid.py:233-239). */
  predicate IsCandidate(b: Board, row: int, col: int)
    requires IsSquare(b) && InBounds(|b|, row, col)
  {
    b[row][col] == Gray && PrefixesWhite(b, row, col)
  }

  /** The candidates of row `row` among columns 0 .. c-1, in column order. */
  function ScanRow(b: Board, row: int, c: int): seq<Pos>
    requires IsSquare(b) && 0 <= row < |b| && 0 <= c <= |b|
  {
    if c == 0 then []
    else ScanRow(b, row, c - 1) + (if IsCandidate(b, row, c - 1) then [(row, c - 1)] else [])
  }

  /** The candidates of rows 0 .. r-1 in the row-major order of
      `np.ndenumerate` (grid.py:233). */
  function ScanRows(b: Board, r: int): seq<Pos>
    requires IsSquare(b) && 0 <= r <= |b|
  {
    if r == 0 then [] else ScanRows(b, r - 1) + ScanRow(b, r - 1, |b|)
  }

  lemma {:induction false} ScanRowMembers(b: Board, row: int, c: int)
    requires IsSquare(b) && 0 <= row < |b| && 0 <= c <= |b|
    ensures forall p :: p in ScanRow(b, row, c) <==> p.0 == row && 0 <= p.1 < c && IsCandidate(b, p.0, p.1)
  {
    if c > 0 {
      ScanRowMembers(b, row, c - 1);
    }
  }

  /** The scan lists exactly the candidates of the rows it has visited. */
  lemma {:induction false} ScanRowsMembers(b: Board, r: int)
    requires IsSquare(b) && 0 <= r <= |b|
    ensures forall p :: p in ScanRows(b, r) <==> 0 <= p.0 < r && 0 <= p.1 < |b| && IsCandidate(b, p.0, p.1)
  {
    if r > 0 {
      ScanRowsMembers(b, r - 1);
      ScanRowMembers(b, r - 1, |b|);
    }
  }

  /** The list `newBlack` of grid.py:229-239. */
  function Frontier(b: Board): seq<Pos>
    requires IsSquare(b) && |b| >= 1
  {
    if AllGray(b) then [(0, 0)] else ScanRows(b, |b|)
  }

  /** Whether phase 1 turns the cell (x, y) BLACK. */
  predicate IsNewBlack(b: Board, x: int, y: int)
    requires IsSquare(b) && InBounds(|b|, x, y)
  {
    if AllGray(b) then x == 0 && y == 0 else IsCandidate(b, x, y)
  }

  // ---------------------------------------------------------------------------
  // The four phases

  /** grid.py:245-246: every listed cell becomes BLACK. */
  function MarkBlack(b: Board, nb: seq<Pos>): (r: Board)
    requires IsSquare(b)
    ensures |r| == |b| && IsSquare(r)
  {
    seq(|b|, x requires 0 <= x < |b| =>
      seq(|b|, y requires 0 <= y < |b| => if (x, y) in nb then Black else b[x][y]))
  }

  /** Some of the first `upTo` listed cells (a, c) has x == a and c < y: the
      row loop of grid.py:251-253 writes (x, y). */
  predicate RowHit(nb: seq<Pos>, upTo: int, x: int, y: int)
    requires 0 <= upTo <= |nb|
  {
    exists k :: 0 <= k < upTo && nb[k].0 == x && nb[k].1 < y
  }

  /** The column loop of grid.py:258-260 writes (x, y). */
  predicate ColHit(nb: seq<Pos>, upTo: int, x: int, y: int)
    requires 0 <= upTo <= |nb|
  {
    exists k :: 0 <= k < upTo && nb[k].1 == y && nb[k].0 < x
  }

  /** The diagonal loop of grid.py:265-267 writes (x, y). */
  predicate DiagHit(nb: seq<Pos>, upTo: int, x: int, y: int)
    requires 0 <= upTo <= |nb|
  {
    exists k :: 0 <= k < upTo && x - nb[k].0 == y - nb[k].1 > 0
  }

  function RowPhase(b: Board, nb: seq<Pos>): (r: Board)
    requires IsSquare(b)
    ensures |r| == |b| && IsSquare(r)
  {
    seq(|b|, x requires 0 <= x < |b| =>
      seq(|b|, y requires 0 <= y < |b| => if RowHit(nb, |nb|, x, y) then White else b[x][y]))
  }

  function ColPhase(b: Board, nb: seq<Pos>): (r: Board)
    requires IsSquare(b)
    ensures |r| == |b| && IsSquare(r)
  {
    seq(|b|, x requires 0 <= x < |b| =>
      seq(|b|, y requires 0 <= y < |b| => if ColHit(nb, |nb|, x, y) then White else b[x][y]))
  }

  function DiagPhase(b: Board, nb: seq<Pos>): (r: Board)
    requires IsSquare(b)
    ensures |r| == |b| && IsSquare(r)
  {
    seq(|b|, x requires 0 <= x < |b| =>
      seq(|b|, y requires 0 <= y < |b| => if DiagHit(nb, |nb|, x, y) then White else b[x][y]))
  }

  /** The boards shown by the four frames of one `step`. */
  function Phase1(b: Board): (r: Board)
    requires IsSquare(b) && |b| >= 1
    ensures |r| == |b| && IsSquare(r)
  {
    MarkBlack(b, Frontier(b))
  }

  function Phase2(b: Board): (r: Board)
    requires IsSquare(b) && |b| >= 1
    ensures |r| == |b| && IsSquare(r)
  {
    RowPhase(Phase1(b), Frontier(b))
  }

  function Phase3(b: Board): (r: Board)
    requires IsSquare(b) && |b| >= 1
    ensures |r| == |b| && IsSquare(r)
  {
    ColPhase(Phase2(b), Frontier(b))
  }

  /** The board after one whole `step`. */
  function Round(b: Board): (r: Board)
    requires IsSquare(b) && |b| >= 1
    ensures |r| == |b| && IsSquare(r)
  {
    DiagPhase(Phase3(b), Frontier(b))
  }

  // ---------------------------------------------------------------------------
  // What one round does

  lemma {:induction false} FrontierMembers(b: Board, x: int, y: int)
    requires IsSquare(b) && |b| >= 1
    ensures (x, y) in Frontier(b) <==> InBounds(|b|, x, y) && IsNewBlack(b, x, y)
  {
    if !AllGray(b) {
      ScanRowsMembers(b, |b|);
    }
  }

  lemma FrontierInBounds(b: Board)
    requires IsSquare(b) && |b| >= 1
    ensures forall k :: 0 <= k < |Frontier(b)| ==> InBounds(|b|, Frontier(b)[k].0, Frontier(b)[k].1)
  {
    var nb := Frontier(b);
    forall k | 0 <= k < |nb| ensures InBounds(|b|, nb[k].0, nb[k].1) {
      assert nb[k] in nb;
      FrontierMembers(b, nb[k].0, nb[k].1);
    }
  }

  /** Some cell that phase 1 turns BLACK is one move away from (x, y). */
  ghost predicate IsNewWhite(b: Board, x: int, y: int)
    requires IsSquare(b)
  {
    exists a, c :: InBounds(|b|, a, c) && IsNewBlack(b, a, c) && Move(x, y, a, c)
  }

  lemma HitsAreMoves(b: Board, x: int, y: int)
    requires IsSquare(b) && |b| >= 1 && InBounds(|b|, x, y)
    ensures var nb := Frontier(b);
      (RowHit(nb, |nb|, x, y) || ColHit(nb, |nb|, x, y) || DiagHit(nb, |nb|, x, y))
        <==> IsNewWhite(b, x, y)
  {
    var nb := Frontier(b);
    if RowHit(nb, |nb|, x, y) || ColHit(nb, |nb|, x, y) || DiagHit(nb, |nb|, x, y) {
      var k :| 0 <= k < |nb| &&
        ((nb[k].0 == x && nb[k].1 < y) || (nb[k].1 == y && nb[k].0 < x) || x - nb[k].0 == y - nb[k].1 > 0);
      assert nb[k] in nb;
      FrontierMembers(b, nb[k].0, nb[k].1);
      assert Move(x, y, nb[k].0, nb[k].1);
    }
    if IsNewWhite(b, x, y) {
      MoveIsHit(b, x, y);
    }
  }

  /** A move from (x, y) that reaches a new BLACK cell is a write of one of
      the three loops. */
  lemma MoveIsHit(b: Board, x: int, y: int)
    requires IsSquare(b) && |b| >= 1 && InBounds(|b|, x, y) && IsNewWhite(b, x, y)
    ensures var nb := Frontier(b);
      RowHit(nb, |nb|, x, y) || ColHit(nb, |nb|, x, y) || DiagHit(nb, |nb|, x, y)
  {
    var nb := Frontier(b);
    var a, c :| InBounds(|b|, a, c) && IsNewBlack(b, a, c) && Move(x, y, a, c);
    FrontierMembers(b, a, c);
    assert (a, c) in nb;
    var k :| 0 <= k < |nb| && nb[k] == (a, c);
    if a == x {
      assert nb[k].0 == x && nb[k].1 < y;
    } else if c == y {
      assert nb[k].1 == y && nb[k].0 < x;
    } else {
      assert x - nb[k].0 == y - nb[k].1 > 0;
    }
  }

  /** The whole effect of one round on one cell (grid.py:245-267): a cell
      one move away from a new BLACK cell is WHITE, otherwise a new BLACK cell
      is BLACK, and every other cell keeps its state. */
  lemma RoundAt(b: Board, x: int, y: int)
    requires IsSquare(b) && |b| >= 1 && InBounds(|b|, x, y)
    ensures Round(b)[x][y] ==
      if IsNewWhite(b, x, y) then White
      else if IsNewBlack(b, x, y) then Black
      else b[x][y]
  {
    HitsAreMoves(b, x, y);
    FrontierMembers(b, x, y);
  }

  // ---------------------------------------------------------------------------
  // The transposed indexing and the symmetry invariant

  /** Entry `min(row, col) - d` of the diagonal slice read for (row, col)
      is the cell (col - d, row - d), the transpose of a diagonal move. */
  lemma DiagonalSliceAt(b: Board, row: int, col: int, d: int)
    requires IsSquare(b) && InBounds(|b|, row, col) && 1 <= d <= Min(row, col)
    ensures var s := Diagonal(b, row - col)[..Min(row, col)];
      |s| == Min(row, col) && s[Min(row, col) - d] == b[col - d][row - d]
  {
  }

  lemma PrefixesWhiteGivesMoves(b: Board, row: int, col: int)
    requires IsSquare(b) && Symmetric(b) && InBounds(|b|, row, col)
    requires PrefixesWhite(b, row, col)
    ensures AllMovesWhite(b, row, col)
  {
    var s := Diagonal(b, row - col)[..Min(row, col)];
    forall x2, y2 | Move(row, col, x2, y2) ensures b[x2][y2] == White {
      assert b[x2][y2] == b[y2][x2];
      if x2 < row && y2 == col {
        assert b[col][x2] == White;
      } else if x2 == row && y2 < col {
        assert b[y2][row] == White;
      } else {
        var d := row - x2;
        DiagonalSliceAt(b, row, col, d);
        assert s[Min(row, col) - d] == White;
      }
    }
  }

  lemma MovesGivePrefixesWhite(b: Board, row: int, col: int)
    requires IsSquare(b) && Symmetric(b) && InBounds(|b|, row, col)
    requires AllMovesWhite(b, row, col)
    ensures PrefixesWhite(b, row, col)
  {
    forall k | 0 <= k < col ensures b[k][row] == White {
      assert Move(row, col, row, k);
    }
    forall k | 0 <= k < row ensures b[col][k] == White {
      assert Move(row, col, k, col);
    }
    var s := Diagonal(b, row - col)[..Min(row, col)];
    forall k | 0 <= k < |s| ensures s[k] == White {
      var d := Min(row, col) - k;
      DiagonalSliceAt(b, row, col, d);
      assert Move(row, col, row - d, col - d);
    }
  }

  /** On a symmetric board the literal tests of grid.py:236-238, which read
      the prefixes of the transposed cell (col, row), say exactly that every
      move from (row, col) reaches a WHITE cell. */
  lemma PrefixesWhiteIsMoveTest(b: Board, row: int, col: int)
    requires IsSquare(b) && Symmetric(b) && InBounds(|b|, row, col)
    ensures PrefixesWhite(b, row, col) <==> AllMovesWhite(b, row, col)
  {
    if PrefixesWhite(b, row, col) {
      PrefixesWhiteGivesMoves(b, row, col);
    }
    if AllMovesWhite(b, row, col) {
      MovesGivePrefixesWhite(b, row, col);
    }
  }

  /** Whether phase 1 turns (x, y) BLACK is the same for (y, x) on a
      symmetric board. */
  lemma NewBlackSymmetric(b: Board, x: int, y: int)
    requires IsSquare(b) && Symmetric(b) && |b| >= 1 && InBounds(|b|, x, y)
    ensures IsNewBlack(b, x, y) <==> IsNewBlack(b, y, x)
  {
    if !AllGray(b) {
      PrefixesWhiteIsMoveTest(b, x, y);
      PrefixesWhiteIsMoveTest(b, y, x);
      if AllMovesWhite(b, x, y) {
        forall x2, y2 | Move(y, x, x2, y2) ensures b[x2][y2] == White {
          assert Move(x, y, y2, x2);
        }
      }
      if AllMovesWhite(b, y, x) {
        forall x2, y2 | Move(x, y, x2, y2) ensures b[x2][y2] == White {
          assert Move(y, x, y2, x2);
        }
      }
    }
  }

  lemma NewWhiteSymmetric(b: Board, x: int, y: int)
    requires IsSquare(b) && Symmetric(b) && |b| >= 1 && InBounds(|b|, x, y)
    ensures IsNewWhite(b, x, y) ==> IsNewWhite(b, y, x)
  {
    if IsNewWhite(b, x, y) {
      var a, c :| InBounds(|b|, a, c) && IsNewBlack(b, a, c) && Move(x, y, a, c);
      NewBlackSymmetric(b, a, c);
      assert Move(y, x, c, a);
    }
  }

  /** `step` keeps `cells[i][j] == cells[j][i]` (grid.py:236-267). */
  lemma RoundPreservesSymmetry(b: Board)
    requires IsSquare(b) && |b| >= 1 && Symmetric(b)
    ensures Symmetric(Round(b))
  {
    forall x, y | 0 <= x < |b| && 0 <= y < |b| ensures Round(b)[x][y] == Round(b)[y][x] {
      RoundAt(b, x, y);
      RoundAt(b, y, x);
      NewBlackSymmetric(b, x, y);
      NewWhiteSymmetric(b, x, y);
      NewWhiteSymmetric(b, y, x);
    }
  }

  // ---------------------------------------------------------------------------
  // The first round

  /** On the all-GRAY board the first `step` makes (0, 0) BLACK, the first row,
      the first column and the main diagonal WHITE, and leaves every other
      cell GRAY (grid.py:230-231, 245-267). */
  lemma FirstRound(n: nat, x: int, y: int)
    requires n >= 1 && InBounds(n, x, y)
    ensures Round(AllGrayBoard(n))[x][y] ==
      if x == 0 && y == 0 then Black
      else if x == 0 || y == 0 || x == y then White
      else Gray
  {
    var b := AllGrayBoard(n);
    RoundAt(b, x, y);
    if x == 0 && y == 0 {
      assert !IsNewWhite(b, x, y);
    } else if x == 0 || y == 0 || x == y {
      assert IsNewBlack(b, 0, 0) && Move(x, y, 0, 0);
    } else {
      assert !IsNewWhite(b, x, y);
    }
  }

  /** One round finishes a 1 x 1 or 2 x 2 grid and no larger one. */
  lemma FirstRoundFinishes(n: nat)
    requires n >= 1
    ensures Done(Round(AllGrayBoard(n))) <==> n <= 2
  {
    var r := Round(AllGrayBoard(n));
    if n <= 2 {
      forall x, y | InBounds(n, x, y) ensures r[x][y] != Gray {
        FirstRound(n, x, y);
      }
    } else {
      FirstRound(n, 1, 2);
    }
  }

  // ---------------------------------------------------------------------------
  // The invariant that every reachable board keeps

  /** Every BLACK cell has only WHITE cells one move away; every cell one move
      before a BLACK cell is WHITE; every WHITE cell has a BLACK cell one move
      away; and the board is symmetric. */
  ghost predicate Sound(b: Board) {
    IsSquare(b) && Symmetric(b) &&
    (forall x, y :: InBounds(|b|, x, y) && b[x][y] == Black ==> AllMovesWhite(b, x, y)) &&
    (forall x, y, a, c :: InBounds(|b|, x, y) && Move(x, y, a, c) && b[a][c] == Black ==> b[x][y] == White) &&
    (forall x, y :: InBounds(|b|, x, y) && b[x][y] == White ==>
       exists a, c :: Move(x, y, a, c) && b[a][c] == Black)
  }

  lemma InitialBoardSound(n: nat)
    ensures Sound(AllGrayBoard(n))
  {
  }

  /** A cell that phase 1 turns BLACK was GRAY and had only WHITE cells one
      move away. */
  lemma NewBlackFacts(b: Board, x: int, y: int)
    requires Sound(b) && |b| >= 1 && InBounds(|b|, x, y) && IsNewBlack(b, x, y)
    ensures b[x][y] == Gray && AllMovesWhite(b, x, y)
  {
    if !AllGray(b) {
      PrefixesWhiteIsMoveTest(b, x, y);
    }
  }

  /** On a sound board no cell that was BLACK, and no cell that turns BLACK in
      this round, is one move before a new BLACK cell. */
  lemma NoBlackIsOverwritten(b: Board, x: int, y: int)
    requires Sound(b) && |b| >= 1 && InBounds(|b|, x, y)
    requires b[x][y] == Black || IsNewBlack(b, x, y)
    ensures !IsNewWhite(b, x, y)
  {
    if IsNewWhite(b, x, y) {
      var a, c :| InBounds(|b|, a, c) && IsNewBlack(b, a, c) && Move(x, y, a, c);
      NewBlackFacts(b, a, c);
      if IsNewBlack(b, x, y) {
        NewBlackFacts(b, x, y);
      }
      assert false;
    }
  }

  /** A cell leaves GRAY at most once: on a sound board a round changes no
      BLACK or WHITE cell, and it never writes GRAY (grid.py:234, 245-267). */
  lemma RoundMonotone(b: Board, x: int, y: int)
    requires Sound(b) && |b| >= 1 && InBounds(|b|, x, y)
    ensures b[x][y] != Gray ==> Round(b)[x][y] == b[x][y]
    ensures Round(b)[x][y] == Gray ==> b[x][y] == Gray
    ensures Round(b)[x][y] == Black <==> b[x][y] == Black || IsNewBlack(b, x, y)
  {
    RoundAt(b, x, y);
    if b[x][y] == Black || IsNewBlack(b, x, y) {
      NoBlackIsOverwritten(b, x, y);
    }
    if IsNewBlack(b, x, y) {
      NewBlackFacts(b, x, y);
    }
  }

  /** `step` keeps the invariant. */
  lemma RoundPreservesSound(b: Board)
    requires Sound(b) && |b| >= 1
    ensures Sound(Round(b))
  {
    RoundPreservesSymmetry(b);
    BlackStaysSound(b);
    WhiteNextToBlack(b);
    WhiteHasBlackMove(b);
  }

  /** After a round, every BLACK cell has only WHITE cells one move away. */
  lemma BlackStaysSound(b: Board)
    requires Sound(b) && |b| >= 1
    ensures var r := Round(b);
      forall x, y :: InBounds(|b|, x, y) && r[x][y] == Black ==> AllMovesWhite(r, x, y)
  {
    var r := Round(b);
    forall x, y | InBounds(|b|, x, y) && r[x][y] == Black ensures AllMovesWhite(r, x, y) {
      RoundMonotone(b, x, y);
      if IsNewBlack(b, x, y) {
        NewBlackFacts(b, x, y);
      }
      forall x2, y2 | Move(x, y, x2, y2) ensures r[x2][y2] == White {
        RoundMonotone(b, x2, y2);
      }
    }
  }

  /** After a round, a cell one move away from a BLACK cell is WHITE. */
  lemma WhiteNextToBlack(b: Board)
    requires Sound(b) && |b| >= 1
    ensures var r := Round(b);
      forall x, y, a, c :: InBounds(|b|, x, y) && Move(x, y, a, c) && r[a][c] == Black ==> r[x][y] == White
  {
    var r := Round(b);
    forall x, y, a, c | InBounds(|b|, x, y) && Move(x, y, a, c) && r[a][c] == Black
      ensures r[x][y] == White
    {
      RoundMonotone(b, a, c);
      RoundAt(b, x, y);
      if b[a][c] == Black {
        RoundMonotone(b, x, y);
      }
    }
  }

  /** After a round, every WHITE cell has a BLACK cell one move away. */
  lemma WhiteHasBlackMove(b: Board)
    requires Sound(b) && |b| >= 1
    ensures var r := Round(b);
      forall x, y :: InBounds(|b|, x, y) && r[x][y] == White ==> exists a, c :: Move(x, y, a, c) && r[a][c] == Black
  {
    var n := |b|;
    var r := Round(b);
    forall x, y | InBounds(n, x, y) && r[x][y] == White
      ensures exists a, c :: Move(x, y, a, c) && r[a][c] == Black
    {
      RoundAt(b, x, y);
      if IsNewWhite(b, x, y) {
        var a, c :| InBounds(n, a, c) && IsNewBlack(b, a, c) && Move(x, y, a, c);
        RoundMonotone(b, a, c);
      } else {
        var a, c :| Move(x, y, a, c) && b[a][c] == Black;
        RoundMonotone(b, a, c);
      }
    }
  }

  // ---------------------------------------------------------------------------
  // Done boards, progress, and what the finished board means

  /** Calling `step` on a finished board changes no cell (grid.py:222-223,
      230-234). */
  lemma DoneIsFixpoint(b: Board)
    requires IsSquare(b) && |b| >= 1 && Done(b)
    ensures Round(b) == b
  {
    var r := Round(b);
    assert !AllGray(b) by { assert b[0][0] != Gray; }
    assert forall a, c :: InBounds(|b|, a, c) ==> !IsNewBlack(b, a, c);
    forall x | 0 <= x < |b| ensures r[x] == b[x] {
      forall y | 0 <= y < |b| ensures r[x][y] == b[x][y] {
        RoundAt(b, x, y);
      }
    }
  }

  /** On a finished board `newBlack` stays empty, so none of the four
      phases of `step` changes a cell. */
  lemma DonePhases(b: Board)
    requires IsSquare(b) && |b| >= 1 && Done(b)
    ensures Frontier(b) == []
    ensures Phase1(b) == b && Phase2(b) == b && Phase3(b) == b
  {
    assert !AllGray(b) by { assert b[0][0] != Gray; }
    if Frontier(b) != [] {
      var p := Frontier(b)[0];
      FrontierMembers(b, p.0, p.1);
    }
    forall x | 0 <= x < |b| ensures Phase1(b)[x] == b[x] && Phase2(b)[x] == b[x] && Phase3(b)[x] == b[x] {
      assert forall y :: 0 <= y < |b| ==> Phase1(b)[x][y] == b[x][y];
      assert forall y :: 0 <= y < |b| ==> Phase2(b)[x][y] == b[x][y];
      assert forall y :: 0 <= y < |b| ==> Phase3(b)[x][y] == b[x][y];
    }
  }

  /** A GRAY cell with no GRAY cell one move away, found by walking down
      from any GRAY cell. */
  lemma {:induction false} SettledGray(b: Board, x: int, y: int) returns (x': int, y': int)
    requires IsSquare(b) && InBounds(|b|, x, y) && b[x][y] == Gray
    ensures InBounds(|b|, x', y') && b[x'][y'] == Gray
    ensures forall x2, y2 :: Move(x', y', x2, y2) ==> b[x2][y2] != Gray
    decreases x + y
  {
    if forall x2, y2 :: Move(x, y, x2, y2) ==> b[x2][y2] != Gray {
      x', y' := x, y;
    } else {
      var x2, y2 :| Move(x, y, x2, y2) && b[x2][y2] == Gray;
      x', y' := SettledGray(b, x2, y2);
    }
  }

  /** On a sound board that is not finished, a round settles some GRAY
      cell, so repeated steps reach a finished board. */
  lemma RoundProgress(b: Board) returns (x: int, y: int)
    requires Sound(b) && |b| >= 1 && !Done(b)
    ensures InBounds(|b|, x, y) && b[x][y] == Gray && Round(b)[x][y] != Gray
  {
    if AllGray(b) {
      x, y := 0, 0;
    } else {
      var x0, y0 :| InBounds(|b|, x0, y0) && b[x0][y0] == Gray;
      x, y := SettledGray(b, x0, y0);
      SettledGrayIsCandidate(b, x, y);
    }
    RoundMonotone(b, x, y);
  }

  /** On a sound board, a GRAY cell whose every move reaches a non-GRAY
      cell passes the test of grid.py:236-238. */
  lemma SettledGrayIsCandidate(b: Board, x: int, y: int)
    requires Sound(b) && InBounds(|b|, x, y) && b[x][y] == Gray
    requires forall x2, y2 :: Move(x, y, x2, y2) ==> b[x2][y2] != Gray
    ensures IsCandidate(b, x, y)
  {
    forall x2, y2 | Move(x, y, x2, y2) ensures b[x2][y2] == White {
      assert InBounds(|b|, x2, y2);
      assert b[x2][y2] != Black;
    }
    PrefixesWhiteIsMoveTest(b, x, y);
  }

  ghost function GrayCells(b: Board): set<Pos>
    requires IsSquare(b)
  {
    set x, y | 0 <= x < |b| && 0 <= y < |b| && b[x][y] == Gray :: (x, y)
  }

  lemma {:induction false} SubsetNotLarger<T>(a: set<T>, b: set<T>)
    requires a <= b
    ensures |a| <= |b|
    decreases a
  {
    if a != {} {
      var e :| e in a;
      SubsetNotLarger(a - {e}, b - {e});
    }
  }

  lemma ProperSubsetSmaller<T>(a: set<T>, b: set<T>)
    requires a < b
    ensures |a| < |b|
  {
    assert b - a != {};
    var e :| e in b - a;
    SubsetNotLarger(a, b - {e});
  }

  /** The number of GRAY cells strictly falls with every round of a sound,
      unfinished board: the driver loop `while not g.isDone(): g.step()`
      ends after at most N*N rounds. */
  lemma GrayCountFalls(b: Board)
    requires Sound(b) && |b| >= 1 && !Done(b)
    ensures |GrayCells(Round(b))| < |GrayCells(b)|
  {
    var r := Round(b);
    forall p | p in GrayCells(r) ensures p in GrayCells(b) {
      RoundMonotone(b, p.0, p.1);
    }
    var x, y := RoundProgress(b);
    assert (x, y) in GrayCells(b) && (x, y) !in GrayCells(r);
    ProperSubsetSmaller(GrayCells(r), GrayCells(b));
  }

  /** P-positions of Wythoff's game: no move reaches a P-position. */
  ghost predicate IsP(x: nat, y: nat)
    decreases x + y
  {
    forall x2: nat, y2: nat :: Move(x, y, x2, y2) ==> !IsP(x2, y2)
  }

  /** A finished sound board is the table of Wythoff's game: its BLACK cells
      are exactly the P-positions. */
  lemma {:induction false} DoneBoardIsWythoff(b: Board, x: nat, y: nat)
    requires Sound(b) && Done(b) && InBounds(|b|, x, y)
    ensures b[x][y] == Black <==> IsP(x, y)
    decreases x + y
  {
    if b[x][y] == Black {
      forall x2: nat, y2: nat | Move(x, y, x2, y2) ensures !IsP(x2, y2) {
        DoneBoardIsWythoff(b, x2, y2);
      }
    } else {
      var a, c :| Move(x, y, a, c) && b[a][c] == Black;
      DoneBoardIsWythoff(b, a, c);
      assert !IsP(x, y);
    }
  }
}
