/** The pixel buffer `Canvas` (grid.py:16-41) and the content of the plain
    PPM text it writes. */
module Raster {
  import opened Colors
  import Matrix

  /** What `renderPPM` writes to one file: the header fields `P3`, width,
      height and 255, then one `r g b` line per pixel. */
  datatype Frame = Frame(magic: string, width: int, height: int, maxValue: int, triplets: seq<Rgb>)

  /** One row of pixels, left to right, split into channels. */
  function Line(row: seq<int>): (l: seq<Rgb>)
    ensures |l| == |row|
    ensures forall c :: 0 <= c < |row| ==> l[c] == Split(row[c])
  {
    seq(|row|, c requires 0 <= c < |row| => Split(row[c]))
  }

  /** The pixel lines in the order of grid.py:32-35: the last row first,
      the first row last. */
  function Scan(rows: seq<seq<int>>): seq<Rgb>
  {
    if rows == [] then [] else Scan(rows[1..]) + Line(rows[0])
  }

  function PpmFrame(width: int, height: int, rows: seq<seq<int>>): Frame
  {
    Frame("P3", width, height, 255, Scan(rows))
  }

  predicate Rectangular(rows: seq<seq<int>>, width: int) {
    forall r :: 0 <= r < |rows| ==> |rows[r]| == width
  }

  /** Where the pixel in row r, column c of a buffer with the given height
      and width sits in the frame body. */
  function TripletIndex(height: int, width: int, r: int, c: int): int {
    (height - 1 - r) * width + c
  }

  /** A frame body holds width x height triplets, and the pixel in row r,
      column c is triplet number (height - 1 - r) * width + c. */
  lemma {:induction false} ScanLayout(rows: seq<seq<int>>, width: nat, r: int, c: int)
    requires Rectangular(rows, width)
    requires 0 <= r < |rows| && 0 <= c < width
    ensures |Scan(rows)| == |rows| * width
    ensures 0 <= TripletIndex(|rows|, width, r, c) < |Scan(rows)|
    ensures Scan(rows)[TripletIndex(|rows|, width, r, c)] == Split(rows[r][c])
  {
    ScanLength(rows, width);
    var n := |rows|;
    if r == 0 {
      ScanLength(rows[1..], width);
      assert (n - 1) * width + c == |Scan(rows[1..])| + c;
    } else {
      ScanLayout(rows[1..], width, r - 1, c);
      assert rows[1..][r - 1] == rows[r];
      assert (n - 1 - r) * width + c < (n - 1) * width by {
        assert (n - 1 - r) * width + c < (n - 1 - r) * width + width;
        assert (n - 1 - r) * width + width == (n - r) * width;
        assert (n - r) * width <= (n - 1) * width;
      }
    }
  }

  lemma {:induction false} ScanLength(rows: seq<seq<int>>, width: nat)
    requires Rectangular(rows, width)
    ensures |Scan(rows)| == |rows| * width
  {
    if rows != [] {
      ScanLength(rows[1..], width);
      assert |rows| * width == (|rows| - 1) * width + width;
    }
  }

  /** Reading a frame body back: each block of `width` triplets, from the
      end of the body towards its start, is one row of the buffer. */
  function Unscan(ts: seq<Rgb>, width: nat): seq<seq<int>>
    requires width > 0
    decreases |ts|
  {
    if |ts| < width then []
    else
      [seq(width, c requires 0 <= c < width => Pack(ts[|ts| - width + c]))]
        + Unscan(ts[..|ts| - width], width)
  }

  /** Rendering is lossless: reading the triplets of a frame back gives the
      buffer's colours. */
  lemma {:induction false} ScanRoundTrip(rows: seq<seq<int>>, width: nat)
    requires width > 0 && Rectangular(rows, width)
    requires forall r, c :: 0 <= r < |rows| && 0 <= c < width ==> IsColor(rows[r][c])
    ensures Unscan(Scan(rows), width) == rows
  {
    if rows != [] {
      var rest, last := Scan(rows[1..]), Line(rows[0]);
      ScanRoundTrip(rows[1..], width);
      var ts := rest + last;
      assert Scan(rows) == ts;
      assert |ts| - width == |rest|;
      assert ts[..|ts| - width] == rest;
      var first := seq(width, c requires 0 <= c < width => Pack(ts[|ts| - width + c]));
      forall c | 0 <= c < width ensures first[c] == rows[0][c] {
        assert ts[|rest| + c] == last[c];
        PackSplit(rows[0][c]);
      }
      assert first == rows[0];
      calc {
        Unscan(Scan(rows), width);
        [first] + Unscan(rest, width);
        [rows[0]] + rows[1..];
        rows;
      }
    }
  }

  lemma LineGrows(row: seq<int>, col: int)
    requires 0 <= col < |row|
    ensures Line(row[..col + 1]) == Line(row[..col]) + [Split(row[col])]
  {
    assert row[..col + 1][col] == row[col];
  }

  class Canvas {
    /** Indexed `[row, col]`; the source allocates it with shape
        (width, height), so `Height()` is its first dimension. */
    const pixels: array2<int>
    var frameNum: nat

    constructor (width: nat, height: nat, background: int)
      ensures pixels.Length0 == width && pixels.Length1 == height && fresh(pixels)
      ensures forall i, j :: 0 <= i < width && 0 <= j < height ==> pixels[i, j] == background
      ensures frameNum == 0
    {
      pixels := new int[width, height]((_, _) => background);
      frameNum := 0;
    }

    /** `pixels.shape[1]` (grid.py:22-23). */
    function Width(): nat {
      pixels.Length1
    }

    /** `pixels.shape[0]` (grid.py:25-26). */
    function Height(): nat {
      pixels.Length0
    }

    /** The text `renderPPM` writes, as a value; the counter that numbers the
        files goes up by exactly one (grid.py:28-38). */
    method RenderPPM() returns (frame: Frame)
      modifies this`frameNum
      ensures frameNum == old(frameNum) + 1
      ensures frame == PpmFrame(Width(), Height(), Matrix.Snapshot(pixels))
    {
      ghost var rows := Matrix.Snapshot(pixels);
      var body: seq<Rgb> := [];
      for row := Height() downto 0
        invariant body == Scan(rows[row..]) && frameNum == old(frameNum)
      {
        ghost var below := body;
        for col := 0 to Width()
          invariant body == below + Line(rows[row][..col]) && frameNum == old(frameNum)
        {
          var color := pixels[row, col];
          LineGrows(rows[row], col);
          body := body + [Split(color)];
        }
        assert rows[row][..Width()] == rows[row];
        assert rows[row..][1..] == rows[row + 1..];
      }
      assert rows[0..] == rows;
      frame := Frame("P3", Width(), Height(), 255, body);
      frameNum := frameNum + 1;
    }

    /** `pixels *= 0` (grid.py:40-41); the frame counter is not touched. */
    method Reset()
      modifies pixels
      ensures forall i, j :: 0 <= i < pixels.Length0 && 0 <= j < pixels.Length1 ==> pixels[i, j] == 0
    {
      forall i, j | 0 <= i < pixels.Length0 && 0 <= j < pixels.Length1 {
        pixels[i, j] := pixels[i, j] * 0;
      }
    }
  }
}
