/** The LoL shield's framebuffer, src/lol/lol.cxx, and the raster of examples/c++/lol.cxx that
    flips one pixel per turn. */
module Lol {
  import opened Wrappers

  const LOL_X: nat := 14
  const LOL_Y: nat := 9

  predicate OnFrame(x: int, y: int) {
    0 <= x < LOL_X && 0 <= y < LOL_Y
  }

  /** A pixel is lit when its byte is not 0. */
  predicate Lit(frame: seq<Byte>, x: int, y: int)
    requires |frame| == LOL_X * LOL_Y && OnFrame(x, y)
  {
    frame[x + LOL_X * y] != 0
  }

  class Shield {
    const framebuffer: array<Byte>

    ghost predicate Valid()
      reads this
    {
      framebuffer.Length == LOL_X * LOL_Y
    }

    constructor ()
      ensures Valid() && fresh(framebuffer) && framebuffer[..] == seq(14 * 9, _ => 0)
    {
      framebuffer := new Byte[LOL_X * LOL_Y](_ => 0);
    }

    /** Coordinates off the frame are an error and change nothing. */
    method SetPixel(x: int, y: int, pixel: bool) returns (ok: bool)
      requires Valid()
      modifies framebuffer
      ensures ok <==> 0 <= x < 14 && 0 <= y < 9
      ensures framebuffer[..] == if ok then old(framebuffer[..])[x + 14 * y := if pixel then 1 else 0] else old(framebuffer[..])
    {
      if x < 0 || y < 0 || x >= LOL_X || y >= LOL_Y {
        return false;
      }
      framebuffer[x + LOL_X * y] := if pixel then 1 else 0;
      return true;
    }

    method GetPixel(x: int, y: int) returns (ok: bool, pixel: bool)
      requires Valid()
      ensures ok <==> 0 <= x < 14 && 0 <= y < 9
      ensures ok ==> (pixel <==> framebuffer[x + 14 * y] != 0)
    {
      if x < 0 || y < 0 || x >= LOL_X || y >= LOL_Y {
        return false, false;
      }
      return true, framebuffer[x + LOL_X * y] != 0;
    }
  }

  // ---------- The cursor ----------

  datatype Cursor = Cursor(x: int, y: int)

  /** The loop wraps after 13 columns, one fewer than the frame has. */
  function Advance(c: Cursor): Cursor {
    var x := c.x + 1;
    var (x', y') := if x == 13 then (0, c.y + 1) else (x, c.y);
    Cursor(x', if y' == 9 then 0 else y')
  }

  function CursorAt(k: nat): Cursor {
    if k == 0 then Cursor(0, 0) else Advance(CursorAt(k - 1))
  }

  /** The cursor scans 13 columns by 9 rows; it never leaves the frame. */
  lemma {:induction false} CursorIsRaster(k: nat)
    ensures CursorAt(k) == Cursor(k % 13, (k / 13) % 9) && OnFrame(CursorAt(k).x, CursorAt(k).y)
    decreases k
  {
    if k > 0 {
      CursorIsRaster(k - 1);
      NextCell(k - 1);
    }
  }

  lemma NextCell(j: nat)
    ensures Advance(Cursor(j % 13, (j / 13) % 9)) == Cursor((j + 1) % 13, ((j + 1) / 13) % 9)
  {
    var r, q := j % 13, j / 13;
    assert j == 13 * q + r;
    if r == 12 {
      assert (j + 1) / 13 == q + 1 && (j + 1) % 13 == 0;
    } else {
      assert (j + 1) / 13 == q && (j + 1) % 13 == r + 1;
    }
  }

  // ---------- The frame after k turns ----------

  function FrameAt(frame: seq<Byte>, k: nat): (r: seq<Byte>)
    requires |frame| == LOL_X * LOL_Y
    ensures |r| == |frame|
  {
    if k == 0 then frame
    else
      CursorIsRaster(k - 1);
      var c, before := CursorAt(k - 1), FrameAt(frame, k - 1);
      before[c.x + LOL_X * c.y := if Lit(before, c.x, c.y) then 0 else 1]
  }

  method Raster(sensor: Shield, turns: nat)
    requires sensor.Valid()
    modifies sensor.framebuffer
    ensures sensor.framebuffer[..] == FrameAt(old(sensor.framebuffer[..]), turns)
  {
    ghost var frame := sensor.framebuffer[..];
    var x, y := 0, 0;
    var k := 0;
    while k < turns
      invariant 0 <= k <= turns
      invariant Cursor(x, y) == CursorAt(k)
      invariant sensor.framebuffer[..] == FrameAt(frame, k)
    {
      CursorIsRaster(k);
      var _, pixel := sensor.GetPixel(x, y);
      var _ := sensor.SetPixel(x, y, !pixel);
      x := x + 1;
      if x == 13 {
        x := 0;
        y := y + 1;
      }
      if y == 9 {
        y := 0;
      }
      k := k + 1;
    }
  }

  // ---------- Flips ----------

  /** How many of the first `k` turns flip the pixel at (x, y). */
  function Flips(k: nat, x: int, y: int): nat {
    if k == 0 then 0 else Flips(k - 1, x, y) + (if CursorAt(k - 1) == Cursor(x, y) then 1 else 0)
  }

  lemma CellsApart(x: int, y: int, x': int, y': int)
    requires OnFrame(x, y) && OnFrame(x', y')
    ensures x + LOL_X * y == x' + LOL_X * y' <==> x == x' && y == y'
  {
  }

  /** A pixel is its initial value, inverted once per flip; a pixel never flipped keeps its byte. */
  lemma {:induction false} PixelIsFlipped(frame: seq<Byte>, k: nat, x: int, y: int)
    requires |frame| == LOL_X * LOL_Y && OnFrame(x, y)
    ensures Lit(FrameAt(frame, k), x, y) <==> (Lit(frame, x, y) != (Flips(k, x, y) % 2 == 1))
    ensures Flips(k, x, y) == 0 ==> FrameAt(frame, k)[x + LOL_X * y] == frame[x + LOL_X * y]
    decreases k
  {
    hide CursorAt;
    if k > 0 {
      PixelIsFlipped(frame, k - 1, x, y);
      CursorIsRaster(k - 1);
      var c := CursorAt(k - 1);
      CellsApart(c.x, c.y, x, y);
    }
  }

  lemma ScanArithmetic(q: nat, m: nat)
    requires m < 117
    ensures (117 * q + m) % 13 == m % 13
    ensures ((117 * q + m) / 13) % 9 == m / 13
  {
    assert 117 * q + m == 13 * (9 * q + m / 13) + m % 13;
    assert (117 * q + m) / 13 == 9 * q + m / 13;
  }

  /** Turn `m` of a scan flips the pixel in column m mod 13 of row m div 13. */
  lemma CursorInScan(q: nat, m: nat, x: int, y: int)
    requires m < 117 && OnFrame(x, y)
    ensures CursorAt(117 * q + m) == Cursor(x, y) <==> x < 13 && m == 13 * y + x
  {
    CursorIsRaster(117 * q + m);
    ScanArithmetic(q, m);
  }

  /** Every full scan of 117 turns flips each pixel of the first 13 columns exactly once, in turn
      13y + x of the scan; the last column is never flipped. */
  lemma {:induction false} FlipsPerScan(q: nat, m: nat, x: int, y: int)
    requires m <= 117 && OnFrame(x, y)
    ensures Flips(117 * q + m, x, y) == if x < 13 then q + (if 13 * y + x < m then 1 else 0) else 0
    decreases q, m
  {
    hide CursorAt;
    if m > 0 {
      FlipsPerScan(q, m - 1, x, y);
      CursorInScan(q, m - 1, x, y);
    } else if q > 0 {
      FlipsPerScan(q - 1, 117, x, y);
      assert 117 * q + 0 == 117 * (q - 1) + 117;
    }
  }

  /** After q scans a pixel is complemented exactly when q is odd and the pixel is not in the last
      column, which the loop never reaches: one scan complements the other 13 columns, two
      restore the frame. */
  lemma ScansComplement(frame: seq<Byte>, q: nat, x: int, y: int)
    requires |frame| == LOL_X * LOL_Y && OnFrame(x, y)
    ensures Lit(FrameAt(frame, 117 * q), x, y) != Lit(frame, x, y) <==> x < 13 && q % 2 == 1
  {
    hide FrameAt, Flips, Lit;
    PixelIsFlipped(frame, 117 * q, x, y);
    FlipsPerScan(q, 0, x, y);
    assert 117 * q + 0 == 117 * q;
  }
}
