/** The LED strip driver of src/lpd8806/lpd8806.cxx and the bouncing scanner of
    examples/c++/lpd8806.cxx that draws on it. */
module Lpd8806 {
  import opened Wrappers

  /** The three bytes of one pixel, as they stand in the buffer. */
  datatype Rgb = Rgb(r: Byte, g: Byte, b: Byte)

  /** `x | 0x80`: the strip wants the top bit of every colour byte set. */
  function Or80(x: Byte): Byte {
    if x < 128 then x + 128 else x
  }

  function Lit(r: Byte, g: Byte, b: Byte): Rgb {
    Rgb(Or80(r), Or80(g), Or80(b))
  }

  const DARK: Rgb := Rgb(0x80, 0x80, 0x80)

  /** C's conversion of an `int` argument to the `uint16_t` parameter. */
  function ToU16(x: int): nat {
    x % 65536
  }

  function LatchBytes(count: Byte): nat {
    (count + 31) / 32
  }

  /** A buffer holds the colours in green, red, blue order, then the latch bytes. */
  ghost predicate Encodes(bytes: seq<Byte>, colors: seq<Rgb>, latch: nat) {
    && |bytes| == 3 * |colors| + latch
    && (forall i :: 0 <= i < |colors| ==>
          bytes[3 * i] == colors[i].g && bytes[3 * i + 1] == colors[i].r && bytes[3 * i + 2] == colors[i].b)
    && (forall j :: 3 * |colors| <= j < |bytes| ==> bytes[j] == 0)
  }

  /** A write to one pixel; off the strip it does nothing. */
  function Put(f: seq<Rgb>, i: int, c: Rgb): seq<Rgb> {
    if 0 <= i < |f| then f[i := c] else f
  }

  class Strip {
    /** The member is one byte wide, whatever the constructor is asked for. */
    const count: Byte
    const pixels: array<Byte>
    /** The buffers written to the bus by `show`. */
    var wire: seq<seq<Byte>>
    ghost var colors: seq<Rgb>
    ghost var shown: seq<seq<Rgb>>

    ghost predicate Valid()
      reads this, pixels
    {
      && |colors| == count
      && Encodes(pixels[..], colors, LatchBytes(count))
      && |wire| == |shown|
      && forall k :: 0 <= k < |wire| ==> Encodes(wire[k], shown[k], LatchBytes(count))
    }

    constructor (pixelCount: nat)
      requires pixelCount < 65536
      ensures Valid() && fresh(pixels)
      ensures count == pixelCount % 256
      ensures colors == seq(count, _ => DARK) && wire == []
    {
      count := pixelCount % 256;
      var dataBytes := 3 * (pixelCount % 256);
      pixels := new Byte[dataBytes + (pixelCount % 256 + 31) / 32](i => if i < dataBytes then 0x80 else 0);
      wire, shown := [], [];
      colors := seq(pixelCount % 256, _ => DARK);
    }

    method SetPixelColor(pixelOffset: nat, r: Byte, g: Byte, b: Byte)
      requires Valid() && pixelOffset < 65536
      modifies pixels, this`colors
      ensures Valid()
      ensures colors == Put(old(colors), pixelOffset, Lit(r, g, b))
    {
      if pixelOffset < count {
        pixels[3 * pixelOffset] := Or80(g);
        pixels[3 * pixelOffset + 1] := Or80(r);
        pixels[3 * pixelOffset + 2] := Or80(b);
        colors := colors[pixelOffset := Lit(r, g, b)];
      }
    }

    method Show()
      requires Valid()
      modifies this`wire, this`shown
      ensures Valid() && shown == old(shown) + [colors] && wire == old(wire) + [pixels[..]]
    {
      wire := wire + [pixels[..]];
      shown := shown + [colors];
    }

    function GetStripLength(): nat {
      count
    }
  }

  // ---------- What one turn of the scanner draws ----------

  datatype Shade = Shade(r: Byte, g: Byte, b: Byte)

  function Full(c: Shade): Rgb {
    Lit(c.r, c.g, c.b)
  }

  function Half(c: Shade): Rgb {
    Lit(c.r / 2, c.g / 2, c.b / 2)
  }

  function Quarter(c: Shade): Rgb {
    Lit(c.r / 4, c.g / 4, c.b / 4)
  }

  /** The colour at signed distance `d` from the cursor, for |d| <= 2. */
  function Pulse(c: Shade, d: int): Rgb {
    if d == 0 then Full(c) else if d == 1 || d == -1 then Half(c) else Quarter(c)
  }

  predicate Near(i: int, pos: int) {
    -2 <= i - pos <= 2
  }

  /** The frame with the pulse drawn around `pos`, and with it erased again. */
  function Drawn(f: seq<Rgb>, pos: int, c: Shade): seq<Rgb> {
    seq(|f|, i requires 0 <= i < |f| => if Near(i, pos) then Pulse(c, i - pos) else f[i])
  }

  function Erased(f: seq<Rgb>, pos: int): seq<Rgb> {
    seq(|f|, i requires 0 <= i < |f| => if Near(i, pos) then DARK else f[i])
  }

  /** A position off the left end becomes a large unsigned offset, which is off the strip too. */
  lemma OffTheStrip(x: int)
    requires -2 <= x < 258
    ensures ToU16(x) == if x < 0 then x + 65536 else x
  {
  }

  lemma FivePuts(f: seq<Rgb>, pos: int, c: Shade)
    ensures Put(Put(Put(Put(Put(f, pos - 2, Quarter(c)), pos - 1, Half(c)), pos, Full(c)), pos + 1, Half(c)), pos + 2, Quarter(c))
         == Drawn(f, pos, c)
  {
    hide Lit;
  }

  method DrawPulse(sensor: Strip, pos: int, c: Shade)
    requires sensor.Valid() && 0 <= pos < 256
    modifies sensor.pixels, sensor`colors
    ensures sensor.Valid()
    ensures sensor.colors == Drawn(old(sensor.colors), pos, c)
  {
    ghost var f := sensor.colors;
    forall x, g: seq<Rgb>, v | -2 <= x < 258 && |g| < 256
      ensures Put(g, ToU16(x), v) == Put(g, x, v)
    {
      OffTheStrip(x);
    }
    FivePuts(f, pos, c);
    sensor.SetPixelColor(ToU16(pos - 2), c.r / 4, c.g / 4, c.b / 4);
    sensor.SetPixelColor(ToU16(pos - 1), c.r / 2, c.g / 2, c.b / 2);
    sensor.SetPixelColor(ToU16(pos), c.r, c.g, c.b);
    sensor.SetPixelColor(ToU16(pos + 1), c.r / 2, c.g / 2, c.b / 2);
    sensor.SetPixelColor(ToU16(pos + 2), c.r / 4, c.g / 4, c.b / 4);
  }

  method ErasePulse(sensor: Strip, pos: int)
    requires sensor.Valid() && 0 <= pos < 256
    modifies sensor.pixels, sensor`colors
    ensures sensor.Valid()
    ensures sensor.colors == Erased(old(sensor.colors), pos)
  {
    var j := -2;
    while j <= 2
      invariant -2 <= j <= 3
      invariant sensor.Valid() && |sensor.colors| == |old(sensor.colors)|
      invariant forall i :: 0 <= i < |sensor.colors| ==>
                  sensor.colors[i] == if -2 <= i - pos < j then DARK else old(sensor.colors)[i]
    {
      sensor.SetPixelColor(ToU16(pos + j), 0, 0, 0);
      j := j + 1;
    }
  }

  // ---------- The cursor ----------

  datatype Cursor = Cursor(pos: int, dir: int)

  /** `pos += dir`, bouncing off the ends of the strip. */
  function Bounce(k: Cursor, length: nat): Cursor {
    var pos := k.pos + k.dir;
    if pos < 0 then Cursor(1, -k.dir)
    else if pos >= length then Cursor(length - 2, -k.dir)
    else Cursor(pos, k.dir)
  }

  function CursorAt(length: nat, k: nat): Cursor {
    if k == 0 then Cursor(0, 1) else Bounce(CursorAt(length, k - 1), length)
  }

  function Period(length: nat): nat
    requires length >= 2
  {
    2 * (length - 1)
  }

  /** The triangle wave between 0 and length - 1. */
  function Wave(length: nat, k: nat): nat
    requires length >= 2
  {
    var m := k % Period(length);
    if m <= length - 1 then m else Period(length) - m
  }

  /** The cursor is the triangle wave; it never leaves the strip. */
  lemma {:induction false} CursorIsWave(length: nat, k: nat)
    requires length >= 2
    ensures CursorAt(length, k).pos == Wave(length, k) < length
    ensures CursorAt(length, k).dir == if k == 0 || 0 < k % Period(length) < length then 1 else -1
    decreases k
  {
    if k > 0 {
      CursorIsWave(length, k - 1);
      NextMod(k - 1, Period(length));
    }
  }

  lemma NextMod(k: nat, p: nat)
    requires p >= 2
    ensures (k + 1) % p == if k % p == p - 1 then 0 else k % p + 1
  {
    var q, m := k / p, k % p;
    assert k == p * q + m;
    if m == p - 1 {
      assert k + 1 == p * (q + 1);
      ModOf(q + 1, 0, p);
    } else {
      ModOf(q, m + 1, p);
    }
  }

  lemma Multiple(p: int, d: int)
    requires p >= 0
    ensures d >= 1 ==> p * d >= p
    ensures d <= -1 ==> p * d <= 0 - p
  {
    if d >= 1 {
      assert p * d == p + p * (d - 1);
    } else if d <= -1 {
      assert p * d == p * (d + 1) - p;
    }
  }

  lemma ModOf(q: nat, m: nat, p: nat)
    requires m < p
    ensures (p * q + m) % p == m
  {
    var x := p * q + m;
    var d := q - x / p;
    assert p * d == p * q - p * (x / p) == x % p - m;
    Multiple(p, d);
  }

  // ---------- Coverage ----------

  /** How many of the first `n` turns have the cursor on pixel `i`. */
  function Visits(length: nat, n: nat, i: nat): nat
    requires length >= 2
  {
    if n == 0 then 0 else Visits(length, n - 1, i) + (if CursorAt(length, n - 1).pos == i then 1 else 0)
  }

  /** Visits within the first `m` turns of a period: once going up, and once coming down. */
  function VisitsWithin(length: nat, m: nat, i: nat): nat
    requires length >= 2 && i < length
  {
    (if i < m then 1 else 0) + (if 0 < i < length - 1 && Period(length) - i < m then 1 else 0)
  }

  lemma {:induction false} VisitsOverPeriods(length: nat, q: nat, m: nat, i: nat)
    requires length >= 2 && i < length && m <= Period(length)
    ensures Visits(length, Period(length) * q + m, i)
         == q * VisitsWithin(length, Period(length), i) + VisitsWithin(length, m, i)
    decreases q, m
  {
    hide CursorAt;
    var p := Period(length);
    if m > 0 {
      VisitsOverPeriods(length, q, m - 1, i);
      CursorIsWave(length, p * q + (m - 1));
      ModOf(q, m - 1, p);
    } else if q > 0 {
      VisitsOverPeriods(length, q - 1, p, i);
      assert p * q + 0 == p * (q - 1) + p;
      assert q * VisitsWithin(length, p, i) == (q - 1) * VisitsWithin(length, p, i) + VisitsWithin(length, p, i);
    }
  }

  /** One call of the scanner centres the pulse exactly four times on each end of the strip, and
      exactly eight times on every pixel between. */
  lemma ExactCoverage(length: nat, i: nat)
    requires length >= 2 && i < length
    ensures Visits(length, (length - 1) * 8, i) == if i == 0 || i == length - 1 then 4 else 8
  {
    VisitsOverPeriods(length, 4, 0, i);
    assert Period(length) * 4 + 0 == (length - 1) * 8;
  }

  // ---------- The frames ----------

  /** The number of turns of one call; the bound is computed in `int`, so an empty strip has none. */
  function Turns(length: nat): nat {
    if length == 0 then 0 else (length - 1) * 8
  }

  /** The buffer at the start of turn `k`. */
  function FrameAt(f: seq<Rgb>, k: nat): seq<Rgb> {
    if k == 0 then f else Erased(FrameAt(f, k - 1), CursorAt(|f|, k - 1).pos)
  }

  /** What turn `k` shows. */
  function ShownAt(f: seq<Rgb>, k: nat, c: Shade): seq<Rgb> {
    Drawn(FrameAt(f, k), CursorAt(|f|, k).pos, c)
  }

  lemma {:induction false} FrameLength(f: seq<Rgb>, k: nat)
    ensures |FrameAt(f, k)| == |f|
    decreases k
  {
    if k > 0 {
      FrameLength(f, k - 1);
    }
  }

  lemma EraseAfterDraw(f: seq<Rgb>, pos: int, c: Shade)
    ensures Erased(Drawn(f, pos, c), pos) == Erased(f, pos)
  {
  }

  method Scanner(sensor: Strip, c: Shade)
    requires sensor.Valid()
    modifies sensor.pixels, sensor`colors, sensor`wire, sensor`shown
    ensures sensor.Valid()
    ensures var f := old(sensor.colors);
            && sensor.colors == FrameAt(f, Turns(|f|))
            && sensor.shown == old(sensor.shown) + seq(Turns(|f|), k requires 0 <= k => ShownAt(f, k, c))
  {
    hide Drawn, Erased, Period, Wave;
    ghost var f, shown := sensor.colors, sensor.shown;
    var pos, dir := 0, 1;
    var i := 0;
    while i < (sensor.GetStripLength() - 1) * 8
      invariant 0 <= i && (i <= Turns(|f|) || i == 0)
      invariant sensor.Valid() && |f| == sensor.count
      invariant Cursor(pos, dir) == CursorAt(|f|, i)
      invariant sensor.colors == FrameAt(f, i)
      invariant sensor.shown == shown + seq(i, k requires 0 <= k => ShownAt(f, k, c))
    {
      CursorIsWave(|f|, i);
      DrawPulse(sensor, pos, c);
      sensor.Show();
      ErasePulse(sensor, pos);
      EraseAfterDraw(FrameAt(f, i), pos, c);
      pos := pos + dir;
      if pos < 0 {
        pos := 1;
        dir := -dir;
      } else if pos >= sensor.GetStripLength() {
        pos := sensor.GetStripLength() - 2;
        dir := -dir;
      }
      i := i + 1;
    }
  }

  /** The frame the comment in the source describes: full, half and quarter colour at distance 0,
      1 and 2 from the cursor, and darkness elsewhere. */
  function Glow(length: nat, pos: int, c: Shade): seq<Rgb> {
    seq(length, i => if Near(i, pos) then Pulse(c, i - pos) else DARK)
  }

  function AllDark(length: nat): seq<Rgb> {
    seq(length, _ => DARK)
  }

  lemma {:induction false} DarkStaysDark(length: nat, k: nat)
    ensures FrameAt(AllDark(length), k) == AllDark(length)
    decreases k
  {
    if k > 0 {
      DarkStaysDark(length, k - 1);
    }
  }

  /** From a dark strip every frame shown is the pulse and nothing else. */
  lemma FramesAreGlow(length: nat, k: nat, c: Shade)
    ensures ShownAt(AllDark(length), k, c) == Glow(length, CursorAt(length, k).pos, c)
  {
    DarkStaysDark(length, k);
  }

  lemma StaysErased(f: seq<Rgb>, k: nat, i: nat)
    requires i < |f| && |FrameAt(f, k)| == |f| && FrameAt(f, k)[i] == DARK
    ensures FrameAt(f, k + 1)[i] == DARK
  {
    hide CursorAt;
  }

  /** On the way up the cursor is on pixel `i` in turn `i`. */
  lemma GoingUp(length: nat, i: nat)
    requires length >= 2 && i < length
    ensures CursorAt(length, i).pos == i
  {
    hide CursorAt;
    CursorIsWave(length, i);
    ModOf(0, i, Period(length));
    assert Period(length) * 0 + i == i;
  }

  lemma ErasedInTurn(f: seq<Rgb>, i: nat)
    requires |f| >= 2 && i < |f| && |FrameAt(f, i)| == |f|
    ensures FrameAt(f, i + 1)[i] == DARK
  {
    hide CursorAt, Wave, Period;
    GoingUp(|f|, i);
  }

  lemma {:induction false} ErasedSoFar(f: seq<Rgb>, k: nat, i: nat)
    requires |f| >= 2 && i < |f| && i < k
    ensures |FrameAt(f, k)| == |f| && FrameAt(f, k)[i] == DARK
    decreases k
  {
    hide CursorAt, FrameAt;
    FrameLength(f, k);
    FrameLength(f, k - 1);
    if i < k - 1 {
      ErasedSoFar(f, k - 1, i);
      StaysErased(f, k - 1, i);
    } else {
      ErasedInTurn(f, i);
    }
  }

  /** The scanner cleans up: whatever was on the strip before, every pixel is dark on exit, except
      that a strip of one pixel is never touched. */
  lemma DarkOnExitIff(f: seq<Rgb>)
    ensures FrameAt(f, Turns(|f|)) == AllDark(|f|) <==> |f| != 1 || f == AllDark(1)
  {
    var end := FrameAt(f, Turns(|f|));
    FrameLength(f, Turns(|f|));
    if |f| >= 2 {
      forall i | 0 <= i < |f|
        ensures end[i] == DARK
      {
        ErasedSoFar(f, Turns(|f|), i);
      }
    }
  }

  // ---------- The bytes of a frame ----------

  /** The top bit is set and the other seven are those given. */
  lemma TopBitSet(x: Byte)
    ensures Or80(x) >= 128 && Or80(x) % 128 == x % 128
  {
  }

  /** The share of a colour at distance `d` from the cursor: all, half, a quarter, nothing. */
  function Share(x: Byte, d: int): nat {
    if d == 0 then x else if d == 1 || d == -1 then x / 2 else if d == 2 || d == -2 then x / 4 else 0
  }

  /** The bytes sent for a frame with the cursor at `p`: green, red and blue for each pixel, with
      the top bit set, then one latch byte of 0 for every 32 pixels begun. */
  ghost predicate PulseBytes(bytes: seq<Byte>, n: nat, p: int, r: Byte, g: Byte, b: Byte) {
    && |bytes| == 3 * n + (n + 31) / 32
    && (forall i :: 0 <= i < n ==>
          && bytes[3 * i] == 128 + Share(g, i - p) % 128
          && bytes[3 * i + 1] == 128 + Share(r, i - p) % 128
          && bytes[3 * i + 2] == 128 + Share(b, i - p) % 128)
    && (forall j :: 3 * n <= j < |bytes| ==> bytes[j] == 0)
  }

  /** The bytes of a lit frame: the pulse in the given colour and darkness elsewhere. */
  lemma GlowBytes(bytes: seq<Byte>, n: nat, p: int, c: Shade)
    requires n < 256 && Encodes(bytes, Glow(n, p, c), LatchBytes(n))
    ensures PulseBytes(bytes, n, p, c.r, c.g, c.b)
  {
    var frame := Glow(n, p, c);
    forall i | 0 <= i < n
      ensures bytes[3 * i] == 128 + Share(c.g, i - p) % 128
      ensures bytes[3 * i + 1] == 128 + Share(c.r, i - p) % 128
      ensures bytes[3 * i + 2] == 128 + Share(c.b, i - p) % 128
    {
      PulseShares(c, i - p);
      assert frame[i] == if Near(i, p) then Pulse(c, i - p) else DARK;
    }
  }

  lemma PulseShares(c: Shade, d: int)
    ensures -2 <= d <= 2 ==>
              Pulse(c, d) == Rgb(128 + Share(c.r, d) % 128, 128 + Share(c.g, d) % 128, 128 + Share(c.b, d) % 128)
  {
    forall x: Byte
      ensures Or80(x) == 128 + x % 128
    {
      TopBitSet(x);
    }
  }

  /** The red frame of the program, in numbers: on the wire the middle byte is 0xFF at the cursor,
      0xBF next to it, 0x9F two places off and 0x80 elsewhere; all other colour bytes are 0x80. */
  lemma RedBytes(bytes: seq<Byte>, n: nat, p: int, i: nat)
    requires PulseBytes(bytes, n, p, 127, 0, 0) && i < n
    ensures bytes[3 * i] == 0x80 && bytes[3 * i + 2] == 0x80
    ensures bytes[3 * i + 1] == if i == p then 0xFF else if i - p == 1 || p - i == 1 then 0xBF
                                else if i - p == 2 || p - i == 2 then 0x9F else 0x80
  {
  }

  /** The frames sent from place `from` on are those of one call of the scanner in one colour. */
  ghost predicate Swept(wire: seq<seq<Byte>>, from: nat, n: nat, r: Byte, g: Byte, b: Byte)
    requires n >= 2
  {
    from + (n - 1) * 8 <= |wire|
    && forall k :: 0 <= k < (n - 1) * 8 ==> PulseBytes(wire[from + k], n, Wave(n, k), r, g, b)
  }

  lemma SweptFrames(wire: seq<seq<Byte>>, shown: seq<seq<Rgb>>, from: nat, n: nat, c: Shade)
    requires 2 <= n < 256 && from + Turns(n) <= |wire| == |shown|
    requires forall k :: 0 <= k < |wire| ==> Encodes(wire[k], shown[k], LatchBytes(n))
    requires forall k :: 0 <= k < Turns(n) ==> shown[from + k] == Glow(n, CursorAt(n, k).pos, c)
    ensures Swept(wire, from, n, c.r, c.g, c.b)
  {
    hide Encodes, Glow, CursorAt, PulseBytes, Wave;
    forall k | 0 <= k < (n - 1) * 8
      ensures PulseBytes(wire[from + k], n, Wave(n, k), c.r, c.g, c.b)
    {
      CursorIsWave(n, k);
      GlowBytes(wire[from + k], n, CursorAt(n, k).pos, c);
    }
  }

  /** The frames of one call in one colour. */
  function Lights(n: nat, c: Shade): seq<seq<Rgb>> {
    seq(Turns(n), k requires 0 <= k => Glow(n, CursorAt(n, k).pos, c))
  }

  lemma LightsAt(before: seq<seq<Rgb>>, n: nat, c: Shade, later: seq<seq<Rgb>>)
    ensures |Lights(n, c)| == Turns(n)
    ensures forall k :: 0 <= k < Turns(n) ==> (before + Lights(n, c) + later)[|before| + k] == Glow(n, CursorAt(n, k).pos, c)
  {
    hide Glow, CursorAt;
  }

  lemma RoundSwept(wire: seq<seq<Byte>>, before: seq<seq<Rgb>>, n: nat, c: Shade, d: Shade)
    requires 2 <= n < 256 && |wire| == |before + Lights(n, c) + Lights(n, d)|
    requires forall k :: 0 <= k < |wire| ==> Encodes(wire[k], (before + Lights(n, c) + Lights(n, d))[k], LatchBytes(n))
    ensures |wire| == |before| + 2 * ((n - 1) * 8)
    ensures Swept(wire, |before|, n, c.r, c.g, c.b) && Swept(wire, |before| + (n - 1) * 8, n, d.r, d.g, d.b)
  {
    hide Encodes, Glow, CursorAt, Lights, Swept;
    var shown := before + Lights(n, c) + Lights(n, d);
    LightsAt(before, n, c, Lights(n, d));
    LightsAt(before + Lights(n, c), n, d, []);
    assert shown == (before + Lights(n, c)) + Lights(n, d) + [];
    SweptFrames(wire, shown, |before|, n, c);
    SweptFrames(wire, shown, |before| + Turns(n), n, d);
  }

  /** One call of the scanner on a dark strip. */
  method ScanDark(sensor: Strip, c: Shade)
    requires sensor.Valid() && sensor.count >= 2 && sensor.colors == AllDark(sensor.count)
    modifies sensor.pixels, sensor`colors, sensor`wire, sensor`shown
    ensures sensor.Valid() && sensor.colors == AllDark(sensor.count)
    ensures sensor.shown == old(sensor.shown) + Lights(sensor.count, c)
  {
    ghost var n := sensor.count as nat;
    GlowSequence(n, c);
    DarkOnExitIff(AllDark(n));
    hide FrameAt, ShownAt, AllDark, Glow, Encodes, CursorAt;
    Scanner(sensor, c);
  }

  /** One round of `main`: the second call starts from the dark strip the first one leaves. */
  method RedThenBlue(sensor: Strip)
    requires sensor.Valid() && sensor.count >= 2 && sensor.colors == AllDark(sensor.count)
    modifies sensor.pixels, sensor`colors, sensor`wire, sensor`shown
    ensures sensor.Valid() && sensor.colors == AllDark(sensor.count)
    ensures var n := sensor.count as nat;
            sensor.shown == old(sensor.shown) + Lights(n, Shade(127, 0, 0)) + Lights(n, Shade(0, 0, 127))
    ensures var n := sensor.count as nat;
            && |sensor.wire| == |old(sensor.wire)| + 2 * ((n - 1) * 8)
            && Swept(sensor.wire, |old(sensor.wire)|, n, 127, 0, 0)
            && Swept(sensor.wire, |old(sensor.wire)| + (n - 1) * 8, n, 0, 0, 127)
  {
    hide FrameAt, ShownAt, AllDark, Glow, Encodes, CursorAt, Lights, Swept;
    ScanDark(sensor, Shade(127, 0, 0));
    ScanDark(sensor, Shade(0, 0, 127));
    RoundSwept(sensor.wire, old(sensor.shown), sensor.count, Shade(127, 0, 0), Shade(0, 0, 127));
  }

  lemma GlowSequence(n: nat, c: Shade)
    ensures seq(Turns(n), k requires 0 <= k => ShownAt(AllDark(n), k, c)) == Lights(n, c)
  {
    forall k | 0 <= k < Turns(n)
      ensures ShownAt(AllDark(n), k, c) == Glow(n, CursorAt(n, k).pos, c)
    {
      FramesAreGlow(n, k, c);
    }
  }
}
