/**
 * The framebuffer as values: where `draw_iter` writes a pixel, what a
 * sequence of pixels does to the buffer, and how `flush` packs the buffer
 * into the bytes of the primary RAM plane.  The driver class in module
 * Driver is proved against these functions.
 */
module Framebuffer {
  import opened Base
  import opened Profile

  /** One pixel handed to `draw_iter`: a point of the user-facing space and whether it is on. */
  datatype Pixel = Pixel(x: int, y: int, on: bool)

  /** Whether `draw_iter` writes the pixel at all; points outside the user-facing size are skipped. */
  predicate InBounds(p: Profile, x: int, y: int) {
    0 <= x < p.rCols && 0 <= y < p.rRows
  }

  /** The number of cells of the framebuffer, `cols * rows`. */
  function Length(p: Profile): nat {
    p.cols * p.rows
  }

  lemma {:induction false} MulMonotone(a: int, b: int, c: int)
    requires 0 <= a <= b && 0 <= c
    ensures a * c <= b * c
  {
    assert b * c - a * c == (b - a) * c;
  }

  /**
   * The cell `draw_iter` writes for an in-bounds point: `x * cols + (cols - y)`
   * on a quarter-turned panel, `y * r_cols + x` otherwise.  The value never
   * exceeds `cols * rows`, so the `u16` arithmetic of the source does not
   * overflow, but on a quarter-turned panel it reaches `cols * rows`, one past
   * the last cell, exactly at the point `(r_cols - 1, 0)`.
   */
  function Offset(p: Profile, x: int, y: int): (r: nat)
    requires WellFormed(p) && InBounds(p, x, y)
    ensures r <= Length(p) < 0x1_0000
    ensures QuarterTurn(p.rotation) ==> x * p.cols + 1 <= r <= x * p.cols + p.cols
    ensures QuarterTurn(p.rotation) ==> (r == Length(p) <==> x == p.rCols - 1 && y == 0)
    ensures !QuarterTurn(p.rotation) ==> r < Length(p)
  {
    if QuarterTurn(p.rotation) then
      QuarterOffsetBounds(p, x, y);
      x * p.cols + (p.cols - y)
    else
      RowMajorBounds(p, x, y);
      y * p.rCols + x
  }

  /** The bound `Offset` promises on a panel that is not quarter-turned, for its formula. */
  lemma {:induction false} RowMajorBounds(p: Profile, x: int, y: int)
    requires WellFormed(p) && InBounds(p, x, y) && !QuarterTurn(p.rotation)
    ensures 0 <= y * p.rCols + x < Length(p) < 0x1_0000
  {
    assert p.rCols == p.cols && p.rRows == p.rows;
    RowMajorRange(x, y, p.cols, p.rows);
    MulMonotone(0, y, p.cols);
  }

  /** The bounds `Offset` promises on a quarter-turned panel, for its formula. */
  lemma {:induction false} QuarterOffsetBounds(p: Profile, x: int, y: int)
    requires WellFormed(p) && InBounds(p, x, y) && QuarterTurn(p.rotation)
    ensures var r := x * p.cols + (p.cols - y);
      && x * p.cols + 1 <= r <= x * p.cols + p.cols
      && 0 <= r <= Length(p) < 0x1_0000
      && (r == Length(p) <==> x == p.rCols - 1 && y == 0)
  {
    assert p.rCols == p.rows && p.rRows == p.cols;
    QuarterOffsetRange(x, y, p.cols, p.rows);
  }

  lemma {:induction false} QuarterOffsetRange(x: int, y: int, cols: int, rows: int)
    requires 0 <= x < rows && 0 <= y < cols
    ensures x * cols + (cols - y) <= cols * rows
    ensures x * cols + (cols - y) == cols * rows <==> x == rows - 1 && y == 0
  {
    var top := x * cols + cols;
    assert top == (x + 1) * cols;
    MulMonotone(x + 1, rows, cols);
    assert rows * cols == cols * rows;
    if x < rows - 1 {
      MulMonotone(x + 2, rows, cols);
      assert (x + 2) * cols == top + cols;
    }
  }

  lemma {:induction false} RowMajorRange(x: int, y: int, cols: int, rows: int)
    requires 0 <= x < cols && 0 <= y < rows
    ensures y * cols + x < cols * rows
  {
    MulMonotone(y + 1, rows, cols);
    assert (y + 1) * cols == y * cols + cols;
    assert rows * cols == cols * rows;
  }

  /**
   * The quarter-turn offset with the off-by-one removed, `x * cols + (cols - 1 - y)`;
   * the identity case is unchanged.
   */
  function CorrectedOffset(p: Profile, x: int, y: int): (r: nat)
    requires WellFormed(p) && InBounds(p, x, y)
    ensures r < Length(p)
  {
    var offset := Offset(p, x, y);
    if QuarterTurn(p.rotation) then
      MulMonotone(0, x, p.cols);
      offset - 1
    else
      offset
  }

  /** The corrected mapping sends distinct user-facing points to distinct cells. */
  lemma {:induction false} CorrectedOffsetInjective(p: Profile, x1: int, y1: int, x2: int, y2: int)
    requires WellFormed(p) && InBounds(p, x1, y1) && InBounds(p, x2, y2)
    requires CorrectedOffset(p, x1, y1) == CorrectedOffset(p, x2, y2)
    ensures x1 == x2 && y1 == y2
  {
    if QuarterTurn(p.rotation) {
      DivModUnique(x1, p.cols - 1 - y1, x2, p.cols - 1 - y2, p.cols);
    } else {
      DivModUnique(y1, x1, y2, x2, p.rCols);
    }
  }

  /** Every cell of the buffer is the corrected image of some user-facing point. */
  lemma {:induction false} CorrectedOffsetSurjective(p: Profile, i: int)
    requires WellFormed(p) && 0 <= i < Length(p)
    ensures exists x, y :: InBounds(p, x, y) && CorrectedOffset(p, x, y) == i
  {
    var cols, rows := p.cols, p.rows;
    var q, r := Split(i, cols, rows);
    if QuarterTurn(p.rotation) {
      var x, y := q, cols - 1 - r;
      assert (p.rCols, p.rRows) == (rows, cols);
      assert InBounds(p, x, y);
      assert CorrectedOffset(p, x, y) == x * cols + (cols - y) - 1;
    } else {
      var x, y := r, q;
      assert (p.rCols, p.rRows) == (cols, rows);
      assert InBounds(p, x, y);
      assert CorrectedOffset(p, x, y) == y * cols + x;
    }
  }

  /** Quotient and remainder of a cell index by the row length. */
  lemma {:induction false} Split(i: int, cols: int, rows: int) returns (q: int, r: int)
    requires 0 <= i < cols * rows && 0 < cols
    ensures 0 <= q < rows && 0 <= r < cols && i == q * cols + r
  {
    q, r := i / cols, i % cols;
    DivBelow(i, cols, rows);
  }

  lemma {:induction false} DivModUnique(a1: int, b1: int, a2: int, b2: int, c: int)
    requires 0 <= a1 && 0 <= a2 && 0 <= b1 < c && 0 <= b2 < c
    requires a1 * c + b1 == a2 * c + b2
    ensures a1 == a2 && b1 == b2
  {
    if a1 < a2 {
      MulMonotone(a1 + 1, a2, c);
    } else if a2 < a1 {
      MulMonotone(a2 + 1, a1, c);
    }
  }

  lemma {:induction false} DivBelow(i: int, c: int, n: int)
    requires 0 <= i < c * n && 0 < c
    ensures i / c < n
  {
  }

  /**
   * The as-written quarter-turn mapping on the panel of the resolution table:
   * the point (249, 0) is in bounds, yet its offset is 34000, the length of
   * the framebuffer, where the corrected mapping gives the last cell.
   */
  lemma {:induction false} OffsetPastEnd(c: Colour)
    requires c in {Black, Red, Yellow}
    ensures var p := Profile(250, 122, 136, 250, 250, 136, -90, 0, 6, c);
      && WellFormed(p) && InBounds(p, 249, 0)
      && Offset(p, 249, 0) == Length(p) == 34000
      && CorrectedOffset(p, 249, 0) == Length(p) - 1
  {
  }

  /** What drawing ended with: all pixels handled, or a panic on an index past the end. */
  datatype DrawOutcome = Drawn | IndexPanic(index: nat)

  /** Whether drawing this pixel makes the source index one past the end of the buffer. */
  predicate Panics(p: Profile, px: Pixel)
    requires WellFormed(p)
  {
    InBounds(p, px.x, px.y) && Offset(p, px.x, px.y) == Length(p)
  }

  /**
   * One iteration of `draw_iter`: a point outside the user-facing size changes
   * nothing; an in-bounds point sets exactly its own cell to the pixel's
   * state, or panics when that cell is one past the end.
   */
  function DrawPixel(p: Profile, fb: seq<bool>, px: Pixel): (r: (seq<bool>, DrawOutcome))
    requires WellFormed(p) && |fb| == Length(p)
    ensures |r.0| == |fb|
    ensures !InBounds(p, px.x, px.y) ==> r == (fb, Drawn)
    ensures r.1.IndexPanic? <==> Panics(p, px)
    ensures r.1.IndexPanic? ==> r == (fb, IndexPanic(Length(p)))
    ensures InBounds(p, px.x, px.y) && !Panics(p, px) ==>
      && r.1 == Drawn
      && r.0[Offset(p, px.x, px.y)] == px.on
      && forall i :: 0 <= i < |fb| && i != Offset(p, px.x, px.y) ==> r.0[i] == fb[i]
  {
    if !InBounds(p, px.x, px.y) then (fb, Drawn)
    else
      var offset := Offset(p, px.x, px.y);
      if offset < |fb| then (fb[offset := px.on], Drawn) else (fb, IndexPanic(offset))
  }

  /** `draw_iter` over a sequence of pixels, in order, stopping at the first panic. */
  function Draw(p: Profile, fb: seq<bool>, pixels: seq<Pixel>): (r: (seq<bool>, DrawOutcome))
    requires WellFormed(p) && |fb| == Length(p)
    ensures |r.0| == |fb|
    decreases |pixels|
  {
    if pixels == [] then (fb, Drawn)
    else
      var (next, outcome) := DrawPixel(p, fb, pixels[0]);
      if outcome.IndexPanic? then (next, outcome) else Draw(p, next, pixels[1..])
  }

  /** Drawing panics exactly when some pixel is the one-past-the-end point. */
  lemma {:induction false} DrawPanicsIff(p: Profile, fb: seq<bool>, pixels: seq<Pixel>)
    requires WellFormed(p) && |fb| == Length(p)
    ensures Draw(p, fb, pixels).1 == Drawn <==> forall k :: 0 <= k < |pixels| ==> !Panics(p, pixels[k])
    ensures Draw(p, fb, pixels).1.IndexPanic? ==> Draw(p, fb, pixels).1.index == Length(p)
    decreases |pixels|
  {
    if pixels != [] {
      var next := DrawPixel(p, fb, pixels[0]).0;
      DrawPanicsIff(p, next, pixels[1..]);
      assert forall k :: 1 <= k < |pixels| ==> pixels[k] == pixels[1..][k - 1];
    }
  }

  /** Pixels that all lie outside the user-facing size leave the buffer as it was. */
  lemma {:induction false} DrawOutsideUnchanged(p: Profile, fb: seq<bool>, pixels: seq<Pixel>)
    requires WellFormed(p) && |fb| == Length(p)
    requires forall k :: 0 <= k < |pixels| ==> !InBounds(p, pixels[k].x, pixels[k].y)
    ensures Draw(p, fb, pixels) == (fb, Drawn)
    decreases |pixels|
  {
    if pixels != [] {
      DrawOutsideUnchanged(p, fb, pixels[1..]);
    }
  }

  /**
   * Reference definition of a cell after drawing: the state of the last
   * in-bounds pixel that maps to it, or its old value when none does.
   */
  function CellAfter(p: Profile, before: bool, pixels: seq<Pixel>, i: nat): bool
    requires WellFormed(p)
  {
    if pixels == [] then before
    else
      var last := pixels[|pixels| - 1];
      if InBounds(p, last.x, last.y) && Offset(p, last.x, last.y) == i then last.on
      else CellAfter(p, before, pixels[..|pixels| - 1], i)
  }

  lemma {:induction false} DrawSnoc(p: Profile, fb: seq<bool>, pixels: seq<Pixel>, px: Pixel)
    requires WellFormed(p) && |fb| == Length(p)
    requires Draw(p, fb, pixels).1 == Drawn
    ensures Draw(p, fb, pixels + [px]) == DrawPixel(p, Draw(p, fb, pixels).0, px)
    decreases |pixels|
  {
    if pixels != [] {
      var next := DrawPixel(p, fb, pixels[0]).0;
      assert (pixels + [px])[1..] == pixels[1..] + [px];
      DrawSnoc(p, next, pixels[1..], px);
    }
  }

  /** When no pixel panics, every cell ends up as the last pixel written to it says (last write wins). */
  lemma {:induction false} DrawIsLastWrite(p: Profile, fb: seq<bool>, pixels: seq<Pixel>)
    requires WellFormed(p) && |fb| == Length(p)
    requires Draw(p, fb, pixels).1 == Drawn
    ensures forall i :: 0 <= i < |fb| ==> Draw(p, fb, pixels).0[i] == CellAfter(p, fb[i], pixels, i)
    decreases |pixels|
  {
    if pixels != [] {
      var init, last := pixels[..|pixels| - 1], pixels[|pixels| - 1];
      assert pixels == init + [last];
      DrawPanicsIff(p, fb, pixels);
      DrawPanicsIff(p, fb, init);
      assert forall k :: 0 <= k < |init| ==> init[k] == pixels[k];
      DrawSnoc(p, fb, init, last);
      DrawIsLastWrite(p, fb, init);
    }
  }

  // ---------------------------------------------------------------------------
  // Packing the buffer into the primary RAM plane (`flush`)

  function Pow2(n: nat): (r: nat)
    ensures r >= 1
  {
    if n == 0 then 1 else 2 * Pow2(n - 1)
  }

  lemma {:induction false} Pow2Monotone(a: nat, b: nat)
    requires a <= b
    ensures Pow2(a) <= Pow2(b)
    decreases b
  {
    if a < b {
      Pow2Monotone(a, b - 1);
    }
  }

  /** Bit `b` of `v`, bit 0 being the least significant. */
  function Bit(v: nat, b: nat): bit {
    if b == 0 then v % 2 else Bit(v / 2, b - 1)
  }

  /**
   * The byte the inner loop of `flush` accumulates from a chunk, before the
   * inversion: each pixel is shifted in at the low end, so the first pixel of
   * the chunk ends up most significant.
   */
  function ChunkValue(c: seq<bool>): (r: nat)
    ensures r < Pow2(|c|)
  {
    if c == [] then 0 else 2 * ChunkValue(c[..|c| - 1]) + (if c[|c| - 1] then 1 else 0)
  }

  function Min(a: int, b: int): int {
    if a <= b then a else b
  }

  /** The length of the chunk of `slice::chunks(8)` that starts at index `start`. */
  function ChunkLength(n: nat, start: nat): nat
    requires start < n
  {
    Min(8, n - start)
  }

  /**
   * `flush`'s packing: the buffer in chunks of eight pixels, each chunk's
   * value complemented within the byte (`dest ^ 0xff`).
   */
  function Pack(s: seq<bool>): (r: seq<byte>)
    ensures |r| == (|s| + 7) / 8
    decreases |s|
  {
    if s == [] then []
    else
      var k := ChunkLength(|s|, 0);
      Pow2Monotone(k, 8);
      [0xFF - ChunkValue(s[..k])] + Pack(s[k..])
  }

  /** One step of the shift loop: appending a pixel doubles the chunk value and adds the pixel's bit. */
  lemma {:induction false} ChunkValueStep(s: seq<bool>, start: nat, j: nat)
    requires start <= j < |s|
    ensures ChunkValue(s[start..j + 1]) == 2 * ChunkValue(s[start..j]) + (if s[j] then 1 else 0)
  {
    assert s[start..j + 1][..j - start] == s[start..j];
  }

  /** One step of the chunk loop: the chunk starting at `start` packs to one byte, followed by the rest. */
  lemma {:induction false} PackFrom(prefix: seq<byte>, s: seq<bool>, start: nat)
    requires start < |s|
    ensures var end := if |s| - start < 8 then |s| else start + 8;
      && ChunkValue(s[start..end]) < 0x100
      && (prefix + [0xFF - ChunkValue(s[start..end]) as byte]) + Pack(s[end..]) == prefix + Pack(s[start..])
  {
    var end := if |s| - start < 8 then |s| else start + 8;
    var rest := s[start..];
    assert rest[..end - start] == s[start..end] && rest[end - start..] == s[end..];
    PackUnfold(rest);
    var b: byte := 0xFF - ChunkValue(s[start..end]);
    ConcatAssoc(prefix, [b], Pack(s[end..]));
  }

  /** `Pack` of a non-empty buffer: its first chunk's byte, then the rest packed. */
  lemma {:induction false} PackUnfold(s: seq<bool>)
    requires s != []
    ensures var k := if |s| < 8 then |s| else 8;
      && ChunkValue(s[..k]) < 0x100
      && Pack(s) == [0xFF - ChunkValue(s[..k]) as byte] + Pack(s[k..])
  {
    var k := if |s| < 8 then |s| else 8;
    assert ChunkLength(|s|, 0) == k;
    Pow2Monotone(k, 8);
  }

  /** The secondary RAM plane `flush` writes: `cols * rows` zero bytes. */
  function Zeros(n: nat): (r: seq<byte>)
    ensures |r| == n && forall i :: 0 <= i < n ==> r[i] == 0
  {
    seq(n, _ => 0)
  }

  lemma {:induction false} ChunkBit(c: seq<bool>, j: nat)
    requires j < |c|
    ensures Bit(ChunkValue(c), |c| - 1 - j) == if c[j] then 1 else 0
    decreases |c|
  {
    var init := c[..|c| - 1];
    if j < |c| - 1 {
      ChunkBit(init, j);
      assert Bit(ChunkValue(c), |c| - 1 - j) == Bit(ChunkValue(init), |init| - 1 - j);
    }
  }

  lemma {:induction false} BitAbove(v: nat, b: nat)
    requires v < Pow2(b)
    ensures Bit(v, b) == 0
  {
    if b > 0 {
      BitAbove(v / 2, b - 1);
    }
  }

  lemma {:induction false} BitComplement(v: nat, n: nat, b: nat)
    requires v < Pow2(n) && b < n
    ensures Bit(Pow2(n) - 1 - v, b) == 1 - Bit(v, b)
  {
    var p, q, r := Pow2(n - 1), v / 2, v % 2;
    var x := Pow2(n) - 1 - v;
    assert x == (p - 1 - q) * 2 + (1 - r);
    DivModUnique(x / 2, x % 2, p - 1 - q, 1 - r, 2);
    if b > 0 {
      BitComplement(q, n - 1, b - 1);
    }
  }

  /** Index `i` and index `i - 8` sit at the same place of consecutive chunks. */
  lemma {:induction false} ChunkIndexShift(i: nat)
    requires i >= 8
    ensures i / 8 == (i - 8) / 8 + 1 && i % 8 == (i - 8) % 8 && i / 8 * 8 == (i - 8) / 8 * 8 + 8
  {
  }

  /**
   * Each pixel lands in byte `i / 8` of the packed plane, most significant
   * first within its chunk, and inverted: an on pixel reads as 0.  In a short
   * last chunk of `k` pixels they fill the low `k` bits.
   */
  lemma {:induction false} PackBit(s: seq<bool>, i: nat)
    requires i < |s|
    ensures var k := ChunkLength(|s|, i / 8 * 8);
      Bit(Pack(s)[i / 8], k - 1 - i % 8) == if s[i] then 0 else 1
    decreases |s|
  {
    if i < 8 {
      PackBitFirstChunk(s, i);
    } else {
      var rest := s[8..];
      var j := i - 8;
      ChunkIndexShift(i);
      var byteS, byteRest := Pack(s)[i / 8], Pack(rest)[j / 8];
      PackUnfold(s);
      assert byteS == byteRest;
      var b := ChunkLength(|s|, i / 8 * 8) - 1 - i % 8;
      assert b == ChunkLength(|rest|, j / 8 * 8) - 1 - j % 8;
      assert rest[j] == s[i];
      PackBit(rest, j);
      assert Bit(byteRest, b) == if s[i] then 0 else 1;
    }
  }

  /** `PackBit` for the pixels of the first chunk. */
  lemma {:induction false} PackBitFirstChunk(s: seq<bool>, i: nat)
    requires i < |s| && i < 8
    ensures var k := ChunkLength(|s|, i / 8 * 8);
      Bit(Pack(s)[i / 8], k - 1 - i % 8) == if s[i] then 0 else 1
  {
    var k := if |s| < 8 then |s| else 8;
    var c := s[..k];
    assert i / 8 == 0 && i % 8 == i && ChunkLength(|s|, 0) == k;
    PackUnfold(s);
    InvertedChunkBit(c, i);
    assert c[i] == s[i];
  }

  /** Pixel `i` of a chunk of at most eight, in the inverted chunk byte. */
  lemma {:induction false} InvertedChunkBit(c: seq<bool>, i: nat)
    requires i < |c| <= 8
    ensures ChunkValue(c) < 0x100 && Bit(0xFF - ChunkValue(c), |c| - 1 - i) == if c[i] then 0 else 1
  {
    var v := ChunkValue(c);
    Pow2Monotone(|c|, 8);
    assert Pow2(8) == 256;
    ChunkBit(c, i);
    BitComplement(v, 8, |c| - 1 - i);
  }

  /** The bits of a short last chunk that no pixel fills read as 1. */
  lemma {:induction false} PackPadding(s: seq<bool>, byteIndex: nat, b: nat)
    requires byteIndex < |Pack(s)|
    requires ChunkLength(|s|, 8 * byteIndex) <= b < 8
    ensures Bit(Pack(s)[byteIndex], b) == 1
    decreases |s|
  {
    var k := ChunkLength(|s|, 0);
    Pow2Monotone(k, 8);
    if byteIndex == 0 {
      var v := ChunkValue(s[..k]);
      Pow2Monotone(k, b);
      BitAbove(v, b);
      BitComplement(v, 8, b);
      assert Pow2(8) == 256;
    } else {
      PackPadding(s[8..], byteIndex - 1, b);
    }
  }

  /** Pixel `i` of `n` read back from a packed plane: on exactly when its bit reads 0. */
  predicate PixelAt(plane: seq<byte>, n: nat, i: nat)
    requires |plane| == (n + 7) / 8 && i < n
  {
    Bit(plane[i / 8], ChunkLength(n, i / 8 * 8) - 1 - i % 8) == 0
  }

  /** Reading a packed plane back into `n` pixels. */
  function Unpack(plane: seq<byte>, n: nat): (r: seq<bool>)
    requires |plane| == (n + 7) / 8
    ensures |r| == n
  {
    seq(n, i requires 0 <= i < n => PixelAt(plane, n, i))
  }

  /** Packing loses nothing: the packed plane reads back as the framebuffer. */
  lemma {:induction false} UnpackPack(s: seq<bool>)
    ensures Unpack(Pack(s), |s|) == s
  {
    var plane := Pack(s);
    forall i | 0 <= i < |s|
      ensures PixelAt(plane, |s|, i) == s[i]
    {
      PackBit(s, i);
    }
  }

  /** Drawing a single pixel is one `DrawPixel` step. */
  lemma {:induction false} DrawSingle(p: Profile, fb: seq<bool>, px: Pixel)
    requires WellFormed(p) && |fb| == Length(p)
    ensures Draw(p, fb, [px]) == DrawPixel(p, fb, px)
  {
    assert [px][0] == px && [px][1..] == [];
  }

  /**
   * Drawing one in-bounds pixel that does not panic and packing the buffer:
   * the pixel's bit in the packed plane is the inverse of its state.
   */
  lemma {:induction false} DrawThenPack(p: Profile, fb: seq<bool>, px: Pixel)
    requires WellFormed(p) && |fb| == Length(p)
    requires InBounds(p, px.x, px.y) && !Panics(p, px)
    ensures var i := Offset(p, px.x, px.y);
      var packed := Pack(Draw(p, fb, [px]).0);
      Bit(packed[i / 8], ChunkLength(Length(p), i / 8 * 8) - 1 - i % 8) == if px.on then 0 else 1
  {
    var i := Offset(p, px.x, px.y);
    DrawSingle(p, fb, px);
    var after := DrawPixel(p, fb, px).0;
    assert after[i] == px.on;
    PackBit(after, i);
  }
}
