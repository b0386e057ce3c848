/**
 * The colour conversion of `VideoEncoder.bitmapToNV12`: packed ARGB pixels to
 * NV12 (semi-planar Y'CbCr 4:2:0), with the 8-bit fixed-point form of the
 * ITU-R BT.601 limited-range equations.
 *
 * The reference layout `Nv12` is a full-resolution luma plane followed by one
 * (U, V) byte pair for every pixel whose row and column are both even; each
 * pair is computed from that single top-left pixel of its 2x2 block.
 */
module Nv12 {
  import opened Wrappers
  import opened Pixels

  /** `((66 r + 129 g + 25 b + 128) shr 8) + 16`; `shr 8` on an Int is floor division by 256. */
  function LumaRaw(p: Pixel): int
  {
    var r: int, g: int, b: int := Red(p), Green(p), Blue(p);
    (66 * r + 129 * g + 25 * b + 128) / 256 + 16
  }

  /** `((-38 r - 74 g + 112 b + 128) shr 8) + 128` */
  function ChromaURaw(p: Pixel): int
  {
    var r: int, g: int, b: int := Red(p), Green(p), Blue(p);
    (-38 * r - 74 * g + 112 * b + 128) / 256 + 128
  }

  /** `((112 r - 94 g - 18 b + 128) shr 8) + 128` */
  function ChromaVRaw(p: Pixel): int
  {
    var r: int, g: int, b: int := Red(p), Green(p), Blue(p);
    (112 * r - 94 * g - 18 * b + 128) / 256 + 128
  }

  /**
   * The stored luma byte: `y.coerceIn(0, 255).toByte()`. A byte is kept as its
   * unsigned value; Kotlin's signed `Byte` has the same eight bits.
   */
  function Luma(p: Pixel): Byte { Clamp(LumaRaw(p), 0, 255) }
  /** The stored U byte. */
  function ChromaU(p: Pixel): Byte { Clamp(ChromaURaw(p), 0, 255) }
  /** The stored V byte. */
  function ChromaV(p: Pixel): Byte { Clamp(ChromaVRaw(p), 0, 255) }

  /**
   * The fixed-point equations never leave the BT.601 studio range (luma in
   * [16, 235], chroma in [16, 240]), so the clamps never change a value.
   */
  lemma StudioRange(p: Pixel)
    ensures 16 <= LumaRaw(p) <= 235
    ensures 16 <= ChromaURaw(p) <= 240
    ensures 16 <= ChromaVRaw(p) <= 240
    ensures Luma(p) == LumaRaw(p)
    ensures ChromaU(p) == ChromaURaw(p)
    ensures ChromaV(p) == ChromaVRaw(p)
  {
    var r: int, g: int, b: int := Red(p), Green(p), Blue(p);
    var y := 66 * r + 129 * g + 25 * b + 128;
    var u := -38 * r - 74 * g + 112 * b + 128;
    var v := 112 * r - 94 * g - 18 * b + 128;
    DivBetween(y, 0, 56228);
    DivBetween(u, -28432, 28688);
    DivBetween(v, -28432, 28688);
  }

  /** Floor division by 256 is monotone; the bounds needed by `StudioRange`. */
  lemma DivBetween(x: int, lo: int, hi: int)
    requires lo <= x <= hi
    ensures lo / 256 <= x / 256 <= hi / 256
  {
    DivMonotone(lo, x, 256);
    DivMonotone(x, hi, 256);
  }

  lemma DivMonotone(a: int, b: int, d: int)
    requires a <= b && d > 0
    ensures a / d <= b / d
  {
    var qa, qb := a / d, b / d;
    assert qa * d + a % d == a;
    assert qb * d + b % d == b;
    if qa > qb {
      MulMonotone(qb + 1, qa, d);
    }
  }

  /** `ByteArray(width * height * 3 / 2)` */
  function BufferSize(w: nat, h: nat): nat { w * h * 3 / 2 }

  /** Number of even columns in [0, w): pixels of one row that write a chroma pair. */
  function ChromaColumns(w: nat): nat { (w + 1) / 2 }
  /** Number of even rows in [0, h). */
  function ChromaRows(h: nat): nat { (h + 1) / 2 }

  /** Number of chroma bytes the loop writes: two per pixel with even row and column. */
  function ChromaWrites(w: nat, h: nat): nat { 2 * (ChromaRows(h) * ChromaColumns(w)) }

  /** All writes of the loop stay inside the allocated buffer. */
  predicate Fits(w: nat, h: nat) { w * h + ChromaWrites(w, h) <= BufferSize(w, h) }

  /** The chroma pair written for the pixel in (even) row `j`, (even) column `i`. */
  function PairIndex(w: nat, j: nat, i: nat): nat { (j / 2) * ChromaColumns(w) + i / 2 }

  /** The pixel whose U (even `m`) or V (odd `m`) value is chroma byte `m`. */
  function ChromaSource(w: nat, h: nat, m: nat): (k: nat)
    requires m < ChromaWrites(w, h)
    ensures k < w * h
  {
    var cw := ChromaColumns(w);
    var q := m / 2;
    assert cw > 0;
    DivBelow(q, cw, ChromaRows(h));
    var row, col := 2 * (q / cw), 2 * (q % cw);
    PixelIndexBound(w, h, row, col);
    PixelIndex(w, row, col)
  }

  /** Chroma byte `m` of the reference layout. */
  function ChromaByte(argb: seq<Pixel>, w: nat, h: nat, m: nat): Byte
    requires |argb| == w * h && m < ChromaWrites(w, h)
  {
    var p := argb[ChromaSource(w, h, m)];
    if m % 2 == 0 then ChromaU(p) else ChromaV(p)
  }

  /** The reference NV12 frame: the luma plane, then the interleaved chroma pairs. */
  function Nv12Frame(argb: seq<Pixel>, w: nat, h: nat): (yuv: seq<Byte>)
    requires |argb| == w * h
    ensures |yuv| == w * h + ChromaWrites(w, h)
  {
    seq(w * h, k requires 0 <= k < w * h => Luma(argb[k]))
      + seq(ChromaWrites(w, h), m requires 0 <= m < ChromaWrites(w, h) => ChromaByte(argb, w, h, m))
  }

  /** Luma byte k of the frame is the luma of pixel k, so the Y plane is exactly [0, w * h). */
  lemma LumaAt(argb: seq<Pixel>, w: nat, h: nat, j: nat, i: nat)
    requires |argb| == w * h && j < h && i < w
    ensures PixelIndex(w, j, i) < w * h
    ensures Nv12Frame(argb, w, h)[PixelIndex(w, j, i)] == Luma(argb[PixelIndex(w, j, i)])
  {
    PixelIndexBound(w, h, j, i);
  }

  /**
   * The chroma pair of a pixel with even row and even column sits at offset
   * `w * h` plus twice its pair number, U first, and both bytes are computed
   * from that pixel alone (the top-left pixel of its 2x2 block, no averaging).
   */
  lemma ChromaAt(argb: seq<Pixel>, w: nat, h: nat, j: nat, i: nat)
    requires |argb| == w * h && j < h && i < w && j % 2 == 0 && i % 2 == 0
    ensures PixelIndex(w, j, i) < w * h
    ensures 2 * PairIndex(w, j, i) + 1 < ChromaWrites(w, h)
    ensures Nv12Frame(argb, w, h)[w * h + 2 * PairIndex(w, j, i)] == ChromaU(argb[PixelIndex(w, j, i)])
    ensures Nv12Frame(argb, w, h)[w * h + 2 * PairIndex(w, j, i) + 1] == ChromaV(argb[PixelIndex(w, j, i)])
  {
    PairBytes(argb, w, h, j, i);
    var m := 2 * PairIndex(w, j, i);
    FrameChromaByte(argb, w, h, m);
    FrameChromaByte(argb, w, h, m + 1);
  }

  /** Byte `w * h + m` of the frame is chroma byte `m`. */
  lemma FrameChromaByte(argb: seq<Pixel>, w: nat, h: nat, m: nat)
    requires |argb| == w * h && m < ChromaWrites(w, h)
    ensures Nv12Frame(argb, w, h)[w * h + m] == ChromaByte(argb, w, h, m)
  {
  }

  /** The U and V bytes of the pair for pixel (j, i), both even, come from that pixel. */
  lemma PairBytes(argb: seq<Pixel>, w: nat, h: nat, j: nat, i: nat)
    requires |argb| == w * h && j < h && i < w && j % 2 == 0 && i % 2 == 0
    ensures PixelIndex(w, j, i) < w * h
    ensures 2 * PairIndex(w, j, i) + 1 < ChromaWrites(w, h)
    ensures ChromaByte(argb, w, h, 2 * PairIndex(w, j, i)) == ChromaU(argb[PixelIndex(w, j, i)])
    ensures ChromaByte(argb, w, h, 2 * PairIndex(w, j, i) + 1) == ChromaV(argb[PixelIndex(w, j, i)])
  {
    PairSource(w, h, j, i);
    PixelIndexBound(w, h, j, i);
    PairOf(argb, w, h, PairIndex(w, j, i), PixelIndex(w, j, i));
  }

  /** Chroma pair `q` whose bytes both come from pixel `k` holds that pixel's U and V. */
  lemma PairOf(argb: seq<Pixel>, w: nat, h: nat, q: nat, k: nat)
    requires |argb| == w * h && 2 * q + 1 < ChromaWrites(w, h) && k < w * h
    requires ChromaSource(w, h, 2 * q) == k && ChromaSource(w, h, 2 * q + 1) == k
    ensures ChromaByte(argb, w, h, 2 * q) == ChromaU(argb[k])
    ensures ChromaByte(argb, w, h, 2 * q + 1) == ChromaV(argb[k])
  {
    Halves(q);
  }

  /** Division and remainder of `2 q` and `2 q + 1` by two. */
  lemma Halves(q: nat)
    ensures (2 * q) % 2 == 0 && (2 * q + 1) % 2 == 1
    ensures (2 * q) / 2 == q && (2 * q + 1) / 2 == q
  {
  }

  /** Chroma bytes `2 q` and `2 q + 1` of pair `q = PairIndex(w, j, i)` come from pixel (j, i). */
  lemma PairSource(w: nat, h: nat, j: nat, i: nat)
    requires j < h && i < w && j % 2 == 0 && i % 2 == 0
    ensures 2 * PairIndex(w, j, i) + 1 < ChromaWrites(w, h)
    ensures ChromaSource(w, h, 2 * PairIndex(w, j, i)) == PixelIndex(w, j, i)
    ensures ChromaSource(w, h, 2 * PairIndex(w, j, i) + 1) == PixelIndex(w, j, i)
  {
    var cw, ch := ChromaColumns(w), ChromaRows(h);
    var q := PairIndex(w, j, i);
    assert i / 2 < cw && j / 2 < ch;
    PairBelow(j / 2, i / 2, cw, ch);
    DivModUnique(q, cw, j / 2, i / 2);
    Halves(q);
  }

  lemma PairBelow(a: nat, b: nat, cw: nat, ch: nat)
    requires a < ch && b < cw
    ensures a * cw + b < ch * cw
  {
    MulMonotone(a + 1, ch, cw);
  }

  /** `n < k * d` bounds the quotient of `n` by `d` below `k`. */
  lemma DivBelow(n: nat, d: nat, k: nat)
    requires d > 0 && n < k * d
    ensures n / d < k
  {
    var q := n / d;
    assert q * d + n % d == n;
    if q >= k {
      MulMonotone(k, q, d);
    }
  }

  /**
   * The chroma writes fit in `width * height * 3 / 2` bytes exactly when a
   * dimension is zero or both are even; otherwise the source's loop indexes past
   * the end of the array.
   */
  lemma {:induction false} FitsIff(w: nat, h: nat)
    ensures Fits(w, h) <==> (w == 0 || h == 0 || (w % 2 == 0 && h % 2 == 0))
  {
    var a, b := w / 2, h / 2;
    if w % 2 == 0 && h % 2 == 0 {
      assert w == 2 * a && h == 2 * b;
      EvenEven(a, b);
    } else if w % 2 == 1 && h % 2 == 0 {
      assert w == 2 * a + 1 && h == 2 * b;
      OddEven(a, b);
    } else if w % 2 == 0 && h % 2 == 1 {
      assert w == 2 * a && h == 2 * b + 1;
      EvenOdd(a, b);
    } else {
      assert w == 2 * a + 1 && h == 2 * b + 1;
      OddOdd(a, b);
    }
  }

  lemma EvenEven(a: nat, b: nat)
    ensures var w, h := 2 * a, 2 * b;
      w * h + ChromaWrites(w, h) == BufferSize(w, h)
    ensures var w, h := 2 * a, 2 * b;
      w * h == 4 * (a * b) && ChromaColumns(w) == a && BufferSize(w, h) == 6 * (a * b)
  {
    var w, h := 2 * a, 2 * b;
    assert ChromaColumns(w) == a && ChromaRows(h) == b;
    assert w * h == 4 * (a * b);
    assert BufferSize(w, h) == 6 * (a * b);
  }

  lemma OddEven(a: nat, b: nat)
    ensures var w, h := 2 * a + 1, 2 * b;
      w * h + ChromaWrites(w, h) == BufferSize(w, h) + b
  {
    var w, h := 2 * a + 1, 2 * b;
    assert ChromaColumns(w) == a + 1 && ChromaRows(h) == b;
    assert w * h == 4 * (a * b) + 2 * b;
    assert BufferSize(w, h) == 6 * (a * b) + 3 * b;
    assert ChromaWrites(w, h) == 2 * (a * b) + 2 * b;
  }

  lemma EvenOdd(a: nat, b: nat)
    ensures var w, h := 2 * a, 2 * b + 1;
      w * h + ChromaWrites(w, h) == BufferSize(w, h) + a
  {
    var w, h := 2 * a, 2 * b + 1;
    assert ChromaColumns(w) == a && ChromaRows(h) == b + 1;
    assert w * h == 4 * (a * b) + 2 * a;
    assert BufferSize(w, h) == 6 * (a * b) + 3 * a;
    assert ChromaWrites(w, h) == 2 * (a * b) + 2 * a;
  }

  lemma OddOdd(a: nat, b: nat)
    ensures var w, h := 2 * a + 1, 2 * b + 1;
      w * h + ChromaWrites(w, h) > BufferSize(w, h)
  {
    var w, h := 2 * a + 1, 2 * b + 1;
    assert ChromaColumns(w) == a + 1 && ChromaRows(h) == b + 1;
    assert w * h == 4 * (a * b) + 2 * a + 2 * b + 1;
    assert BufferSize(w, h) == (12 * (a * b) + 6 * a + 6 * b + 3) / 2;
    assert ChromaWrites(w, h) == 2 * (a * b) + 2 * a + 2 * b + 2;
  }

  /**
   * For even dimensions the chroma plane starts at `w * h` and its last pair,
   * from pixel (h - 2, w - 2), ends exactly at the end of the buffer.
   */
  lemma ChromaEndsAtBufferEnd(w: nat, h: nat)
    requires w > 0 && h > 0 && w % 2 == 0 && h % 2 == 0
    ensures w * h + 2 * PairIndex(w, h - 2, w - 2) + 2 == BufferSize(w, h)
  {
    var a, b := w / 2, h / 2;
    assert w == 2 * a && h == 2 * b;
    EvenEven(a, b);
    assert (h - 2) / 2 == b - 1 && (w - 2) / 2 == a - 1;
    assert PairIndex(w, h - 2, w - 2) == (b - 1) * a + (a - 1);
    MulPred(b, a);
  }

  lemma MulPred(b: nat, a: nat)
    requires b > 0
    ensures (b - 1) * a == a * b - a
  {
  }

  /** When the writes fit they fill the buffer exactly. */
  lemma FitsExactly(w: nat, h: nat)
    requires Fits(w, h)
    ensures w * h + ChromaWrites(w, h) == BufferSize(w, h)
  {
    FitsIff(w, h);
    if w != 0 && h != 0 {
      EvenEven(w / 2, h / 2);
    }
  }

  /**
   * What `bitmapToNV12(bitmap)` returns for a `w` x `h` encoder: nothing when
   * `getPixels` rejects the region or the chroma writes overrun the buffer
   * (both throw in the source), otherwise the reference frame.
   */
  function Convert(bitmap: Bitmap, w: nat, h: nat): Option<seq<Byte>>
    requires bitmap.Valid()
  {
    match GetPixels(bitmap, w, h)
    case None => None
    case Some(argb) => if Fits(w, h) then Some(Nv12Frame(argb, w, h)) else None
  }

  /**
   * The conversion succeeds exactly when the region is empty or inside the
   * bitmap and the chroma writes fit, and then fills the `w * h * 3 / 2` bytes exactly.
   */
  lemma ConvertSpec(bitmap: Bitmap, w: nat, h: nat)
    requires bitmap.Valid()
    ensures Convert(bitmap, w, h).Some? <==> GetPixels(bitmap, w, h).Some? && Fits(w, h)
    ensures Convert(bitmap, w, h).Some? ==> |Convert(bitmap, w, h).value| == BufferSize(w, h)
  {
    if GetPixels(bitmap, w, h).Some? && Fits(w, h) {
      FitsExactly(w, h);
    }
  }
}
