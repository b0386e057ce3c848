/**
 * Packed ARGB_8888 pixels and bitmaps as the Android side sees them.
 *
 * A pixel is a Kotlin `Int`, a signed 32-bit value. `x shr s` on an Int is an
 * arithmetic shift, that is floor division by 2^s, which is Dafny's `/` for a
 * positive divisor; `and 0xff` keeps the low eight bits, which is Dafny's
 * `% 256` (never negative). Packing ORs an 0xFF alpha and three 8-bit fields
 * into disjoint bit positions, so the OR is a sum, and `0xFF shl 24` overflows
 * to -2^24 in a 32-bit Int.
 */
module Pixels {
  import opened Wrappers

  /** A Kotlin `Int`. */
  type Int32 = x: int | -0x8000_0000 <= x < 0x8000_0000
  /** A packed ARGB pixel. */
  type Pixel = Int32
  /** An 8-bit channel or byte value in [0, 255]. */
  type Byte = x: int | 0 <= x < 256

  /** `Int.coerceIn(lo, hi)`. */
  function Clamp(x: int, lo: int, hi: int): (r: int)
    requires lo <= hi
    ensures lo <= r <= hi
    ensures lo <= x <= hi ==> r == x
    ensures x < lo ==> r == lo
    ensures hi < x ==> r == hi
  {
    if x < lo then lo else if hi < x then hi else x
  }

  /** `(pixel shr 16) and 0xff` */
  function Red(p: Pixel): Byte { (p / 0x1_0000) % 0x100 }
  /** `(pixel shr 8) and 0xff` */
  function Green(p: Pixel): Byte { (p / 0x100) % 0x100 }
  /** `pixel and 0xff` */
  function Blue(p: Pixel): Byte { p % 0x100 }
  /** The alpha byte, bits 24-31: `(pixel shr 24) and 0xff`. */
  function Alpha(p: Pixel): Byte { (p / 0x100_0000) % 0x100 }

  /** `(0xFF shl 24) or (r shl 16) or (g shl 8) or b` as a 32-bit Int. */
  function PackOpaque(r: Byte, g: Byte, b: Byte): Pixel
  {
    -0x100_0000 + r * 0x1_0000 + g * 0x100 + b
  }

  /** Unpacking an opaque pixel gives back its three channels and alpha 0xFF. */
  lemma UnpackPack(r: Byte, g: Byte, b: Byte)
    ensures Red(PackOpaque(r, g, b)) == r
    ensures Green(PackOpaque(r, g, b)) == g
    ensures Blue(PackOpaque(r, g, b)) == b
    ensures Alpha(PackOpaque(r, g, b)) == 0xFF
  {
    var p := PackOpaque(r, g, b);
    DivModUnique(p, 0x1_0000, r - 0x100, g * 0x100 + b);
    DivModUnique(r - 0x100, 0x100, -1, r);
    DivModUnique(p, 0x100, r * 0x100 + g - 0x1_0000, b);
    DivModUnique(r * 0x100 + g - 0x1_0000, 0x100, r - 0x100, g);
    DivModUnique(p, 0x100_0000, -1, r * 0x1_0000 + g * 0x100 + b);
    DivModUnique(-1, 0x100, -1, 0xFF);
  }

  /** A pixel whose alpha is already 0xFF is its own repacking. */
  lemma PackUnpack(p: Pixel)
    requires Alpha(p) == 0xFF
    ensures PackOpaque(Red(p), Green(p), Blue(p)) == p
  {
    var top := p / 0x100_0000;
    assert -0x80 <= top < 0x80;
    DivModUnique(top, 0x100, -1, 0xFF);
    var rest := p - top * 0x100_0000;
    assert 0 <= rest < 0x100_0000;
    var r, g, b := rest / 0x1_0000, (rest / 0x100) % 0x100, rest % 0x100;
    DivModUnique(p, 0x1_0000, r - 0x100, rest % 0x1_0000);
    DivModUnique(r - 0x100, 0x100, -1, r);
    DivModUnique(rest / 0x100, 0x100, r, g);
    DivModUnique(p, 0x100, rest / 0x100 - 0x1_0000, b);
    DivModUnique(rest / 0x100 - 0x1_0000, 0x100, r - 0x100, g);
  }

  /** An ARGB_8888 bitmap: `width * height` pixels in row-major order. */
  datatype Bitmap = Bitmap(width: nat, height: nat, pixels: seq<Pixel>)
  {
    predicate Valid() { |pixels| == width * height }
  }

  /** The row-major index of the pixel in row `row` and column `col` of a `w`-wide image. */
  function PixelIndex(w: nat, row: nat, col: nat): nat { row * w + col }

  lemma PixelIndexBound(w: nat, h: nat, row: nat, col: nat)
    requires row < h && col < w
    ensures PixelIndex(w, row, col) < w * h
  {
    assert row * w + col < row * w + w == (row + 1) * w;
    assert (row + 1) * w <= h * w by {
      MulMonotone(row + 1, h, w);
    }
  }

  lemma MulMonotone(a: int, b: int, c: int)
    requires a <= b && 0 <= c
    ensures a * c <= b * c
  {
    assert b * c == a * c + (b - a) * c;
  }

  /**
   * `bitmap.getPixels(argb, 0, w, 0, 0, w, h)`: the top-left `w` x `h` region,
   * row-major with stride `w`. An empty region returns before any check;
   * otherwise Android throws when the region leaves the bitmap.
   */
  function GetPixels(bitmap: Bitmap, w: nat, h: nat): (r: Option<seq<Pixel>>)
    requires bitmap.Valid()
    ensures r.Some? <==> w == 0 || h == 0 || (w <= bitmap.width && h <= bitmap.height)
    ensures r.Some? ==> |r.value| == w * h
  {
    if w == 0 || h == 0 then Some([])
    else if w <= bitmap.width && h <= bitmap.height then
      Some(seq(w * h, k requires 0 <= k < w * h => bitmap.pixels[RegionSource(bitmap, w, h, k)]))
    else
      None
  }

  /** Pixel (row, col) of the region is pixel (row, col) of the bitmap. */
  lemma GetPixelsAt(bitmap: Bitmap, w: nat, h: nat, row: nat, col: nat)
    requires bitmap.Valid() && w <= bitmap.width && h <= bitmap.height && row < h && col < w
    ensures PixelIndex(w, row, col) < w * h
    ensures PixelIndex(bitmap.width, row, col) < |bitmap.pixels|
    ensures GetPixels(bitmap, w, h).value[PixelIndex(w, row, col)] == bitmap.pixels[PixelIndex(bitmap.width, row, col)]
  {
    PixelIndexBound(w, h, row, col);
    PixelIndexBound(bitmap.width, bitmap.height, row, col);
    DivModOfIndex(w, row, col);
  }

  /** Reading a whole bitmap with `getPixels` yields its pixel array. */
  lemma GetPixelsWhole(b: Bitmap)
    requires b.Valid()
    ensures GetPixels(b, b.width, b.height) == Some(b.pixels)
  {
    if b.width == 0 || b.height == 0 {
      assert |b.pixels| == 0;
      return;
    }
    var r := GetPixels(b, b.width, b.height).value;
    forall k | 0 <= k < |r|
      ensures r[k] == b.pixels[k]
    {
      assert RegionSource(b, b.width, b.height, k) == k;
    }
    assert r == b.pixels;
  }

  /** Where the `k`-th pixel of the `w` x `h` region lives in the bitmap. */
  function RegionSource(bitmap: Bitmap, w: nat, h: nat, k: nat): (i: nat)
    requires bitmap.Valid() && w <= bitmap.width && h <= bitmap.height && k < w * h
    ensures i < |bitmap.pixels|
  {
    assert w > 0;
    var row, col := k / w, k % w;
    assert row < h by {
      if row >= h {
        MulMonotone(h, row, w);
      }
    }
    PixelIndexBound(bitmap.width, bitmap.height, row, col);
    PixelIndex(bitmap.width, row, col)
  }

  /** Row and column are recovered from a row-major index by division. */
  lemma DivModOfIndex(w: nat, row: nat, col: nat)
    requires col < w
    ensures PixelIndex(w, row, col) / w == row && PixelIndex(w, row, col) % w == col
  {
    DivModUnique(row * w + col, w, row, col);
  }

  /** Euclidean division is unique: `q * d + r` with `r < d` has quotient `q` and remainder `r`. */
  lemma DivModUnique(n: int, d: int, q: int, r: int)
    requires d > 0 && 0 <= r < d && n == q * d + r
    ensures n / d == q && n % d == r
  {
    var q', r' := n / d, n % d;
    assert n == q' * d + r';
    assert (q - q') * d == r' - r;
    if q > q' {
      MulMonotone(1, q - q', d);
    } else if q < q' {
      MulMonotone(1, q' - q, d);
    }
  }
}
