/**
 * Tensor marshalling of `IATModelLoader`: a 256 x 256 ARGB bitmap becomes a
 * buffer of 1 * 256 * 256 * 3 floats, interleaved (r, g, b per pixel, pixels in
 * row-major order), each channel divided by 255; the network's output buffer,
 * in the same layout, is multiplied by 255, truncated, clamped to [0, 255] and
 * repacked as opaque pixels.
 *
 * Floats are exact reals here: `/ 255.0f` is real division and `toInt()` is
 * truncation toward zero.
 */
module TensorCodec {
  import opened Wrappers
  import opened Pixels

  /** The network's fixed input and output side. */
  const ModelSide: nat := 256
  const PixelCount: nat := 256 * 256
  /** Floats in one tensor, `1 * 256 * 256 * 3`. */
  const FloatCount: nat := 1 * 256 * 256 * 3
  /** Bytes `ByteBuffer.allocateDirect` reserves for one tensor: four per float. */
  const BufferBytes: nat := 1 * 256 * 256 * 3 * 4

  /** The network runs on a buffer and fills an output buffer of `FloatCount` floats. */
  type Inference = f: seq<real> -> seq<real> | forall x :: |f(x)| == FloatCount
    witness (x: seq<real>) => seq(FloatCount, _ => 0.0)

  /** `Bitmap.createScaledBitmap(bitmap, 256, 256, true)`: some 256 x 256 bitmap. */
  type Scaler = f: Bitmap -> Bitmap |
    forall b :: f(b).width == ModelSide && f(b).height == ModelSide && f(b).Valid()
    witness (b: Bitmap) => Blank

  /** An all-zero 256 x 256 bitmap. */
  const Blank: Bitmap := Bitmap(ModelSide, ModelSide, seq(PixelCount, _ => 0))

  /** `channel / 255.0f` */
  function Normalize(c: Byte): (f: real)
    ensures 0.0 <= f <= 1.0
  {
    c as real / 255.0
  }

  /** `Float.toInt()`: the integer part, truncating toward zero. */
  function TruncateToInt(x: real): (n: int)
    ensures 0.0 <= x ==> n as real <= x < n as real + 1.0
    ensures x < 0.0 ==> n as real - 1.0 < x <= n as real
  {
    if 0.0 <= x then x.Floor else -((-x).Floor)
  }

  /** `(f * 255.0f).toInt().coerceIn(0, 255)`: always a channel value, whatever `f` is. */
  function Denormalize(f: real): (c: Byte)
    ensures f * 255.0 < 1.0 ==> c == 0
    ensures 1.0 <= f ==> c == 255
    ensures 0.0 <= f * 255.0 < 256.0 ==> c == (f * 255.0).Floor
  {
    Clamp(TruncateToInt(f * 255.0), 0, 255)
  }

  /** Scaling a channel down and back up returns it unchanged. */
  lemma ChannelRoundTrip(c: Byte)
    ensures Denormalize(Normalize(c)) == c
  {
    assert Normalize(c) * 255.0 == c as real;
  }

  /** The three floats `putFloat` writes for one pixel. */
  function PixelFloats(p: Pixel): seq<real>
  {
    [Normalize(Red(p)), Normalize(Green(p)), Normalize(Blue(p))]
  }

  /** The input tensor for `px`: each pixel's floats appended in order. */
  function EncodePixels(px: seq<Pixel>): (t: seq<real>)
    ensures |t| == 3 * |px|
  {
    if px == [] then [] else EncodePixels(px[..|px| - 1]) + PixelFloats(px[|px| - 1])
  }

  /** Encoding one more pixel appends its three floats. */
  lemma EncodeStep(px: seq<Pixel>, k: nat)
    requires k < |px|
    ensures EncodePixels(px[..k + 1]) == EncodePixels(px[..k]) + PixelFloats(px[k])
  {
    assert px[..k + 1][..k] == px[..k];
  }

  /** Interleaved layout: floats 3k, 3k + 1, 3k + 2 are pixel k's red, green and blue. */
  lemma {:induction false} EncodeLayout(px: seq<Pixel>, k: nat)
    requires k < |px|
    ensures EncodePixels(px)[3 * k] == Normalize(Red(px[k]))
    ensures EncodePixels(px)[3 * k + 1] == Normalize(Green(px[k]))
    ensures EncodePixels(px)[3 * k + 2] == Normalize(Blue(px[k]))
  {
    var n := |px| - 1;
    if k < n {
      EncodeLayout(px[..n], k);
    }
  }

  /** The pixel decoded from floats 3k, 3k + 1 and 3k + 2. */
  function DecodePixel(t: seq<real>, k: nat): Pixel
    requires 3 * k + 2 < |t|
  {
    PackOpaque(Denormalize(t[3 * k]), Denormalize(t[3 * k + 1]), Denormalize(t[3 * k + 2]))
  }

  /** The first `n` pixels read back from tensor `t`, three floats per pixel in order. */
  function DecodePixels(t: seq<real>, n: nat): (px: seq<Pixel>)
    requires 3 * n <= |t|
    ensures |px| == n
  {
    if n == 0 then [] else DecodePixels(t, n - 1) + [DecodePixel(t, n - 1)]
  }

  /**
   * Decoding reads the same interleaved order: pixel k is packed with alpha 0xFF
   * from floats 3k, 3k + 1, 3k + 2, each clamped to a channel value.
   */
  lemma {:induction false} DecodeLayout(t: seq<real>, n: nat, k: nat)
    requires 3 * n <= |t| && k < n
    ensures DecodePixels(t, n)[k] == DecodePixel(t, k)
    ensures Red(DecodePixels(t, n)[k]) == Denormalize(t[3 * k])
    ensures Green(DecodePixels(t, n)[k]) == Denormalize(t[3 * k + 1])
    ensures Blue(DecodePixels(t, n)[k]) == Denormalize(t[3 * k + 2])
    ensures Alpha(DecodePixels(t, n)[k]) == 0xFF
  {
    if k < n - 1 {
      DecodeLayout(t, n - 1, k);
    }
    UnpackPack(Denormalize(t[3 * k]), Denormalize(t[3 * k + 1]), Denormalize(t[3 * k + 2]));
  }

  /** A pixel with its alpha replaced by 0xFF. */
  function Opaque(p: Pixel): (q: Pixel)
    ensures Alpha(q) == 0xFF && Red(q) == Red(p) && Green(q) == Green(p) && Blue(q) == Blue(p)
  {
    UnpackPack(Red(p), Green(p), Blue(p));
    PackOpaque(Red(p), Green(p), Blue(p))
  }

  /**
   * Decoding an encoded buffer returns every pixel with its red, green and blue
   * unchanged and its alpha set to 0xFF; an opaque image comes back exactly.
   */
  lemma RoundTrip(px: seq<Pixel>)
    ensures 3 * |px| <= |EncodePixels(px)|
    ensures forall k | 0 <= k < |px| :: DecodePixels(EncodePixels(px), |px|)[k] == Opaque(px[k])
    ensures (forall k | 0 <= k < |px| :: Alpha(px[k]) == 0xFF) ==> DecodePixels(EncodePixels(px), |px|) == px
  {
    var t := EncodePixels(px);
    forall k | 0 <= k < |px|
      ensures DecodePixels(t, |px|)[k] == Opaque(px[k])
    {
      EncodeLayout(px, k);
      DecodeLayout(t, |px|, k);
      ChannelRoundTrip(Red(px[k]));
      ChannelRoundTrip(Green(px[k]));
      ChannelRoundTrip(Blue(px[k]));
    }
    if forall k | 0 <= k < |px| :: Alpha(px[k]) == 0xFF {
      forall k | 0 <= k < |px|
        ensures DecodePixels(t, |px|)[k] == px[k]
      {
        PackUnpack(px[k]);
      }
    }
  }

  /** An `IATModelLoader`: the interpreter it was created with and the two conversions. */
  class IATModelLoader {
    const interpreter: Inference
    const createScaledBitmap: Scaler

    constructor (interpreter: Inference, createScaledBitmap: Scaler)
      ensures this.interpreter == interpreter && this.createScaledBitmap == createScaledBitmap
    {
      this.interpreter := interpreter;
      this.createScaledBitmap := createScaledBitmap;
    }

    /**
     * `runModel`: encode, run the network, decode a 256 x 256 bitmap. The result
     * is 256 x 256 whatever the input's dimensions.
     */
    method RunModel(inputBitmap: Bitmap) returns (output: Bitmap)
      ensures output.width == ModelSide && output.height == ModelSide && output.Valid()
      ensures output.pixels ==
        DecodePixels(interpreter(EncodePixels(createScaledBitmap(inputBitmap).pixels)), PixelCount)
    {
      var inputBuffer := ConvertBitmapToByteBuffer(inputBitmap);
      var outputBuffer := interpreter(inputBuffer);
      var decoded := ConvertByteBufferToBitmap(outputBuffer, ModelSide, ModelSide);
      output := decoded.value;
    }

    /**
     * `convertBitmapToByteBuffer`: rescale to 256 x 256 and `putFloat` r, g, b of
     * every pixel through an advancing position.
     */
    method ConvertBitmapToByteBuffer(bitmap: Bitmap) returns (buffer: seq<real>)
      ensures |buffer| == FloatCount && 4 * |buffer| == BufferBytes
      ensures buffer == EncodePixels(createScaledBitmap(bitmap).pixels)
    {
      var resizedBitmap := createScaledBitmap(bitmap);
      var byteBuffer := new real[FloatCount];
      GetPixelsWhole(resizedBitmap);
      var intValues := GetPixels(resizedBitmap, ModelSide, ModelSide).value;
      var position := 0;
      for k := 0 to |intValues|
        invariant position == 3 * k
        invariant byteBuffer[..position] == EncodePixels(intValues[..k])
      {
        var pixel := intValues[k];
        var r := Normalize(Red(pixel));
        var g := Normalize(Green(pixel));
        var b := Normalize(Blue(pixel));
        ghost var written := byteBuffer[..position];
        byteBuffer[position] := r;
        byteBuffer[position + 1] := g;
        byteBuffer[position + 2] := b;
        assert byteBuffer[..position + 3] == written + [r, g, b] by {
          assert byteBuffer[..position] == written;
        }
        EncodeStep(intValues, k);
        position := position + 3;
      }
      assert intValues[..|intValues|] == intValues;
      buffer := byteBuffer[..];
    }

    /**
     * `convertByteBufferToBitmap`: read `width * height` pixels' floats in order
     * from the start of the buffer and pack each pixel with alpha 0xFF. A
     * buffer that runs out first throws `BufferUnderflowException`: `None`.
     */
    method ConvertByteBufferToBitmap(buffer: seq<real>, width: nat, height: nat) returns (bitmap: Option<Bitmap>)
      ensures bitmap.Some? <==> 3 * (width * height) <= |buffer|
      ensures bitmap.Some? ==>
        bitmap.value.width == width && bitmap.value.height == height && bitmap.value.Valid() &&
        bitmap.value.pixels == DecodePixels(buffer, width * height)
    {
      var pixels := new Pixel[width * height];
      var position := 0;
      for i := 0 to width * height
        invariant position == 3 * i && position <= |buffer|
        invariant pixels[..i] == DecodePixels(buffer, i)
      {
        if position + 3 > |buffer| {
          return None;   // buffer.float underflows
        }
        var r := Denormalize(buffer[position]);
        var g := Denormalize(buffer[position + 1]);
        var b := Denormalize(buffer[position + 2]);
        position := position + 3;
        pixels[i] := PackOpaque(r, g, b);
        assert pixels[i] == DecodePixel(buffer, i);
        assert pixels[..i + 1] == pixels[..i] + [pixels[i]];
        assert DecodePixels(buffer, i + 1) == DecodePixels(buffer, i) + [DecodePixel(buffer, i)];
      }
      bitmap := Some(Bitmap(width, height, pixels[..]));
    }
  }
}
