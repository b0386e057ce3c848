/**
 * `VideoEncoder`: frames are offered to a bounded queue, a worker coroutine
 * converts them to NV12 and feeds the hardware H.264 encoder, and every
 * frame is followed by a drain of the encoder's output into an MP4 muxer.
 *
 * The platform objects are modelled by what the class can observe of them:
 * the encoder's answers to `dequeueInputBuffer` and `dequeueOutputBuffer`
 * are scripts fixed at construction (`inputSlots`, `codecOutputs`), the
 * muxer is the samples written to it, and each handle is in one of the
 * states Null, Open, Stopped or Released.
 */
module VideoEncoding {
  import opened Wrappers
  import opened Pixels
  import opened Nv12
  import opened Codec
  import opened FrameWorker

  /** The capacity of `ArrayBlockingQueue<Bitmap>(10)`. */
  const QueueCapacity := 10
  /** Microseconds per second, the numerator of the frame interval. */
  const MicrosPerSecond := 1000000

  /** Division of a natural number by a positive one, rounding down, as repeated subtraction. */
  function Quotient(n: nat, d: nat): nat
    requires d > 0
    decreases n
  {
    if n < d then 0 else 1 + Quotient(n - d, d)
  }

  lemma {:induction false} QuotientIsDivision(n: nat, d: nat)
    requires d > 0
    ensures Quotient(n, d) == n / d
    decreases n
  {
    if n < d {
      DivModUnique(n, d, 0, n);
    } else {
      QuotientIsDivision(n - d, d);
      var q, r := (n - d) / d, (n - d) % d;
      assert n == (q + 1) * d + r;
      DivModUnique(n, d, q + 1, r);
    }
  }

  /** `(1000000 / frameRate).toLong()`: Kotlin's Int division truncates toward zero. */
  function FrameInterval(frameRate: int): int
    requires frameRate != 0
  {
    if frameRate > 0 then Quotient(MicrosPerSecond, frameRate) else -(Quotient(MicrosPerSecond, -frameRate) as int)
  }

  /**
   * The interval is the quotient of one second by the frame rate rounded
   * toward zero: it is positive exactly for rates from 1 to 1000000,
   * negative exactly for rates from -1000000 to -1, and zero otherwise.
   */
  lemma FrameIntervalBounds(frameRate: int)
    requires frameRate != 0
    ensures var iv := FrameInterval(frameRate);
      frameRate > 0 ==> iv == MicrosPerSecond / frameRate && frameRate * iv <= MicrosPerSecond < frameRate * (iv + 1)
    ensures var iv := FrameInterval(frameRate);
      frameRate < 0 ==> -iv == MicrosPerSecond / -frameRate && -frameRate * -iv <= MicrosPerSecond < -frameRate * (-iv + 1)
    ensures FrameInterval(frameRate) > 0 <==> 0 < frameRate <= MicrosPerSecond
    ensures FrameInterval(frameRate) < 0 <==> -MicrosPerSecond <= frameRate < 0
    ensures FrameInterval(frameRate) == 0 <==> frameRate > MicrosPerSecond || frameRate < -MicrosPerSecond
  {
    if frameRate > 0 {
      QuotientIsDivision(MicrosPerSecond, frameRate);
    } else {
      QuotientIsDivision(MicrosPerSecond, -frameRate);
    }
  }

  /** The state of a `MediaCodec?` or `MediaMuxer?` field. */
  datatype Handle = Null | Open | Stopped | Released

  /** What `completionDeferred` holds. */
  datatype Completion = Pending | Completed(path: string) | CompletedExceptionally(error: EncoderError)

  /** The calls in `start()` that can throw. */
  datatype StartStep = CreateEncoder | ConfigureEncoder | StartEncoder | CreateMuxer

  /** The calls in the `try` block of `stop()`, in source order. */
  datatype TeardownCall = EncoderStop | EncoderRelease | MuxerStop | MuxerRelease

  /**
   * The first `yIndex` bytes of `s` are the luma of the first `yIndex`
   * pixels and the bytes from `w * h` up to `uvIndex` are the first chroma
   * bytes of the reference layout.
   */
  ghost predicate Written(argb: seq<Pixel>, s: seq<Byte>, w: nat, h: nat, yIndex: nat, uvIndex: nat)
    requires |argb| == w * h
  {
    yIndex <= w * h <= uvIndex <= |s| &&
    (forall k | 0 <= k < yIndex :: s[k] == Luma(argb[k])) &&
    (forall m | w * h <= m < uvIndex :: m - w * h < ChromaWrites(w, h) && s[m] == ChromaByte(argb, w, h, m - w * h))
  }

  /**
   * The conversion loop before row `j`: the luma of rows `0 .. j` and the
   * chroma pairs of their even rows are in place.
   */
  ghost predicate AtRow(argb: seq<Pixel>, s: seq<Byte>, w: nat, h: nat, j: nat, yIndex: nat, uvIndex: nat)
  {
    |argb| == w * h && |s| == BufferSize(w, h) && j <= h &&
    yIndex == j * w && uvIndex == w * h + 2 * (ChromaRows(j) * ChromaColumns(w)) &&
    Written(argb, s, w, h, yIndex, uvIndex)
  }

  /** A buffer written to the end of both planes, with the writes fitting, is the reference frame. */
  lemma WrittenIsFrame(argb: seq<Pixel>, s: seq<Byte>, w: nat, h: nat)
    requires |argb| == w * h && |s| == BufferSize(w, h)
    requires Written(argb, s, w, h, w * h, w * h + ChromaWrites(w, h))
    ensures Fits(w, h) && s == Nv12Frame(argb, w, h)
  {
    FitsExactly(w, h);
    assert s == Nv12Frame(argb, w, h);
  }

  /** Writing the next luma byte extends the written prefix. */
  lemma WriteLuma(argb: seq<Pixel>, s: seq<Byte>, w: nat, h: nat, yIndex: nat, uvIndex: nat)
    requires |argb| == w * h && Written(argb, s, w, h, yIndex, uvIndex) && yIndex < w * h
    ensures Written(argb, s[yIndex := Luma(argb[yIndex])], w, h, yIndex + 1, uvIndex)
  {
  }

  /** Writing the next chroma byte extends the written chroma run. */
  lemma WriteChroma(argb: seq<Pixel>, s: seq<Byte>, w: nat, h: nat, yIndex: nat, uvIndex: nat)
    requires |argb| == w * h && Written(argb, s, w, h, yIndex, uvIndex)
    requires uvIndex < |s| && uvIndex - w * h < ChromaWrites(w, h)
    ensures Written(argb, s[uvIndex := ChromaByte(argb, w, h, uvIndex - w * h)], w, h, yIndex, uvIndex + 1)
  {
  }

  /** The chroma cursor after row `j` of the loop. */
  lemma NextRow(w: nat, j: nat, cw: nat)
    ensures ChromaRows(j + 1) * cw == ChromaRows(j) * cw + (if j % 2 == 0 then cw else 0)
  {
    var a := ChromaRows(j);
    if j % 2 == 0 {
      assert ChromaRows(j + 1) == a + 1;
      assert (a + 1) * cw == a * cw + cw;
    } else {
      assert ChromaRows(j + 1) == a;
    }
  }

  lemma ColumnStep(i: nat)
    ensures ChromaColumns(i + 1) == ChromaColumns(i) + (if i % 2 == 0 then 1 else 0)
  {
  }

  /** In an even row, before the pixel in even column `i`, the chroma cursor is at pair `PairIndex(w, j, i)`. */
  lemma CursorAtPair(w: nat, j: nat, i: nat, base: int, uvStart: int, uvIndex: int)
    requires j % 2 == 0 && i % 2 == 0
    requires uvStart == base + 2 * (ChromaRows(j) * ChromaColumns(w))
    requires uvIndex == uvStart + 2 * ChromaColumns(i)
    ensures uvIndex == base + 2 * PairIndex(w, j, i)
  {
    assert ChromaRows(j) == j / 2 && ChromaColumns(i) == i / 2;
  }

  /**
   * Whether a teardown call on a non-null handle returns normally: calls on a
   * released object throw, `MediaMuxer.stop` throws unless the muxer was
   * started, and `fault` names a call the platform rejects for its own reasons.
   */
  predicate CallReturns(call: TeardownCall, h: Handle, muxerStarted: bool, fault: Option<TeardownCall>)
  {
    h != Released && fault != Some(call) && (call == MuxerStop ==> muxerStarted)
  }

  /** The calls of a teardown that returned normally, and whether one threw. */
  datatype TeardownResult = TeardownResult(calls: seq<TeardownCall>, threw: bool)

  /** `h?.stop(); h?.release()`, up to the first call that throws. */
  function StopAndRelease(h: Handle, stop: TeardownCall, release: TeardownCall, muxerStarted: bool,
                          fault: Option<TeardownCall>): TeardownResult
  {
    if h == Null then TeardownResult([], false)
    else if !CallReturns(stop, h, muxerStarted, fault) then TeardownResult([], true)
    else if !CallReturns(release, h, muxerStarted, fault) then TeardownResult([stop], true)
    else TeardownResult([stop, release], false)
  }

  /** The `try` block of `stop()`: encoder stop and release, then muxer stop and release. */
  function Teardown(encoder: Handle, muxer: Handle, muxerStarted: bool, fault: Option<TeardownCall>): TeardownResult
  {
    var e := StopAndRelease(encoder, EncoderStop, EncoderRelease, muxerStarted, fault);
    if e.threw then e
    else
      var m := StopAndRelease(muxer, MuxerStop, MuxerRelease, muxerStarted, fault);
      TeardownResult(e.calls + m.calls, m.threw)
  }

  /** The position of a call in the source order of `stop()`. */
  function Rank(call: TeardownCall): nat
  {
    match call
    case EncoderStop => 0
    case EncoderRelease => 1
    case MuxerStop => 2
    case MuxerRelease => 3
  }

  /**
   * `stop()` calls the platform in source order: each call at most once, the
   * encoder's stop before its release, and both before anything on the muxer.
   */
  lemma TeardownOrdered(encoder: Handle, muxer: Handle, muxerStarted: bool, fault: Option<TeardownCall>)
    ensures var t := Teardown(encoder, muxer, muxerStarted, fault);
      forall i, k | 0 <= i < k < |t.calls| :: Rank(t.calls[i]) < Rank(t.calls[k])
  {
  }

  /**
   * The teardown throws exactly when a present handle is already released,
   * the muxer is present but was never started, or the platform rejects a
   * call made; otherwise every present handle is stopped and released.
   */
  lemma TeardownOutcome(encoder: Handle, muxer: Handle, muxerStarted: bool, fault: Option<TeardownCall>)
    ensures var t := Teardown(encoder, muxer, muxerStarted, fault);
      t.threw <==>
        (encoder != Null && (encoder == Released || fault == Some(EncoderStop) || fault == Some(EncoderRelease))) ||
        (muxer != Null && (muxer == Released || !muxerStarted || fault == Some(MuxerStop) || fault == Some(MuxerRelease)))
    ensures var t := Teardown(encoder, muxer, muxerStarted, fault);
      !t.threw ==>
        t.calls == (if encoder != Null then [EncoderStop, EncoderRelease] else []) +
                   (if muxer != Null then [MuxerStop, MuxerRelease] else [])
  {
  }

  /** A handle after the teardown calls `calls`. */
  function AfterTeardown(h: Handle, stop: TeardownCall, release: TeardownCall, calls: seq<TeardownCall>): Handle
  {
    if release in calls then Released else if stop in calls then Stopped else h
  }

  /**
   * `complete` and `completeExceptionally` on a `CompletableDeferred`: only
   * the first call takes effect, later ones are ignored.
   */
  function Resolve(c: Completion, outcome: Completion): Completion
  {
    if c.Pending? then outcome else c
  }

  /** Once resolved, the deferred keeps its first value whatever is offered later. */
  lemma ResolveOnce(c: Completion, first: Completion, later: Completion)
    requires first != Pending
    ensures Resolve(c, first) != Pending
    ensures Resolve(Resolve(c, first), later) == Resolve(c, first)
    ensures c != Pending ==> Resolve(c, first) == c
  {
  }

  /** What the end of the `try` block of `stop()` offers the deferred. */
  function Outcome(outputPath: string, t: TeardownResult): Completion
  {
    if t.threw then CompletedExceptionally(TeardownFailed) else Completed(outputPath)
  }

  /**
   * `processFrames` from pipeline `p`: a zero frame rate throws in the
   * division before the loop, any other runs the loop as `WorkerLoop` says.
   */
  function RunFrames(p: Pipeline, running: bool, size: FrameSize, frameRate: int): WorkerRun
  {
    if frameRate == 0 then WorkerRun(p, Crashed(FrameRateZero)) else WorkerLoop(p, running, size, FrameInterval(frameRate))
  }

  /**
   * The worker once `stop()` as written has cancelled the scope and joined:
   * a live worker suspended in `delay(10)` is cancelled, one in the middle
   * of an iteration has to leave the loop by itself with `isRunning` false.
   */
  function StopRun(p: Pipeline, w: Worker, workerRunning: bool, size: FrameSize, frameRate: int): WorkerRun
  {
    if w != Alive then WorkerRun(p, w)
    else if !workerRunning then WorkerRun(p, Cancelled)
    else RunFrames(p, false, size, frameRate)
  }

  /**
   * The worker once `stop()` as its comment describes it has joined: a live
   * worker leaves its loop, and then drains in end-of-stream mode.
   */
  function DrainRun(p: Pipeline, w: Worker, size: FrameSize, frameRate: int): WorkerRun
  {
    if w != Alive then WorkerRun(p, w)
    else if frameRate == 0 then WorkerRun(p, Crashed(FrameRateZero))
    else FinishRun(p, size, FrameInterval(frameRate))
  }

  /**
   * After `stop()` as written the worker is no longer alive: cancelled,
   * finished with an empty queue, or crashed; a blocked worker stays blocked,
   * and no worker becomes blocked.
   */
  lemma StopRunEnds(p: Pipeline, w: Worker, workerRunning: bool, size: FrameSize, frameRate: int)
    ensures var r := StopRun(p, w, workerRunning, size, frameRate);
      r.worker != Alive && (r.worker == Blocked <==> w == Blocked)
    ensures var r := StopRun(p, w, workerRunning, size, frameRate);
      w == Alive && workerRunning ==> (r.worker.Finished? && r.p.queue == []) || r.worker.Crashed?
  {
    if w == Alive && workerRunning && frameRate != 0 {
      WorkerLoopEnds(p, false, size, FrameInterval(frameRate));
    }
  }

  /**
   * After the draining stop a live worker has finished its loop and its
   * end-of-stream drain, has crashed, or is blocked waiting for the
   * end-of-stream buffer; it is never left alive or cancelled.
   */
  lemma DrainRunEnds(p: Pipeline, w: Worker, size: FrameSize, frameRate: int)
    ensures var r := DrainRun(p, w, size, frameRate);
      w != Alive ==> r.worker == w
    ensures var r := DrainRun(p, w, size, frameRate);
      w == Alive ==> r.worker.Finished? || r.worker.Crashed? || r.worker.Blocked?
  {
    if w == Alive && frameRate != 0 {
      WorkerLoopEnds(p, false, size, FrameInterval(frameRate));
    }
  }

  /** Every bitmap in `frames` has its full pixel array. */
  ghost predicate AllValid(frames: seq<Bitmap>)
  {
    forall f | f in frames :: f.Valid()
  }

  lemma AllValidTail(frames: seq<Bitmap>)
    requires frames != [] && AllValid(frames)
    ensures frames[0].Valid() && AllValid(frames[1..])
  {
    assert frames[0] in frames;
    forall f | f in frames[1..] ensures f.Valid() {
      assert f in frames;
    }
  }

  class VideoEncoder {
    const outputPath: string
    const width: nat
    const height: nat
    const frameRate: int

    var encoder: Handle
    var muxer: Handle
    var videoTrackIndex: int
    var isMuxerStarted: bool
    /** The number of tracks added to the muxer. */
    var muxerTracks: nat
    /** The `writeSampleData` calls made on the muxer, in order. */
    var samples: seq<Sample>
    var frameQueue: seq<Bitmap>
    var isRunning: bool
    var completion: Completion
    var worker: Worker
    /** The worker's local `presentationTimeUs`. */
    var workerPts: int
    /** The `queueInputBuffer` calls made on the encoder, in order. */
    var inputs: seq<InputFrame>
    /** What the coming `dequeueInputBuffer` calls return; once used up, each call times out. */
    var inputSlots: seq<InputSlot>
    /** What the coming `dequeueOutputBuffer` calls return; once used up, each call times out. */
    var codecOutputs: seq<OutputResult>
    /** Whether `signalEndOfInputStream` was called. */
    var endOfInputSignalled: bool
    /** The platform calls of `stop()` that returned normally, in order. */
    var teardown: seq<TeardownCall>
    /** Whether `scope.cancel()` was called: a coroutine launched afterwards never runs. */
    var scopeCancelled: bool

    /** The muxer-related fields as one value. */
    function Mux(): MuxState
      reads this`isMuxerStarted, this`videoTrackIndex, this`muxerTracks, this`samples
    {
      MuxState(isMuxerStarted, videoTrackIndex, muxerTracks, samples)
    }

    /** What the worker reads and changes, as one value. */
    function Pipe(): Pipeline
      reads this`frameQueue, this`inputSlots, this`codecOutputs, this`inputs, this`workerPts
      reads this`isMuxerStarted, this`videoTrackIndex, this`muxerTracks, this`samples
    {
      Pipeline(frameQueue, inputSlots, codecOutputs, Mux(), inputs, workerPts)
    }

    /** The bounded queue holds at most ten frames, each a well-formed bitmap. */
    ghost predicate QueueOk()
      reads this`frameQueue
    {
      |frameQueue| <= QueueCapacity && AllValid(frameQueue)
    }

    /** A worker that may still use the codec and muxer finds both open. */
    ghost predicate HandlesOk()
      reads this`worker, this`encoder, this`muxer
    {
      (worker == Alive || worker == Blocked) ==> encoder == Open && muxer == Open
    }

    ghost predicate Valid()
      reads this`frameQueue, this`isMuxerStarted, this`videoTrackIndex, this`muxerTracks, this`samples
      reads this`worker, this`encoder, this`muxer
    {
      QueueOk() && MuxInv(Mux()) && HandlesOk()
    }

    /**
     * The handles, the teardown log and the deferred after the `try` block of
     * `stop()` ran on `encoder0` and `muxer0`: the calls `Teardown` makes are
     * logged, each handle is stopped or released as far as they got, and the
     * deferred is offered the path, or the error when a call threw.
     */
    ghost predicate ClosedFrom(encoder0: Handle, muxer0: Handle, teardown0: seq<TeardownCall>,
                               completion0: Completion, fault: Option<TeardownCall>)
      reads this`isMuxerStarted, this`teardown, this`encoder, this`muxer, this`completion
    {
      var t := Teardown(encoder0, muxer0, isMuxerStarted, fault);
      var e := StopAndRelease(encoder0, EncoderStop, EncoderRelease, isMuxerStarted, fault);
      var m := if e.threw then TeardownResult([], true) else StopAndRelease(muxer0, MuxerStop, MuxerRelease, isMuxerStarted, fault);
      teardown == teardown0 + t.calls &&
      encoder == AfterTeardown(encoder0, EncoderStop, EncoderRelease, e.calls) &&
      muxer == AfterTeardown(muxer0, MuxerStop, MuxerRelease, m.calls) &&
      completion == Resolve(completion0, Outcome(outputPath, t))
    }

    constructor(outputPath: string, width: nat, height: nat, frameRate: int,
                inputSlots: seq<InputSlot>, codecOutputs: seq<OutputResult>)
      ensures Valid()
      ensures this.outputPath == outputPath && this.width == width && this.height == height && this.frameRate == frameRate
      ensures this.inputSlots == inputSlots && this.codecOutputs == codecOutputs
      ensures encoder == Null && muxer == Null && Mux() == InitialMux
      ensures frameQueue == [] && !isRunning && completion == Pending && worker == NotLaunched
      ensures inputs == [] && workerPts == 0 && teardown == [] && !endOfInputSignalled && !scopeCancelled
    {
      this.outputPath := outputPath;
      this.width := width;
      this.height := height;
      this.frameRate := frameRate;
      this.inputSlots := inputSlots;
      this.codecOutputs := codecOutputs;
      encoder := Null;
      muxer := Null;
      videoTrackIndex := -1;
      isMuxerStarted := false;
      muxerTracks := 0;
      samples := [];
      frameQueue := [];
      isRunning := false;
      completion := Pending;
      worker := NotLaunched;
      workerPts := 0;
      inputs := [];
      endOfInputSignalled := false;
      teardown := [];
      scopeCancelled := false;
    }

    /**
     * `bitmapToNV12`: the luma of every pixel in row-major order from index
     * 0, and from index `width * height` one (U, V) pair for each pixel in an
     * even row and even column. `None` where the source throws.
     */
    method BitmapToNV12(bitmap: Bitmap) returns (yuv: Option<seq<Byte>>)
      requires bitmap.Valid()
      ensures yuv == Convert(bitmap, width, height)
    {
      var region := GetPixels(bitmap, width, height);
      if region.None? {
        return None;
      }
      var argb := region.value;
      var wh := width * height;
      var out := new Byte[wh * 3 / 2];
      var yIndex: nat := 0;
      var uvIndex: nat := wh;
      for j := 0 to height
        invariant AtRow(argb, out[..], width, height, j, yIndex, uvIndex)
      {
        var ok;
        ok, yIndex, uvIndex := ConvertRow(argb, out, j, yIndex, uvIndex);
        if !ok {
          return None;
        }
      }
      assert yIndex == width * height;
      assert uvIndex == width * height + ChromaWrites(width, height);
      WrittenIsFrame(argb, out[..], width, height);
      yuv := Some(out[..]);
      assert yuv == Some(Nv12Frame(argb, width, height));
    }

    /** Row `j` of the conversion loop; false when a chroma write would run past the buffer. */
    method ConvertRow(argb: seq<Pixel>, out: array<Byte>, j: nat, yStart: nat, uvStart: nat)
      returns (ok: bool, yIndex: nat, uvIndex: nat)
      requires j < height && AtRow(argb, out[..], width, height, j, yStart, uvStart)
      modifies out
      ensures ok ==> AtRow(argb, out[..], width, height, j + 1, yIndex, uvIndex)
      ensures !ok ==> !Fits(width, height)
    {
      ghost var rowStart := ChromaRows(j) * ChromaColumns(width);
      assert yStart == j * width && uvStart == width * height + 2 * rowStart;
      assert |argb| == width * height && out.Length == BufferSize(width, height);
      yIndex, uvIndex := yStart, uvStart;
      for i := 0 to width
        invariant yIndex == yStart + i
        invariant uvIndex == uvStart + (if j % 2 == 0 then 2 * ChromaColumns(i) else 0)
        invariant Written(argb, out[..], width, height, yIndex, uvIndex)
      {
        PixelIndexBound(width, height, j, i);
        ColumnStep(i);
        var pixel := argb[j * width + i];
        WriteLuma(argb, out[..], width, height, yIndex, uvIndex);
        out[yIndex] := Luma(pixel);
        yIndex := yIndex + 1;
        if j % 2 == 0 && i % 2 == 0 {
          CursorAtPair(width, j, i, width * height, uvStart, uvIndex);
          var written;
          written, uvIndex := WritePair(argb, out, j, i, yIndex, uvIndex, pixel);
          if !written {
            return false, yIndex, uvIndex;
          }
        }
      }
      NextRow(width, j, ChromaColumns(width));
      assert (j + 1) * width == j * width + width;
      assert yIndex == (j + 1) * width;
      assert uvIndex == width * height + 2 * (ChromaRows(j + 1) * ChromaColumns(width));
      ok := true;
    }

    /** The U and V writes for pixel (j, i), both even; false when the buffer ends first. */
    method WritePair(argb: seq<Pixel>, out: array<Byte>, j: nat, i: nat, yIndex: nat, uvStart: nat, pixel: Pixel)
      returns (ok: bool, uvIndex: nat)
      requires |argb| == width * height && out.Length == BufferSize(width, height)
      requires j < height && i < width && j % 2 == 0 && i % 2 == 0
      requires uvStart == width * height + 2 * PairIndex(width, j, i)
      requires PixelIndex(width, j, i) < |argb| && pixel == argb[PixelIndex(width, j, i)]
      requires Written(argb, out[..], width, height, yIndex, uvStart)
      modifies out
      ensures ok ==> uvIndex == uvStart + 2 && Written(argb, out[..], width, height, yIndex, uvIndex)
      ensures !ok ==> !Fits(width, height)
    {
      PairBytes(argb, width, height, j, i);
      uvIndex := uvStart;
      if uvIndex >= out.Length {
        return false, uvIndex;
      }
      WriteChroma(argb, out[..], width, height, yIndex, uvIndex);
      out[uvIndex] := ChromaU(pixel);
      uvIndex := uvIndex + 1;
      if uvIndex >= out.Length {
        return false, uvIndex;
      }
      WriteChroma(argb, out[..], width, height, yIndex, uvIndex);
      out[uvIndex] := ChromaV(pixel);
      uvIndex := uvIndex + 1;
      ok := true;
    }

    /** `enqueueFrame`: `offer` appends unless the queue is full, and nothing is offered when not running. */
    method EnqueueFrame(bitmap: Bitmap)
      requires Valid() && bitmap.Valid()
      modifies this`frameQueue
      ensures Valid()
      ensures frameQueue ==
        if old(isRunning) && |old(frameQueue)| < QueueCapacity then old(frameQueue) + [bitmap] else old(frameQueue)
    {
      if isRunning && |frameQueue| < QueueCapacity {
        frameQueue := frameQueue + [bitmap];
      }
    }

    /**
     * The first half of one iteration of the `processFrames` loop: the head
     * of the queue is polled, an input buffer is asked for, and with one the
     * frame is converted and queued, exactly as `Feed` says.
     */
    method FeedOne(frameIntervalUs: int) returns (crash: Option<EncoderError>)
      requires QueueOk()
      requires frameQueue != []
      modifies this`frameQueue, this`inputSlots, this`inputs, this`workerPts
      ensures QueueOk()
      ensures var f := Feed(old(Pipe()), FrameSize(width, height), frameIntervalUs);
        Pipe() == f.p && crash == f.crash
    {
      ghost var p0 := Pipe();
      var bitmap := frameQueue[0];
      frameQueue := frameQueue[1..];
      AllValidTail(p0.queue);
      var slot := NextSlot(inputSlots);
      inputSlots := RestSlots(inputSlots);
      crash := None;
      if slot == Slot {
        var yuvData := BitmapToNV12(bitmap);
        if yuvData.None? {
          crash := Some(FrameConversionFailed);
        } else {
          inputs := inputs + [InputFrame(bitmap, yuvData.value, workerPts)];
          workerPts := workerPts + frameIntervalUs;
        }
      }
    }

    /**
     * One iteration of the `processFrames` loop on a non-empty queue: the
     * feed, then `drainEncoder(false)`, exactly as `WorkerTurn` says.
     */
    method ProcessOne(frameIntervalUs: int) returns (crash: Option<EncoderError>)
      requires Valid() && worker == Alive
      requires frameQueue != []
      modifies this`frameQueue, this`inputSlots, this`codecOutputs, this`isMuxerStarted, this`videoTrackIndex,
               this`muxerTracks, this`samples, this`inputs, this`workerPts, this`endOfInputSignalled
      ensures Valid() && endOfInputSignalled == old(endOfInputSignalled)
      ensures var t := WorkerTurn(old(Pipe()), FrameSize(width, height), frameIntervalUs);
        Pipe() == t.p && crash == t.crash
    {
      ghost var p0 := Pipe();
      crash := FeedOne(frameIntervalUs);
      ghost var f := Feed(p0, FrameSize(width, height), frameIntervalUs);
      assert Pipe() == f.p;
      if crash.None? {
        var end := DrainEncoder(false);
        crash := if end.Threw? then Some(end.error) else None;
        assert WorkerTurn(p0, FrameSize(width, height), frameIntervalUs) == DrainTurn(f.p);
        ghost var d := Drain(f.p.mux, f.p.outputs, false);
        assert Mux() == d.mux && codecOutputs == f.p.outputs[d.consumed..];
        assert frameQueue == f.p.queue && inputSlots == f.p.slots && inputs == f.p.inputs && workerPts == f.p.pts;
      }
    }

    /**
     * `processFrames` from where the coroutine stands until it suspends in
     * `delay(10)` (the queue is empty while running), leaves its loop, or
     * throws: exactly the run `WorkerLoop` describes. A zero frame rate
     * throws in the division before the loop.
     */
    method ProcessFrames()
      requires Valid() && worker == Alive
      modifies this`frameQueue, this`inputSlots, this`codecOutputs, this`isMuxerStarted, this`videoTrackIndex,
               this`muxerTracks, this`samples, this`inputs, this`workerPts, this`endOfInputSignalled, this`worker
      ensures Valid() && endOfInputSignalled == old(endOfInputSignalled)
      ensures frameRate == 0 ==> worker == Crashed(FrameRateZero) && Pipe() == old(Pipe())
      ensures frameRate != 0 ==>
        WorkerRun(Pipe(), worker) ==
        WorkerLoop(old(Pipe()), isRunning, FrameSize(width, height), FrameInterval(frameRate))
    {
      if frameRate == 0 {
        worker := Crashed(FrameRateZero);
        return;
      }
      var frameIntervalUs := FrameInterval(frameRate);
      ghost var goal := WorkerLoop(Pipe(), isRunning, FrameSize(width, height), frameIntervalUs);
      while isRunning || frameQueue != []
        invariant Valid() && worker == Alive && endOfInputSignalled == old(endOfInputSignalled)
        invariant WorkerLoop(Pipe(), isRunning, FrameSize(width, height), frameIntervalUs) == goal
        decreases |frameQueue|
      {
        if frameQueue == [] {
          return;   // suspended in delay(10) until a frame arrives or the coroutine is cancelled
        }
        var crash := ProcessOne(frameIntervalUs);
        if crash.Some? {
          worker := Crashed(crash.value);
          return;
        }
      }
      worker := Finished;
    }

    /**
     * `start()`: the encoder is created, configured and started and the
     * muxer created; then `isRunning` is set and the worker launched. When
     * the step `failure` throws, the deferred completes with the error and
     * `stop()` runs, with no worker to cancel, on whatever handles exist by
     * then; the path it then offers the deferred is ignored.
     */
    method Start(failure: Option<StartStep>, fault: Option<TeardownCall>)
      requires Valid() && worker == NotLaunched
      modifies this`isRunning, this`worker, this`encoder, this`muxer, this`teardown, this`completion, this`scopeCancelled
      ensures Valid()
      ensures failure == None ==>
        encoder == Open && muxer == Open && isRunning &&
        worker == (if old(scopeCancelled) then Cancelled else Alive) &&
        teardown == old(teardown) && completion == old(completion) && scopeCancelled == old(scopeCancelled)
      ensures failure.Some? ==>
        var encoder0 := if failure == Some(CreateEncoder) then old(encoder) else Open;
        !isRunning && worker == NotLaunched && scopeCancelled &&
        ClosedFrom(encoder0, old(muxer), old(teardown), Resolve(old(completion), CompletedExceptionally(StartFailed)), fault) &&
        completion == Resolve(old(completion), CompletedExceptionally(StartFailed))
    {
      if failure != Some(CreateEncoder) {
        encoder := Open;
      }
      if failure.None? {
        muxer := Open;
        isRunning := true;
        worker := if scopeCancelled then Cancelled else Alive;
        return;
      }
      completion := Resolve(completion, CompletedExceptionally(StartFailed));
      ResolveOnce(old(completion), CompletedExceptionally(StartFailed), Outcome(outputPath, Teardown(encoder, muxer, isMuxerStarted, fault)));
      // stop() with no worker launched: the flags, an empty join, the teardown
      isRunning := false;
      scopeCancelled := true;
      CloseAll(fault);
    }

    /**
     * `stop()` as written: `isRunning` is cleared and the scope cancelled
     * before the join. A worker suspended in `delay(10)` is cancelled there;
     * one in the middle of an iteration (`workerRunning`) never reaches a
     * suspension point again and works off the queue, as `WorkerLoop` with
     * `running` false says. Neither signals the end of input nor drains in
     * end-of-stream mode. Then the handles are torn down and the deferred
     * offered the outcome. With a `Blocked` worker the join never returns.
     */
    method Stop(workerRunning: bool, fault: Option<TeardownCall>)
      requires Valid()
      modifies this`frameQueue, this`inputSlots, this`codecOutputs, this`isMuxerStarted, this`videoTrackIndex,
               this`muxerTracks, this`samples, this`inputs, this`workerPts, this`endOfInputSignalled, this`worker
      modifies this`isRunning, this`encoder, this`muxer, this`teardown, this`completion, this`scopeCancelled
      ensures Valid() && !isRunning && scopeCancelled
      ensures endOfInputSignalled == old(endOfInputSignalled)
      ensures WorkerRun(Pipe(), worker) == StopRun(old(Pipe()), old(worker), workerRunning, FrameSize(width, height), frameRate)
      ensures old(worker) == Blocked ==>
        encoder == old(encoder) && muxer == old(muxer) && teardown == old(teardown) && completion == old(completion)
      ensures old(worker) != Blocked ==> ClosedFrom(old(encoder), old(muxer), old(teardown), old(completion), fault)
    {
      ghost var p0, w0 := Pipe(), worker;
      CancelAndJoin(workerRunning);
      StopRunEnds(p0, w0, workerRunning, FrameSize(width, height), frameRate);
      if worker == Blocked {
        return;   // runBlocking { join() } waits forever
      }
      assert encoder == old(encoder) && muxer == old(muxer) && teardown == old(teardown) && completion == old(completion);
      CloseAll(fault);
    }

    /** The part of `stop()` before its `try` block: `isRunning = false`, `scope.cancel()`, the join. */
    method CancelAndJoin(workerRunning: bool)
      requires Valid()
      modifies this`frameQueue, this`inputSlots, this`codecOutputs, this`isMuxerStarted, this`videoTrackIndex,
               this`muxerTracks, this`samples, this`inputs, this`workerPts, this`endOfInputSignalled, this`worker
      modifies this`isRunning, this`scopeCancelled
      ensures Valid() && !isRunning && scopeCancelled
      ensures endOfInputSignalled == old(endOfInputSignalled)
      ensures WorkerRun(Pipe(), worker) == StopRun(old(Pipe()), old(worker), workerRunning, FrameSize(width, height), frameRate)
    {
      isRunning := false;
      scopeCancelled := true;
      if worker == Alive {
        if workerRunning {
          ProcessFrames();
        } else {
          worker := Cancelled;
        }
      }
    }

    /**
     * `stop()` as its comment describes it: the worker is not cancelled but
     * let run to the end of its loop, then signals the end of input and
     * drains in end-of-stream mode, as `FinishRun` says; only then are the
     * handles torn down. A worker that never sees the end-of-stream buffer
     * keeps the join, and so this call, from returning.
     */
    method StopAndDrain(fault: Option<TeardownCall>)
      requires Valid()
      modifies this`frameQueue, this`inputSlots, this`codecOutputs, this`isMuxerStarted, this`videoTrackIndex,
               this`muxerTracks, this`samples, this`inputs, this`workerPts, this`endOfInputSignalled, this`worker
      modifies this`isRunning, this`encoder, this`muxer, this`teardown, this`completion, this`scopeCancelled
      ensures Valid() && !isRunning && scopeCancelled
      ensures WorkerRun(Pipe(), worker) == DrainRun(old(Pipe()), old(worker), FrameSize(width, height), frameRate)
      ensures endOfInputSignalled ==
        (old(endOfInputSignalled) ||
         (old(worker) == Alive && RunFrames(old(Pipe()), false, FrameSize(width, height), frameRate).worker == Finished))
      ensures worker == Blocked ==>
        encoder == old(encoder) && muxer == old(muxer) && teardown == old(teardown) && completion == old(completion)
      ensures worker != Blocked ==> ClosedFrom(old(encoder), old(muxer), old(teardown), old(completion), fault)
    {
      ghost var p0, w0 := Pipe(), worker;
      FinishAndJoin();
      DrainRunEnds(p0, w0, FrameSize(width, height), frameRate);
      ghost var r, eos := WorkerRun(Pipe(), worker), endOfInputSignalled;
      scopeCancelled := true;
      if worker == Blocked {
        return;   // runBlocking { join() } waits forever
      }
      assert encoder == old(encoder) && muxer == old(muxer) && teardown == old(teardown) && completion == old(completion);
      CloseAll(fault);
      assert WorkerRun(Pipe(), worker) == r && endOfInputSignalled == eos;
    }

    /**
     * `isRunning = false`, then the join on a worker that leaves its loop,
     * calls `drainEncoder(true)` and ends.
     */
    method FinishAndJoin()
      requires Valid()
      modifies this`frameQueue, this`inputSlots, this`codecOutputs, this`isMuxerStarted, this`videoTrackIndex,
               this`muxerTracks, this`samples, this`inputs, this`workerPts, this`endOfInputSignalled, this`worker
      modifies this`isRunning
      ensures Valid() && !isRunning
      ensures WorkerRun(Pipe(), worker) == DrainRun(old(Pipe()), old(worker), FrameSize(width, height), frameRate)
      ensures endOfInputSignalled ==
        (old(endOfInputSignalled) ||
         (old(worker) == Alive && RunFrames(old(Pipe()), false, FrameSize(width, height), frameRate).worker == Finished))
    {
      ghost var p0 := Pipe();
      isRunning := false;
      if worker == Alive {
        assert encoder == Open && muxer == Open;
        ProcessFrames();
        assert WorkerRun(Pipe(), worker) == RunFrames(p0, false, FrameSize(width, height), frameRate);
        if worker == Finished {
          DrainAtEnd();
        }
      }
    }

    /** The worker's `drainEncoder(true)` once it has left its loop, as `EndDrain` says. */
    method DrainAtEnd()
      requires Valid() && worker == Finished && encoder == Open && muxer == Open
      modifies this`isMuxerStarted, this`videoTrackIndex, this`muxerTracks, this`samples, this`codecOutputs,
               this`endOfInputSignalled, this`worker
      ensures Valid() && endOfInputSignalled
      ensures WorkerRun(Pipe(), worker) == EndDrain(old(Pipe()))
    {
      ghost var w := Pipe();
      ghost var d := Drain(w.mux, w.outputs, true);
      var end := DrainEncoder(true);
      worker := AfterDrain(end);
      assert Mux() == d.mux && codecOutputs == w.outputs[d.consumed..];
    }

    /**
     * The `try` block of `stop()`: `encoder?.stop()`, `encoder?.release()`,
     * `muxer?.stop()`, `muxer?.release()` up to the first call that throws,
     * then `complete(outputPath)`, or `completeExceptionally` after a throw.
     */
    method CloseAll(fault: Option<TeardownCall>)
      requires Valid() && worker != Alive && worker != Blocked
      modifies this`encoder, this`muxer, this`teardown, this`completion
      ensures Valid()
      ensures ClosedFrom(old(encoder), old(muxer), old(teardown), old(completion), fault)
    {
      var threw := CloseEncoder(fault);
      if !threw {
        threw := CloseMuxer(fault);
      }
      completion := Resolve(completion, if threw then CompletedExceptionally(TeardownFailed) else Completed(outputPath));
    }

    /** `encoder?.stop(); encoder?.release()`, as `StopAndRelease` says. */
    method CloseEncoder(fault: Option<TeardownCall>) returns (threw: bool)
      requires Valid() && worker != Alive && worker != Blocked
      modifies this`encoder, this`teardown
      ensures Valid()
      ensures var e := StopAndRelease(old(encoder), EncoderStop, EncoderRelease, isMuxerStarted, fault);
        threw == e.threw && teardown == old(teardown) + e.calls &&
        encoder == AfterTeardown(old(encoder), EncoderStop, EncoderRelease, e.calls)
    {
      threw := false;
      if encoder != Null {
        if !CallReturns(EncoderStop, encoder, isMuxerStarted, fault) {
          threw := true;
        } else {
          teardown := teardown + [EncoderStop];
          encoder := Stopped;
          if !CallReturns(EncoderRelease, encoder, isMuxerStarted, fault) {
            threw := true;
          } else {
            teardown := teardown + [EncoderRelease];
            encoder := Released;
          }
        }
      }
    }

    /** `muxer?.stop(); muxer?.release()`, as `StopAndRelease` says. */
    method CloseMuxer(fault: Option<TeardownCall>) returns (threw: bool)
      requires Valid() && worker != Alive && worker != Blocked
      modifies this`muxer, this`teardown
      ensures Valid()
      ensures var m := StopAndRelease(old(muxer), MuxerStop, MuxerRelease, isMuxerStarted, fault);
        threw == m.threw && teardown == old(teardown) + m.calls &&
        muxer == AfterTeardown(old(muxer), MuxerStop, MuxerRelease, m.calls)
    {
      threw := false;
      if muxer != Null {
        if !CallReturns(MuxerStop, muxer, isMuxerStarted, fault) {
          threw := true;
        } else {
          teardown := teardown + [MuxerStop];
          muxer := Stopped;
          if !CallReturns(MuxerRelease, muxer, isMuxerStarted, fault) {
            threw := true;
          } else {
            teardown := teardown + [MuxerRelease];
            muxer := Released;
          }
        }
      }
    }

    /**
     * `drainEncoder(endOfStream)`: nothing without both handles; otherwise
     * the end of input is signalled when `endOfStream` holds and the output
     * script is drained exactly as `Drain` describes. The platform is taken
     * to accept `signalEndOfInputStream`.
     */
    method DrainEncoder(endOfStream: bool) returns (end: DrainEnd)
      requires MuxInv(Mux())
      requires encoder == Open || encoder == Null
      requires muxer == Open || muxer == Null
      modifies this`isMuxerStarted, this`videoTrackIndex, this`muxerTracks, this`samples, this`codecOutputs,
               this`endOfInputSignalled
      ensures MuxInv(Mux())
      ensures encoder == Null || muxer == Null ==>
        end == Drained && Mux() == old(Mux()) && codecOutputs == old(codecOutputs) &&
        endOfInputSignalled == old(endOfInputSignalled)
      ensures encoder != Null && muxer != Null ==>
        var r := Drain(old(Mux()), old(codecOutputs), endOfStream);
        Mux() == r.mux && end == r.end && codecOutputs == old(codecOutputs)[r.consumed..] &&
        endOfInputSignalled == (old(endOfInputSignalled) || endOfStream)
    {
      if encoder == Null || muxer == Null {
        return Drained;
      }
      if endOfStream {
        endOfInputSignalled := true;
      }
      ghost var r := Drain(Mux(), codecOutputs, endOfStream);
      DrainKeepsMuxInv(Mux(), codecOutputs, endOfStream);
      ghost var consumed: nat := 0;
      while true
        invariant consumed <= |old(codecOutputs)| && codecOutputs == old(codecOutputs)[consumed..]
        invariant var d := Drain(Mux(), codecOutputs, endOfStream);
          d.mux == r.mux && d.end == r.end && consumed + d.consumed == r.consumed
        invariant endOfInputSignalled == (old(endOfInputSignalled) || endOfStream)
        decreases |codecOutputs|
      {
        if codecOutputs == [] {
          // every further dequeueOutputBuffer call times out
          return if endOfStream then StillWaiting else Drained;
        }
        ghost var m0, outputs0 := Mux(), codecOutputs;
        var stop := DrainOne(endOfStream);
        consumed := consumed + 1;
        ghost var s := DrainStep(m0, outputs0[0], endOfStream);
        assert s.Go? ==>
          var d := Drain(s.mux, outputs0[1..], endOfStream);
          Drain(m0, outputs0, endOfStream) == DrainResult(d.mux, d.consumed + 1, d.end);
        if stop.Some? {
          return stop.value;
        }
      }
    }

    /** One turn of the `drainEncoder` loop: one `dequeueOutputBuffer` result, handled as `DrainStep` says. */
    method DrainOne(endOfStream: bool) returns (stop: Option<DrainEnd>)
      requires codecOutputs != []
      modifies this`isMuxerStarted, this`videoTrackIndex, this`muxerTracks, this`samples, this`codecOutputs
      ensures codecOutputs == old(codecOutputs)[1..]
      ensures var s := DrainStep(old(Mux()), old(codecOutputs)[0], endOfStream);
        Mux() == s.mux && (stop.Some? <==> s.Halt?) && (s.Halt? ==> stop.value == s.end)
    {
      var result := codecOutputs[0];
      codecOutputs := codecOutputs[1..];
      match result
      case TryAgainLater =>
        if !endOfStream {
          return Some(Drained);
        }
        return None;   // still waiting
      case OutputFormatChanged =>
        if isMuxerStarted {
          return Some(Threw(FormatChangedAfterMuxerStart));
        }
        videoTrackIndex := muxerTracks;
        muxerTracks := muxerTracks + 1;
        isMuxerStarted := true;
        return None;
      case OtherNegative =>
        return None;
      case OutputBuffer(info, hasBuffer) =>
        if hasBuffer {
          var size := if IsCodecConfig(info.flags) then 0 else info.size;
          if size != 0 {
            if !isMuxerStarted {
              return Some(Threw(MuxerNotStarted));
            }
            samples := samples + [Sample(videoTrackIndex, info)];
          }
        }
        if IsEndOfStream(info.flags) {
          return Some(Drained);
        }
        return None;
    }
  }

  /**
   * What the encoder answers `dequeueOutputBuffer` in the recordings below:
   * nothing yet when the worker drains after its one frame; then the output
   * format, one 100-byte frame and the end-of-stream buffer.
   */
  const RecordedOutputs := [TryAgainLater, OutputFormatChanged,
                            OutputBuffer(BufferInfo(0, 100, 0, 0), true), OutputBuffer(BufferInfo(0, 0, 0, 4), true)]

  /** The pipeline once the one frame is queued. */
  function RecordedPipe(frame: Bitmap): Pipeline
  {
    Pipeline([frame], [Slot], RecordedOutputs, InitialMux, [], 0)
  }

  /**
   * While recording, the worker feeds the 2 x 2 frame, finds nothing to
   * dequeue and suspends with the muxer untouched.
   */
  lemma RecordedRun(frame: Bitmap, interval: int)
    requires frame.Valid() && frame.width == 2 && frame.height == 2
    ensures var r := WorkerLoop(RecordedPipe(frame), true, FrameSize(2, 2), interval);
      r.worker == Alive && r.p.queue == [] && r.p.outputs == RecordedOutputs[1..] && r.p.mux == InitialMux
  {
    ConvertSpec(frame, 2, 2);
    FitsIff(2, 2);
    TurnEffect(RecordedPipe(frame), FrameSize(2, 2), interval);
    assert Drain(InitialMux, RecordedOutputs, false) == DrainResult(InitialMux, 1, Drained);
    var t := WorkerTurn(RecordedPipe(frame), FrameSize(2, 2), interval);
    assert t.crash == None && t.p.queue == [];
  }

  /** The end-of-stream drain of the rest: the track starts, the frame is written, and the drain ends. */
  lemma RecordedDrain()
    ensures Drain(InitialMux, RecordedOutputs[1..], true) ==
      DrainResult(MuxState(true, 0, 1, [Sample(0, BufferInfo(0, 100, 0, 0))]), 3, Drained)
  {
    var rest := RecordedOutputs[1..];
    var started := MuxState(true, 0, 1, []);
    var written := MuxState(true, 0, 1, [Sample(0, BufferInfo(0, 100, 0, 0))]);
    assert DrainStep(InitialMux, rest[0], true) == Go(started);
    assert IsData(rest[1]) && DrainStep(started, rest[1], true) == Go(written);
    assert !IsData(rest[2]) && IsEndOfStream(rest[2].info.flags);
    assert DrainStep(written, rest[2], true) == Halt(written, Drained);
    assert rest[1..][1..] == [rest[2]];
    assert Drain(written, rest[1..][1..], true) == DrainResult(written, 1, Drained);
    assert Drain(started, rest[1..], true) == DrainResult(written, 2, Drained);
  }

  /** The teardown of an open encoder and an open muxer that never started, and of one that did. */
  lemma OpenTeardowns()
    ensures Teardown(Open, Open, false, None) == TeardownResult([EncoderStop, EncoderRelease], true)
    ensures Teardown(Open, Open, true, None) == TeardownResult([EncoderStop, EncoderRelease, MuxerStop, MuxerRelease], false)
  {
  }

  /**
   * A 2 x 2 encoder started on the recorded outputs, offered one frame,
   * and its worker run until it waits for the next one.
   */
  method Record(frame: Bitmap, frameRate: int) returns (e: VideoEncoder)
    requires frame.Valid() && frame.width == 2 && frame.height == 2 && frameRate != 0
    ensures fresh(e) && e.Valid() && e.outputPath == "clip.mp4" && e.frameRate == frameRate
    ensures e.width == 2 && e.height == 2
    ensures e.worker == Alive && e.Mux() == InitialMux && e.frameQueue == [] && e.codecOutputs == RecordedOutputs[1..]
    ensures e.encoder == Open && e.muxer == Open && e.teardown == [] && e.completion == Pending
  {
    e := Prepare(frame, frameRate);
    e.ProcessFrames();
    RecordedRun(frame, FrameInterval(frameRate));
  }

  /** A 2 x 2 encoder started on the recorded outputs and offered one frame. */
  method Prepare(frame: Bitmap, frameRate: int) returns (e: VideoEncoder)
    requires frame.Valid() && frame.width == 2 && frame.height == 2
    ensures fresh(e) && e.Valid() && e.outputPath == "clip.mp4" && e.frameRate == frameRate
    ensures e.width == 2 && e.height == 2
    ensures e.Pipe() == RecordedPipe(frame) && e.isRunning && e.worker == Alive
    ensures e.encoder == Open && e.muxer == Open && e.teardown == [] && e.completion == Pending
  {
    e := new VideoEncoder("clip.mp4", 2, 2, frameRate, [Slot], RecordedOutputs);
    e.Start(None, None);
    e.EnqueueFrame(frame);
  }

  /**
   * One 2 x 2 frame recorded and `stop()` called as written while the worker
   * waits for the next frame: the encoded frame is never dequeued, the muxer
   * never starts, nothing is written, and `muxer.stop()` throws, so the
   * recording fails.
   */
  method StopDropsPendingOutput(frame: Bitmap, frameRate: int) returns (samples: seq<Sample>, completion: Completion)
    requires frame.Valid() && frame.width == 2 && frame.height == 2 && frameRate != 0
    ensures samples == [] && completion == CompletedExceptionally(TeardownFailed)
  {
    var e := Record(frame, frameRate);
    OpenTeardowns();
    e.Stop(false, None);
    assert e.ClosedFrom(Open, Open, [], Pending, None) && !e.isMuxerStarted;
    samples, completion := e.samples, e.completion;
  }

  /**
   * The same recording stopped as the comment in `stop()` intends: the
   * worker signals the end of input and drains, the frame reaches the muxer
   * and the recording completes with its path.
   */
  method StopAndDrainKeepsPendingOutput(frame: Bitmap, frameRate: int) returns (samples: seq<Sample>, completion: Completion)
    requires frame.Valid() && frame.width == 2 && frame.height == 2 && frameRate != 0
    ensures samples == [Sample(0, BufferInfo(0, 100, 0, 0))] && completion == Completed("clip.mp4")
  {
    var e := Record(frame, frameRate);
    ghost var r := WorkerRun(e.Pipe(), e.worker);
    RecordedDrain();
    assert FinishRun(r.p, FrameSize(2, 2), FrameInterval(frameRate)).worker == Finished;
    OpenTeardowns();
    e.StopAndDrain(None);
    assert e.worker == Finished && e.isMuxerStarted;
    assert e.ClosedFrom(Open, Open, [], Pending, None);
    samples, completion := e.samples, e.completion;
  }
}
