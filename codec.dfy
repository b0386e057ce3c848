/**
 * The hardware encoder and muxer as `VideoEncoder.drainEncoder` sees them: a
 * source of `dequeueOutputBuffer` results and an append-only list of written
 * samples. `Drain` is what one call of `drainEncoder` does to the muxer, given
 * the results the encoder hands out, one per `dequeueOutputBuffer` call.
 */
module Codec {
  /** `MediaCodec.BufferInfo`; `flags` is the Int bit set of the buffer. */
  datatype BufferInfo = BufferInfo(offset: int, size: int, presentationTimeUs: int, flags: int)

  /** `flags and MediaCodec.BUFFER_FLAG_CODEC_CONFIG != 0` (the flag is bit 1, value 2). */
  predicate IsCodecConfig(flags: int) { (flags / 2) % 2 == 1 }
  /** `flags and MediaCodec.BUFFER_FLAG_END_OF_STREAM != 0` (the flag is bit 2, value 4). */
  predicate IsEndOfStream(flags: int) { (flags / 4) % 2 == 1 }

  /** One result of `dequeueOutputBuffer(bufferInfo, TIMEOUT_US)`. */
  datatype OutputResult =
    | TryAgainLater          // INFO_TRY_AGAIN_LATER: nothing ready within the timeout
    | OutputFormatChanged    // INFO_OUTPUT_FORMAT_CHANGED: the negotiated format is known
    | OtherNegative          // any other negative index; only logged
    | OutputBuffer(info: BufferInfo, hasBuffer: bool)  // an index >= 0; `hasBuffer` is false when getOutputBuffer returns null

  /** A `writeSampleData(track, buffer, info)` call. */
  datatype Sample = Sample(track: int, info: BufferInfo)

  /** A failure of the encoder session: the exceptions the core throws or meets. */
  datatype EncoderError =
    | FormatChangedAfterMuxerStart   // RuntimeException("Format changed after muxer start")
    | MuxerNotStarted                // RuntimeException("Muxer not started!")
    | FrameRateZero                  // 1000000 / frameRate with frameRate == 0
    | FrameConversionFailed          // getPixels or the NV12 writes went out of bounds
    | StartFailed                    // an exception inside start()
    | TeardownFailed                 // an exception from the stop/release calls in stop()

  /** The muxer-related fields of the encoder: `isMuxerStarted`, `videoTrackIndex`, tracks added, samples written. */
  datatype MuxState = MuxState(muxerStarted: bool, trackIndex: int, tracks: nat, samples: seq<Sample>)

  /** A fresh muxer: not started, `videoTrackIndex == -1`, nothing written. */
  const InitialMux := MuxState(false, -1, 0, [])

  /** How a drain ended: by leaving its loop, still waiting in end-of-stream mode, or by throwing. */
  datatype DrainEnd = Drained | StillWaiting | Threw(error: EncoderError)

  /** The muxer afterwards, how many results were dequeued, and how the drain ended. */
  datatype DrainResult = DrainResult(mux: MuxState, consumed: nat, end: DrainEnd)

  /** A buffer that is written: present, non-empty once codec-config buffers count as size 0. */
  predicate IsData(x: OutputResult)
  {
    x.OutputBuffer? && x.hasBuffer && !IsCodecConfig(x.info.flags) && x.info.size != 0
  }

  /** A result that makes the drain loop exit: TryAgain when not at end of stream, or an end-of-stream buffer. */
  predicate EndsDrain(x: OutputResult, endOfStream: bool)
  {
    (x.TryAgainLater? && !endOfStream) || (x.OutputBuffer? && IsEndOfStream(x.info.flags))
  }

  /** What one dequeued result does: the drain goes on with a new muxer state, or halts. */
  datatype Step = Go(mux: MuxState) | Halt(mux: MuxState, end: DrainEnd)

  /**
   * The muxer after writing `x` when it is a data buffer: earlier samples
   * are kept, one sample is added exactly for a data buffer, every added
   * sample is non-empty, no codec config and on the muxer's track, and the
   * invariant survives a write on a started muxer.
   */
  function Write(m: MuxState, x: OutputResult): (m': MuxState)
    ensures m.samples <= m'.samples
    ensures |m'.samples| == |m.samples| + 1 <==> IsData(x)
    ensures |m'.samples| <= |m.samples| + 1
    ensures forall s | s in m'.samples[|m.samples|..] ::
      s.track == m.trackIndex && s.info.size != 0 && !IsCodecConfig(s.info.flags)
    ensures MuxInv(m) && (m.muxerStarted || !IsData(x)) ==> MuxInv(m')
  {
    if IsData(x) then m.(samples := m.samples + [Sample(m.trackIndex, x.info)]) else m
  }

  /** One turn of the drain loop on the result `x`. */
  function DrainStep(m: MuxState, x: OutputResult, endOfStream: bool): (s: Step)
    ensures s.Halt? && s.end == Drained ==> EndsDrain(x, endOfStream)
    ensures EndsDrain(x, endOfStream) ==> s.Halt?
    ensures s.Halt? ==> s.end != StillWaiting
    ensures s.Halt? && s.end.Threw? ==> s.end.error == FormatChangedAfterMuxerStart || s.end.error == MuxerNotStarted
    ensures s.mux.muxerStarted == (m.muxerStarted || x.OutputFormatChanged?)
    ensures m.muxerStarted ==> s.mux.trackIndex == m.trackIndex
    ensures !(s.Halt? && s.end.Threw?) ==>
      s.mux.samples == m.samples + (if IsData(x) then [Sample(s.mux.trackIndex, x.info)] else [])
  {
    match x
    case TryAgainLater =>
      if !endOfStream then Halt(m, Drained) else Go(m)
    case OutputFormatChanged =>
      if m.muxerStarted then Halt(m, Threw(FormatChangedAfterMuxerStart))
      else Go(MuxState(true, m.tracks, m.tracks + 1, m.samples))
    case OtherNegative =>
      Go(m)
    case OutputBuffer(info, _) =>
      if IsData(x) && !m.muxerStarted then Halt(m, Threw(MuxerNotStarted))
      else if IsEndOfStream(info.flags) then Halt(Write(m, x), Drained)
      else Go(Write(m, x))
  }

  /**
   * One `drainEncoder(endOfStream)` loop over the results `results`. When the
   * results run out the encoder has nothing ready: a normal drain stops, an
   * end-of-stream drain would keep waiting.
   */
  function Drain(m: MuxState, results: seq<OutputResult>, endOfStream: bool): (r: DrainResult)
    ensures r.consumed <= |results|
    ensures results == [] <==> r.consumed == 0
    ensures r.end.Threw? ==> r.end.error == FormatChangedAfterMuxerStart || r.end.error == MuxerNotStarted
    decreases |results|
  {
    if results == [] then
      DrainResult(m, 0, if endOfStream then StillWaiting else Drained)
    else
      match DrainStep(m, results[0], endOfStream)
      case Halt(m', e) => DrainResult(m', 1, e)
      case Go(m') =>
        var r := Drain(m', results[1..], endOfStream);
        DrainResult(r.mux, r.consumed + 1, r.end)
  }

  /** The samples a run of results writes on track `track`, in order. */
  function DataSamples(results: seq<OutputResult>, track: int): (s: seq<Sample>)
    ensures |s| <= |results|
  {
    if results == [] then []
    else (if IsData(results[0]) then [Sample(track, results[0].info)] else []) + DataSamples(results[1..], track)
  }

  /** What every state of the muxer satisfies. */
  predicate MuxInv(m: MuxState)
  {
    (m.muxerStarted <==> m.tracks == 1) &&
    (m.muxerStarted ==> m.trackIndex == 0) &&
    (!m.muxerStarted ==> m.tracks == 0 && m.trackIndex == -1 && m.samples == []) &&
    (forall s | s in m.samples :: s.track == m.trackIndex && s.info.size != 0 && !IsCodecConfig(s.info.flags))
  }

  /**
   * The drain never writes a sample before the muxer has started, never
   * writes an empty or codec-config buffer, keeps every written sample on the
   * one video track, and only appends to what was written before.
   */
  lemma {:induction false} DrainKeepsMuxInv(m: MuxState, results: seq<OutputResult>, endOfStream: bool)
    requires MuxInv(m)
    ensures MuxInv(Drain(m, results, endOfStream).mux)
    ensures m.samples <= Drain(m, results, endOfStream).mux.samples
    decreases |results|
  {
    if results != [] {
      var s := DrainStep(m, results[0], endOfStream);
      assert MuxInv(s.mux);
      if s.Go? { DrainKeepsMuxInv(s.mux, results[1..], endOfStream); }
    }
  }

  /**
   * The muxer is started after a drain exactly when it was before or a
   * FormatChanged was dequeued, and a started muxer keeps its track.
   */
  lemma {:induction false} DrainStartsMuxer(m: MuxState, results: seq<OutputResult>, endOfStream: bool)
    ensures var r := Drain(m, results, endOfStream);
      r.mux.muxerStarted == (m.muxerStarted || OutputFormatChanged in results[..r.consumed])
    ensures var r := Drain(m, results, endOfStream);
      m.muxerStarted ==> r.mux.trackIndex == m.trackIndex
    decreases |results|
  {
    if results != [] {
      var r := Drain(m, results, endOfStream);
      var s := DrainStep(m, results[0], endOfStream);
      assert results[..r.consumed] == [results[0]] + results[1..][..r.consumed - 1];
      if s.Go? {
        DrainStartsMuxer(s.mux, results[1..], endOfStream);
      }
    }
  }

  /**
   * When the drain does not throw, the samples it adds are exactly the data
   * buffers it dequeued, in order, on the muxer's track.
   */
  lemma {:induction false} DrainWrites(m: MuxState, results: seq<OutputResult>, endOfStream: bool)
    ensures var r := Drain(m, results, endOfStream);
      !r.end.Threw? ==> r.mux.samples == m.samples + DataSamples(results[..r.consumed], r.mux.trackIndex)
    decreases |results|
  {
    if results != [] {
      var r := Drain(m, results, endOfStream);
      var s := DrainStep(m, results[0], endOfStream);
      assert results[..r.consumed] == [results[0]] + results[1..][..r.consumed - 1];
      if s.Go? {
        DrainWrites(s.mux, results[1..], endOfStream);
        DrainStartsMuxer(s.mux, results[1..], endOfStream);
        if IsData(results[0]) {
          assert s.mux.muxerStarted;
        }
      }
    }
  }

  /**
   * The drain loop runs until its first TryAgain (when not at end of stream)
   * or its first end-of-stream buffer, or until it throws: no result before
   * the last one dequeued ends a drain; a drain that ended normally ended on
   * such a result or, when not at end of stream, on an encoder with nothing
   * more to hand out; an end-of-stream drain that still waits has seen none
   * of them.
   */
  lemma {:induction false} DrainStopsAtFirstEnd(m: MuxState, results: seq<OutputResult>, endOfStream: bool)
    ensures var r := Drain(m, results, endOfStream);
      forall i | 0 <= i < r.consumed - 1 :: !EndsDrain(results[i], endOfStream)
    ensures var r := Drain(m, results, endOfStream);
      r.end == Drained ==>
        (r.consumed > 0 && EndsDrain(results[r.consumed - 1], endOfStream)) ||
        (r.consumed == |results| && !endOfStream)
    ensures var r := Drain(m, results, endOfStream);
      r.end == StillWaiting ==> endOfStream && r.consumed == |results|
    decreases |results|
  {
    if results != [] {
      var s := DrainStep(m, results[0], endOfStream);
      if s.Go? {
        var r' := Drain(s.mux, results[1..], endOfStream);
        DrainStopsAtFirstEnd(s.mux, results[1..], endOfStream);
        if r'.consumed > 0 {
          assert results[r'.consumed] == results[1..][r'.consumed - 1];
        }
        forall i | 1 <= i < r'.consumed
          ensures !EndsDrain(results[i], endOfStream)
        {
          assert results[i] == results[1..][i - 1];
        }
      }
    }
  }

  /**
   * A FormatChanged dequeued once the muxer runs is fatal: it is the last
   * result the drain takes, and the drain throws.
   */
  lemma {:induction false} DrainRejectsSecondFormatChange(m: MuxState, results: seq<OutputResult>, endOfStream: bool)
    requires m.muxerStarted
    ensures var r := Drain(m, results, endOfStream);
      OutputFormatChanged in results[..r.consumed] ==>
        r.end == Threw(FormatChangedAfterMuxerStart) && results[r.consumed - 1] == OutputFormatChanged
    decreases |results|
  {
    if results != [] {
      var r := Drain(m, results, endOfStream);
      var s := DrainStep(m, results[0], endOfStream);
      assert results[..r.consumed] == [results[0]] + results[1..][..r.consumed - 1];
      if s.Go? {
        DrainRejectsSecondFormatChange(s.mux, results[1..], endOfStream);
        if r.consumed >= 2 {
          assert results[r.consumed - 1] == results[1..][r.consumed - 2];
        }
      }
    }
  }

  /**
   * A drain that does not throw dequeued no data buffer before the muxer was
   * started, either earlier or by a FormatChanged ahead of it.
   */
  lemma {:induction false} DrainNoSampleBeforeStart(m: MuxState, results: seq<OutputResult>, endOfStream: bool)
    ensures var r := Drain(m, results, endOfStream);
      !r.end.Threw? ==>
        forall i | 0 <= i < r.consumed && IsData(results[i]) ::
          m.muxerStarted || OutputFormatChanged in results[..i]
    decreases |results|
  {
    if results != [] {
      var r := Drain(m, results, endOfStream);
      var s := DrainStep(m, results[0], endOfStream);
      if s.Go? && !r.end.Threw? {
        DrainNoSampleBeforeStart(s.mux, results[1..], endOfStream);
        forall i | 1 <= i < r.consumed && IsData(results[i])
          ensures m.muxerStarted || OutputFormatChanged in results[..i]
        {
          assert results[i] == results[1..][i - 1];
          assert results[..i] == [results[0]] + results[1..][..i - 1];
        }
      }
    }
  }
}
