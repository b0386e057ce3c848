/**
 * The `processFrames` coroutine of `VideoEncoder` as a function of the
 * state it reads and changes.
 */
module FrameWorker {
  import opened Wrappers
  import opened Pixels
  import opened Nv12
  import opened Codec

  /** The `processFrames` coroutine. */
  datatype Worker =
    | NotLaunched
    | Alive          // launched; not running, or suspended in `delay(10)`
    | Finished       // left its loop
    | Cancelled      // cancelled while suspended
    | Blocked        // waiting forever for an end-of-stream buffer that never comes
    | Crashed(error: EncoderError)

  /** What `dequeueInputBuffer` and then `getInputBuffer` hand out. */
  datatype InputSlot =
    | NoSlot       // a negative index: no input buffer within the timeout
    | NullBuffer   // an index, but `getInputBuffer` returned null
    | Slot         // an input buffer to fill

  /** The frame size the encoder was configured with. */
  datatype FrameSize = FrameSize(width: nat, height: nat)

  /**
   * `bitmapToNV12(bitmap)` at the configured size. An Android bitmap always
   * holds width times height pixels; one that does not converts to nothing.
   */
  function Encode(size: FrameSize, frame: Bitmap): Option<seq<Byte>>
  {
    if frame.Valid() then Convert(frame, size.width, size.height) else None
  }

  /** A `queueInputBuffer(index, 0, data.size, presentationTimeUs, 0)` call, with the frame it came from. */
  datatype InputFrame = InputFrame(frame: Bitmap, data: seq<Byte>, presentationTimeUs: int)

  /** The frames of the encoder's input, in order. */
  function InputFrames(inputs: seq<InputFrame>): (fs: seq<Bitmap>)
    ensures |fs| == |inputs|
  {
    if inputs == [] then [] else [inputs[0].frame] + InputFrames(inputs[1..])
  }

  /** What the next `dequeueInputBuffer` hands out: once the script is used up, the call times out. */
  function NextSlot(slots: seq<InputSlot>): InputSlot
  {
    if slots == [] then NoSlot else slots[0]
  }

  /** The input script after one `dequeueInputBuffer`. */
  function RestSlots(slots: seq<InputSlot>): (rest: seq<InputSlot>)
    ensures slots != [] ==> slots == [slots[0]] + rest
    ensures slots == [] ==> rest == []
  {
    if slots == [] then [] else slots[1..]
  }

  /** The input script after `k` calls. */
  function DropSlots(slots: seq<InputSlot>, k: nat): (rest: seq<InputSlot>)
    ensures |rest| == if k <= |slots| then |slots| - k else 0
  {
    if k <= |slots| then slots[k..] else []
  }

  /**
   * The reference for what reaches the encoder: of the frames taken in
   * order, exactly those that got an input buffer, each frame taking the
   * next answer of the input script.
   */
  function Fed(frames: seq<Bitmap>, slots: seq<InputSlot>): (fed: seq<Bitmap>)
    ensures |fed| <= |frames|
  {
    if frames == [] then []
    else (if NextSlot(slots) == Slot then [frames[0]] else []) + Fed(frames[1..], RestSlots(slots))
  }

  /** `a` is what is left of `b` after dropping some of its first elements. */
  ghost predicate IsSuffix<T>(a: seq<T>, b: seq<T>)
  {
    |a| <= |b| && a == b[|b| - |a|..]
  }

  lemma SuffixOfDrop<T>(b: seq<T>, k: nat)
    requires k <= |b|
    ensures IsSuffix(b[k..], b)
  {
  }

  lemma SuffixTrans<T>(a: seq<T>, b: seq<T>, c: seq<T>)
    requires IsSuffix(a, b) && IsSuffix(b, c)
    ensures IsSuffix(a, c)
  {
    assert c[|c| - |b|..][|b| - |a|..] == c[|c| - |a|..];
  }

  lemma PrefixCons<T>(x: seq<T>, a: seq<T>, b: seq<T>)
    requires a <= b
    ensures x + a <= x + b
  {
    assert (x + b)[..|x + a|] == x + a;
  }

  lemma SliceSplit<T>(a: seq<T>, b: seq<T>, c: seq<T>)
    requires a <= b && b <= c
    ensures c[|a|..] == b[|a|..] + c[|b|..]
  {
  }

  /** The frames of a concatenation of encoder inputs. */
  lemma {:induction false} InputFramesAppend(a: seq<InputFrame>, b: seq<InputFrame>)
    ensures InputFrames(a + b) == InputFrames(a) + InputFrames(b)
  {
    if a != [] {
      assert (a + b)[0] == a[0];
      assert (a + b)[1..] == a[1..] + b;
      InputFramesAppend(a[1..], b);
      assert [a[0].frame] + (InputFrames(a[1..]) + InputFrames(b)) == ([a[0].frame] + InputFrames(a[1..])) + InputFrames(b);
    } else {
      assert a + b == b;
    }
  }

  /** What one turn adds to the encoder input, as frames. */
  lemma InputFramesAdded(a: seq<InputFrame>, added: seq<InputFrame>)
    requires |added| <= 1
    ensures (a + added)[|a|..] == added
    ensures InputFrames(added) == if added == [] then [] else [added[0].frame]
  {
    assert (a + added)[|a|..] == added;
  }

  /** `Fed` on a non-empty queue, one frame at a time. */
  lemma FedCons(frames: seq<Bitmap>, slots: seq<InputSlot>)
    requires frames != []
    ensures Fed(frames, slots) == (if NextSlot(slots) == Slot then [frames[0]] else []) + Fed(frames[1..], RestSlots(slots))
  {
  }

  /** One more call on the input script. */
  lemma DropSlotsRest(slots: seq<InputSlot>, k: nat)
    requires k > 0
    ensures DropSlots(RestSlots(slots), k - 1) == DropSlots(slots, k)
  {
  }

  lemma DropSlotsZero(slots: seq<InputSlot>)
    ensures DropSlots(slots, 0) == slots
  {
  }

  /**
   * The worker's clock after `frames` queued frames, starting from `start`:
   * `presentationTimeUs += frameIntervalUs` once per queued frame.
   */
  function Clock(start: int, frames: nat, interval: int): int
  {
    if frames == 0 then start else Clock(start, frames - 1, interval) + interval
  }

  /** The clock is linear: after `frames` frames it reads `start + frames * interval`. */
  lemma {:induction false} ClockIsLinear(start: int, frames: nat, interval: int)
    ensures Clock(start, frames, interval) == start + frames * interval
  {
    if frames > 0 {
      ClockIsLinear(start, frames - 1, interval);
      assert frames * interval == (frames - 1) * interval + interval;
    }
  }

  /** Running the clock for `a` frames and then for `b` more is running it for `a + b`. */
  lemma {:induction false} ClockAdd(start: int, a: nat, b: nat, interval: int)
    ensures Clock(Clock(start, a, interval), b, interval) == Clock(start, a + b, interval)
  {
    if b > 0 {
      ClockAdd(start, a, b - 1, interval);
    }
  }

  /** With a positive interval the clock strictly increases. */
  lemma {:induction false} ClockIncreases(start: int, a: nat, b: nat, interval: int)
    requires a < b && interval > 0
    ensures Clock(start, a, interval) < Clock(start, b, interval)
    decreases b
  {
    if b > a + 1 {
      ClockIncreases(start, a, b - 1, interval);
    }
  }

  /**
   * What the worker reads and changes: the frame queue, the encoder's input
   * and output scripts, the muxer, the encoder input so far and the worker's
   * local presentation time.
   */
  datatype Pipeline = Pipeline(queue: seq<Bitmap>, slots: seq<InputSlot>, outputs: seq<OutputResult>,
                               mux: MuxState, inputs: seq<InputFrame>, pts: int)

  /** A pipeline and the worker's state after a run. */
  datatype WorkerRun = WorkerRun(p: Pipeline, worker: Worker)

  /** A pipeline after one turn of the worker loop, and the error the turn threw, if any. */
  datatype Turn = Turn(p: Pipeline, crash: Option<EncoderError>)

  /**
   * The first half of a turn of the `processFrames` loop on a non-empty
   * queue: the head frame is taken and an input buffer is asked for; when
   * one is there the frame is converted and queued at the current
   * presentation time, which then advances by one interval. A failed
   * conversion throws.
   */
  function Feed(p: Pipeline, size: FrameSize, interval: int): (t: Turn)
    requires p.queue != []
    ensures t.p.queue == p.queue[1..] && t.p.slots == RestSlots(p.slots)
  {
    var bitmap := p.queue[0];
    var p1 := p.(queue := p.queue[1..], slots := RestSlots(p.slots));
    if NextSlot(p.slots) != Slot then Turn(p1, None)
    else match Encode(size, bitmap)
      case None => Turn(p1, Some(FrameConversionFailed))
      case Some(data) => Turn(p1.(inputs := p.inputs + [InputFrame(bitmap, data, p.pts)], pts := p.pts + interval), None)
  }

  /**
   * The second half of a turn, `drainEncoder(false)`: the muxer and the
   * output script move on as `Drain` says, the rest of the pipeline stays,
   * and what the drain threw is the turn's error.
   */
  function DrainTurn(p: Pipeline): (t: Turn)
    ensures t.p.queue == p.queue && t.p.slots == p.slots
  {
    var d := Drain(p.mux, p.outputs, false);
    Turn(p.(outputs := p.outputs[d.consumed..], mux := d.mux), if d.end.Threw? then Some(d.end.error) else None)
  }

  /** The feed leaves the muxer and the output script alone, and queues the head frame exactly when it gets a slot and converts. */
  lemma FeedEffect(p: Pipeline, size: FrameSize, interval: int)
    requires p.queue != []
    ensures var t := Feed(p, size, interval);
      t.p.queue == p.queue[1..] && t.p.slots == RestSlots(p.slots) && t.p.mux == p.mux && t.p.outputs == p.outputs
    ensures var t := Feed(p, size, interval);
      (t.crash.Some? <==> NextSlot(p.slots) == Slot && Encode(size, p.queue[0]).None?) &&
      (t.crash.Some? ==> t.crash == Some(FrameConversionFailed))
    ensures var t := Feed(p, size, interval);
      t.crash.None? && NextSlot(p.slots) == Slot ==>
      t.p.inputs == p.inputs + [InputFrame(p.queue[0], Encode(size, p.queue[0]).value, p.pts)] &&
      t.p.pts == p.pts + interval
    ensures var t := Feed(p, size, interval);
      (t.crash.Some? || NextSlot(p.slots) != Slot) ==> t.p.inputs == p.inputs && t.p.pts == p.pts
  {
  }

  /** One turn: the feed and, unless it threw, the drain. */
  function WorkerTurn(p: Pipeline, size: FrameSize, interval: int): (t: Turn)
    requires p.queue != []
    ensures t.p.queue == p.queue[1..] && t.p.slots == RestSlots(p.slots)
  {
    var f := Feed(p, size, interval);
    if f.crash.Some? then f else DrainTurn(f.p)
  }

  /**
   * A turn throws `FrameConversionFailed` exactly when the head frame got a
   * slot and did not convert, and then nothing else moved; otherwise the
   * frame was queued at the current clock exactly when it got a slot, the
   * clock advanced by one interval exactly then, and the encoder was
   * drained once, the turn throwing what the drain threw.
   */
  lemma TurnEffect(p: Pipeline, size: FrameSize, interval: int)
    requires p.queue != []
    ensures var t := WorkerTurn(p, size, interval);
      t.crash == Some(FrameConversionFailed) <==> NextSlot(p.slots) == Slot && Encode(size, p.queue[0]).None?
    ensures var t := WorkerTurn(p, size, interval);
      t.crash == Some(FrameConversionFailed) ==>
      t.p.inputs == p.inputs && t.p.pts == p.pts && t.p.mux == p.mux && t.p.outputs == p.outputs
    ensures var t := WorkerTurn(p, size, interval);
      t.crash != Some(FrameConversionFailed) && NextSlot(p.slots) == Slot ==>
      Encode(size, p.queue[0]).Some? &&
      t.p.inputs == p.inputs + [InputFrame(p.queue[0], Encode(size, p.queue[0]).value, p.pts)] &&
      t.p.pts == p.pts + interval
    ensures var t := WorkerTurn(p, size, interval);
      t.crash != Some(FrameConversionFailed) && NextSlot(p.slots) != Slot ==>
      t.p.inputs == p.inputs && t.p.pts == p.pts
    ensures var t := WorkerTurn(p, size, interval);
      t.crash != Some(FrameConversionFailed) ==>
      var d := Drain(p.mux, p.outputs, false);
      t.p.mux == d.mux && t.p.outputs == p.outputs[d.consumed..] &&
      t.crash == (if d.end.Threw? then Some(d.end.error) else None)
  {
    FeedEffect(p, size, interval);
  }

  /**
   * `processFrames` while `isRunning` stays `running`, one turn per queued
   * frame. With the queue empty a running worker suspends in `delay(10)` and
   * a stopped one leaves its loop; a turn that throws ends the coroutine.
   */
  function WorkerLoop(p: Pipeline, running: bool, size: FrameSize, interval: int): WorkerRun
    decreases |p.queue|
  {
    if p.queue == [] then WorkerRun(p, if running then Alive else Finished)
    else
      var t := WorkerTurn(p, size, interval);
      if t.crash.Some? then WorkerRun(t.p, Crashed(t.crash.value))
      else WorkerLoop(t.p, running, size, interval)
  }

  /**
   * The worker leaves its loop only when it is not running and the queue is
   * empty, suspends only when it is running and the queue is empty, and
   * otherwise stops by throwing; what stays queued is a suffix of the queue,
   * shorter by at least the head when the queue had one.
   */
  lemma {:induction false} WorkerLoopEnds(p: Pipeline, running: bool, size: FrameSize, interval: int)
    ensures var r := WorkerLoop(p, running, size, interval);
      r.worker.Alive? || r.worker.Finished? || r.worker.Crashed?
    ensures var r := WorkerLoop(p, running, size, interval);
      (r.worker == Alive ==> running && r.p.queue == []) &&
      (r.worker == Finished ==> !running && r.p.queue == []) &&
      (!r.worker.Crashed? ==> r.p.queue == [])
    ensures var r := WorkerLoop(p, running, size, interval);
      IsSuffix(r.p.queue, p.queue) && (p.queue != [] ==> |r.p.queue| < |p.queue|)
    decreases |p.queue|
  {
    if p.queue == [] {
      SuffixOfDrop(p.queue, 0);
    } else {
      var t := WorkerTurn(p, size, interval);
      TurnEffect(p, size, interval);
      SuffixOfDrop(p.queue, 1);
      if t.crash.None? {
        WorkerLoopEnds(t.p, running, size, interval);
        SuffixTrans(WorkerLoop(t.p, running, size, interval).p.queue, t.p.queue, p.queue);
      }
    }
  }

  /** From `before` to `after` the input script advanced once per frame taken from the queue. */
  ghost predicate SlotsAdvanced(before: Pipeline, after: Pipeline)
  {
    |after.queue| <= |before.queue| && after.slots == DropSlots(before.slots, |before.queue| - |after.queue|)
  }

  lemma SlotsAdvancedTrans(a: Pipeline, b: Pipeline, c: Pipeline)
    requires SlotsAdvanced(a, b) && SlotsAdvanced(b, c)
    ensures SlotsAdvanced(a, c)
  {
  }

  lemma TurnSlots(p: Pipeline, size: FrameSize, interval: int)
    requires p.queue != []
    ensures SlotsAdvanced(p, WorkerTurn(p, size, interval).p)
  {
  }

  /** The input script advances once per frame taken, whether or not the frame got a buffer. */
  lemma {:induction false} WorkerLoopSlots(p: Pipeline, running: bool, size: FrameSize, interval: int)
    ensures SlotsAdvanced(p, WorkerLoop(p, running, size, interval).p)
    decreases |p.queue|
  {
    if p.queue == [] {
      DropSlotsZero(p.slots);
    } else {
      var t := WorkerTurn(p, size, interval);
      TurnEffect(p, size, interval);
      TurnSlots(p, size, interval);
      if t.crash.None? {
        WorkerLoopSlots(t.p, running, size, interval);
        SlotsAdvancedTrans(p, t.p, WorkerLoop(t.p, running, size, interval).p);
      }
    }
  }

  /**
   * Frames reach the encoder in queue order: what the encoder input gains is
   * a prefix of the reference `Fed` of the queue, and all of it when the
   * worker did not throw.
   */
  lemma {:induction false} WorkerLoopFeeds(p: Pipeline, running: bool, size: FrameSize, interval: int)
    ensures var r := WorkerLoop(p, running, size, interval);
      p.inputs <= r.p.inputs &&
      InputFrames(r.p.inputs[|p.inputs|..]) <= Fed(p.queue, p.slots) &&
      (!r.worker.Crashed? ==> InputFrames(r.p.inputs[|p.inputs|..]) == Fed(p.queue, p.slots))
    decreases |p.queue|
  {
    if p.queue != [] {
      var t := WorkerTurn(p, size, interval);
      TurnEffect(p, size, interval);
      var r := WorkerLoop(p, running, size, interval);
      var fed0 := if NextSlot(p.slots) == Slot then [p.queue[0]] else [];
      FedCons(p.queue, p.slots);
      var added := t.p.inputs[|p.inputs|..];
      InputFramesAdded(p.inputs, if t.p.inputs == p.inputs then [] else [t.p.inputs[|p.inputs|]]);
      assert InputFrames(added) <= fed0;
      assert t.crash != Some(FrameConversionFailed) ==> InputFrames(added) == fed0;
      if t.crash.None? {
        WorkerLoopFeeds(t.p, running, size, interval);
        SliceSplit(p.inputs, t.p.inputs, r.p.inputs);
        InputFramesAppend(added, r.p.inputs[|t.p.inputs|..]);
        PrefixCons(fed0, InputFrames(r.p.inputs[|t.p.inputs|..]), Fed(t.p.queue, t.p.slots));
      }
    }
  }

  /**
   * From the encoder input `inputs0` with the clock at `pts0` to `inputs`
   * with the clock at `pts`: the input only grew, each added input is
   * stamped with the worker's clock as it stood when the input was queued
   * and holds the conversion of its frame, and the clock advanced once per
   * added input.
   */
  ghost predicate StampedFrom(inputs0: seq<InputFrame>, pts0: int, inputs: seq<InputFrame>, pts: int,
                              size: FrameSize, interval: int)
  {
    inputs0 <= inputs &&
    pts == Clock(pts0, |inputs| - |inputs0|, interval) &&
    forall n | |inputs0| <= n < |inputs| ::
      inputs[n].presentationTimeUs == Clock(pts0, n - |inputs0|, interval) &&
      Encode(size, inputs[n].frame) == Some(inputs[n].data)
  }

  /** `StampedFrom` between the inputs and clocks of two pipelines. */
  ghost predicate Stamped(before: Pipeline, after: Pipeline, size: FrameSize, interval: int)
  {
    StampedFrom(before.inputs, before.pts, after.inputs, after.pts, size, interval)
  }

  lemma StampedTrans(inputs0: seq<InputFrame>, pts0: int, inputs1: seq<InputFrame>, pts1: int,
                     inputs2: seq<InputFrame>, pts2: int, size: FrameSize, interval: int)
    requires StampedFrom(inputs0, pts0, inputs1, pts1, size, interval)
    requires StampedFrom(inputs1, pts1, inputs2, pts2, size, interval)
    ensures StampedFrom(inputs0, pts0, inputs2, pts2, size, interval)
  {
    ClockAdd(pts0, |inputs1| - |inputs0|, |inputs2| - |inputs1|, interval);
    forall n | |inputs0| <= n < |inputs2|
      ensures inputs2[n].presentationTimeUs == Clock(pts0, n - |inputs0|, interval)
      ensures Encode(size, inputs2[n].frame) == Some(inputs2[n].data)
    {
      if n >= |inputs1| {
        ClockAdd(pts0, |inputs1| - |inputs0|, n - |inputs1|, interval);
      } else {
        assert inputs2[n] == inputs1[n];
      }
    }
  }

  /** The feed stamps the frame it queues with the clock and advances the clock by one interval. */
  lemma FeedStamped(p: Pipeline, size: FrameSize, interval: int)
    requires p.queue != []
    ensures Stamped(p, Feed(p, size, interval).p, size, interval)
  {
    FeedEffect(p, size, interval);
  }

  lemma TurnStamped(p: Pipeline, size: FrameSize, interval: int)
    requires p.queue != []
    ensures Stamped(p, WorkerTurn(p, size, interval).p, size, interval)
  {
    FeedStamped(p, size, interval);
  }

  /**
   * Presentation times: each frame queued by the run is stamped with the
   * worker's clock, which starts at `p.pts` and advances by one interval per
   * queued frame and by nothing for a frame without an input buffer; every
   * queued buffer holds the conversion of its frame.
   */
  lemma {:induction false} WorkerLoopTimes(p: Pipeline, running: bool, size: FrameSize, interval: int)
    ensures Stamped(p, WorkerLoop(p, running, size, interval).p, size, interval)
    decreases |p.queue|
  {
    if p.queue != [] {
      var t := WorkerTurn(p, size, interval);
      TurnEffect(p, size, interval);
      TurnStamped(p, size, interval);
      if t.crash.None? {
        WorkerLoopTimes(t.p, running, size, interval);
        var r := WorkerLoop(t.p, running, size, interval);
        StampedTrans(p.inputs, p.pts, t.p.inputs, t.p.pts, r.p.inputs, r.p.pts, size, interval);
      }
    }
  }

  /**
   * The drains of a run keep the muxer invariant and only append samples,
   * and they dequeue a prefix of the output script.
   */
  lemma {:induction false} WorkerLoopMux(p: Pipeline, running: bool, size: FrameSize, interval: int)
    requires MuxInv(p.mux)
    ensures var r := WorkerLoop(p, running, size, interval);
      MuxInv(r.p.mux) && p.mux.samples <= r.p.mux.samples && IsSuffix(r.p.outputs, p.outputs)
    decreases |p.queue|
  {
    if p.queue == [] {
      SuffixOfDrop(p.outputs, 0);
    } else {
      var t := WorkerTurn(p, size, interval);
      TurnEffect(p, size, interval);
      if t.crash != Some(FrameConversionFailed) {
        DrainKeepsMuxInv(p.mux, p.outputs, false);
        SuffixOfDrop(p.outputs, Drain(p.mux, p.outputs, false).consumed);
      } else {
        SuffixOfDrop(p.outputs, 0);
      }
      if t.crash.None? {
        WorkerLoopMux(t.p, running, size, interval);
        SuffixTrans(WorkerLoop(t.p, running, size, interval).p.outputs, t.p.outputs, p.outputs);
      }
    }
  }

  /**
   * The presentation times of a run started with the clock at 0 are the
   * multiples of the interval: the `n`-th queued frame is stamped
   * `n * interval` and the clock reads `|inputs| * interval`; with a positive
   * interval the stamps strictly increase.
   */
  lemma InputTimes(inputs: seq<InputFrame>, pts: int, size: FrameSize, interval: int)
    requires StampedFrom([], 0, inputs, pts, size, interval)
    ensures pts == |inputs| * interval
    ensures forall n | 0 <= n < |inputs| :: inputs[n].presentationTimeUs == n * interval
    ensures interval > 0 ==>
      forall i, j | 0 <= i < j < |inputs| :: inputs[i].presentationTimeUs < inputs[j].presentationTimeUs
  {
    ClockIsLinear(0, |inputs|, interval);
    forall n | 0 <= n < |inputs|
      ensures inputs[n].presentationTimeUs == n * interval
    {
      ClockIsLinear(0, n, interval);
    }
    if interval > 0 {
      forall i, j | 0 <= i < j < |inputs|
        ensures inputs[i].presentationTimeUs < inputs[j].presentationTimeUs
      {
        ClockIncreases(0, i, j, interval);
      }
    }
  }

  /** The worker state a drain's outcome leaves. */
  function AfterDrain(end: DrainEnd): Worker
  {
    match end
    case Drained => Finished
    case StillWaiting => Blocked
    case Threw(e) => Crashed(e)
  }

  /**
   * How the worker would have to end for `stop()` to flush the encoder: no
   * longer running, it works off the queue, and once out of its loop it
   * signals the end of input and drains in end-of-stream mode.
   */
  function FinishRun(p: Pipeline, size: FrameSize, interval: int): WorkerRun
  {
    var r := WorkerLoop(p, false, size, interval);
    if r.worker != Finished then r else EndDrain(r.p)
  }

  /** `drainEncoder(true)` after the loop: the outputs up to the end-of-stream buffer go to the muxer. */
  function EndDrain(p: Pipeline): WorkerRun
  {
    var d := Drain(p.mux, p.outputs, true);
    WorkerRun(p.(outputs := p.outputs[d.consumed..], mux := d.mux), AfterDrain(d.end))
  }

  /**
   * A finishing run that ends `Finished` has dequeued the encoder's
   * end-of-stream buffer as its last output and written every data buffer
   * before it to the muxer.
   */
  lemma FinishRunFlushes(p: Pipeline, size: FrameSize, interval: int)
    ensures var w := WorkerLoop(p, false, size, interval);
      var r := FinishRun(p, size, interval);
      r.worker == Finished ==>
        w.worker == Finished && |r.p.outputs| < |w.p.outputs| &&
        var k := |w.p.outputs| - |r.p.outputs|;
        w.p.outputs[k - 1].OutputBuffer? && IsEndOfStream(w.p.outputs[k - 1].info.flags) &&
        r.p.mux.samples == w.p.mux.samples + DataSamples(w.p.outputs[..k], r.p.mux.trackIndex)
  {
    var w := WorkerLoop(p, false, size, interval);
    if w.worker == Finished {
      DrainStopsAtFirstEnd(w.p.mux, w.p.outputs, true);
      DrainWrites(w.p.mux, w.p.outputs, true);
    }
  }
}
