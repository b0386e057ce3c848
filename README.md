# LightLens video recording and tensor marshalling in Dafny

This project models two parts of the LightLens camera app's Android side.

**`VideoEncoder`** records bitmaps to an H.264 MP4. The model covers:

- the bitmap-to-NV12 colour conversion;
- the bounded frame queue;
- the `processFrames` worker coroutine, with its presentation-time clock;
- the state machine that drains encoder output to the muxer (`drainEncoder`);
- `start()` and `stop()`, including how the `CompletableDeferred` is resolved.

**`IATModelLoader`** marshals a 256 x 256 bitmap into the float tensor of the enhancement network and turns the network's output back into a bitmap.

How the platform is modelled:

- Every platform object is modelled by what the class can observe of it.
- `MediaCodec` gives its answers to `dequeueInputBuffer`/`getInputBuffer` and `dequeueOutputBuffer` from two scripts fixed when the encoder is built. Once a script is used up, each further call times out.
- `MediaMuxer` is the list of `writeSampleData` calls made on it.
- Each handle is `Null`, `Open`, `Stopped` or `Released`.
- The TFLite interpreter and `Bitmap.createScaledBitmap` are functions given to the loader.
- Floats are exact reals.
- Kotlin `Int` pixels are integers in the 32-bit signed range. Channels are extracted with floor division and remainder, which gives the same bits as `shr`/`and`.

Modules and files:

| module | file | what it holds |
|---|---|---|
| `Wrappers` | `wrappers.dfy` | `Option` |
| `Pixels` | `pixels.dfy` | ARGB channels, the `Bitmap` value, `getPixels` |
| `Nv12` | `nv12.dfy` | the reference NV12 layout and its properties |
| `Codec` | `codec.dfy` | `dequeueOutputBuffer` results and the drain loop as a function |
| `FrameWorker` | `worker.dfy` | the `processFrames` loop as a function on a pipeline value |
| `VideoEncoding` | `video_encoder.dfy` | the `VideoEncoder` class, proved against those functions, plus two recordings for the finding below |
| `TensorCodec` | `tensor_codec.dfy` | the `IATModelLoader` class and the encode/decode functions it is proved against |

`VideoEncoder` as written has no concurrency the model can observe except at iteration boundaries. The model therefore runs the worker sequentially:

- `ProcessFrames` runs the coroutine until it suspends in `delay(10)`, leaves its loop, or throws.
- `Stop` takes a flag (`workerRunning`) that tells whether the worker is suspended or in the middle of an iteration when `stop()` cancels the scope.

## Model

| member | source | states |
|---|---|---|
| `Pixels.Clamp` | android/app/src/main/java/com/nightlens/VideoEncoder.kt:57-61 | `coerceIn(lo, hi)` lands in `[lo, hi]`, keeps values inside it, and maps values below or above to the nearer end |
| `Pixels.UnpackPack` | android/app/src/main/java/com/nightlens/IATModelLoader.kt:70 | the red, green and blue of `(0xFF shl 24) or (r shl 16) or (g shl 8) or b` are `r`, `g` and `b`, and its alpha is 0xFF |
| `Pixels.PackUnpack` | android/app/src/main/java/com/nightlens/IATModelLoader.kt:70 | an opaque pixel is exactly the packing of its own three channels |
| `Pixels.GetPixels` | android/app/src/main/java/com/nightlens/VideoEncoder.kt:41 | `getPixels` of a `w` x `h` region at the origin succeeds exactly when the region is empty (`w` or `h` is zero, where Android returns before any bounds check) or lies inside the bitmap, and then yields `w * h` pixels |
| `Pixels.GetPixelsAt` | android/app/src/main/java/com/nightlens/VideoEncoder.kt:41-48 | element `j * w + i` of the region is the bitmap's pixel at row `j`, column `i` |
| `Pixels.GetPixelsWhole` | android/app/src/main/java/com/nightlens/IATModelLoader.kt:48-49 | reading a whole bitmap yields its pixel array unchanged |
| `Nv12.StudioRange` | android/app/src/main/java/com/nightlens/VideoEncoder.kt:49-61 | for every pixel, the BT.601 fixed-point luma lies in [16, 235] and each chroma value in [16, 240], so the clamps never change a value |
| `Nv12.Nv12Frame` | android/app/src/main/java/com/nightlens/VideoEncoder.kt:43-64 | the reference frame has `w * h` luma bytes followed by two bytes for every pixel whose row and column are both even |
| `Nv12.LumaAt` | android/app/src/main/java/com/nightlens/VideoEncoder.kt:46-57 | the byte at `j * w + i` is the luma of pixel (`j`, `i`) |
| `Nv12.ChromaAt` | android/app/src/main/java/com/nightlens/VideoEncoder.kt:59-61 | for even `j` and `i`, the U and V bytes of their 2 x 2 block lie at `w * h + 2 * ((j / 2) * ((w + 1) / 2) + i / 2)` and the next index, inside the chroma plane, and are computed from the block's top-left pixel (`j`, `i`) alone |
| `Nv12.FitsIff` | android/app/src/main/java/com/nightlens/VideoEncoder.kt:38-61 | the chroma writes fit the `w * h * 3 / 2` buffer exactly when a dimension is zero or both are even; otherwise they overrun it |
| `Nv12.FitsExactly` | android/app/src/main/java/com/nightlens/VideoEncoder.kt:38 | when the writes fit, luma and chroma fill the buffer to its last byte |
| `Nv12.ChromaEndsAtBufferEnd` | android/app/src/main/java/com/nightlens/VideoEncoder.kt:38-61 | for even, non-zero dimensions, the pair of the last even pixel (`h - 2`, `w - 2`) ends exactly at the end of the buffer |
| `Nv12.ConvertSpec` | android/app/src/main/java/com/nightlens/VideoEncoder.kt:37-66 | a conversion succeeds exactly when `getPixels` accepts the region (it is empty or inside the bitmap) and the writes fit, and then yields `w * h * 3 / 2` bytes |
| `Codec.Write` | android/app/src/main/java/com/nightlens/VideoEncoder.kt:160-172 | a write keeps every earlier sample and appends one sample exactly for a data buffer (a present buffer whose size is non-zero and which is not codec config), never more; what it appends is on the muxer's track, non-empty and not codec config; a write on a started muxer, or of anything but a data buffer, keeps the muxer invariant |
| `Codec.DrainStep` | android/app/src/main/java/com/nightlens/VideoEncoder.kt:145-178 | one `dequeueOutputBuffer` result ends the drain, normally or by throwing, whenever it is TryAgain outside end of stream or an end-of-stream buffer, and a drain that ends normally ended on such a result (an end-of-stream data buffer before the muxer started throws instead); it throws only the two documented errors; it leaves the muxer started exactly when it was started or the result is FormatChanged; a started muxer keeps its track |
| `Codec.Drain` | android/app/src/main/java/com/nightlens/VideoEncoder.kt:144-179 | the drain takes a prefix of the results, at least one whenever there is one, and throws nothing but "Format changed after muxer start" and "Muxer not started!" |
| `Codec.DrainKeepsMuxInv` | android/app/src/main/java/com/nightlens/VideoEncoder.kt:148-171 | a drain keeps the muxer invariant and only appends samples. The invariant: started exactly when one track was added; the track is -1 and nothing is written before the start, and the track is 0 after it; every sample is on that track, non-empty and not codec config |
| `Codec.DrainStartsMuxer` | android/app/src/main/java/com/nightlens/VideoEncoder.kt:148-154 | after a drain the muxer is started exactly when it already was or a FormatChanged was dequeued; a started muxer keeps its track |
| `Codec.DrainWrites` | android/app/src/main/java/com/nightlens/VideoEncoder.kt:160-173 | a drain that does not throw writes exactly the data buffers it dequeued, in order, on the muxer's track. Codec-config buffers get size 0, so they are never written |
| `Codec.DrainStopsAtFirstEnd` | android/app/src/main/java/com/nightlens/VideoEncoder.kt:144-177 | no dequeued result before the last one ends a drain. A normal end consumed a TryAgain (not at end of stream) or an end-of-stream buffer, or used up the script outside end of stream. An end-of-stream drain with no end-of-stream buffer keeps waiting |
| `Codec.DrainRejectsSecondFormatChange` | android/app/src/main/java/com/nightlens/VideoEncoder.kt:148-151 | once the muxer is started, a dequeued FormatChanged is the drain's last result, and the drain throws "Format changed after muxer start" |
| `Codec.DrainNoSampleBeforeStart` | android/app/src/main/java/com/nightlens/VideoEncoder.kt:165-168 | a drain that does not throw dequeued no data buffer before the muxer was started (earlier, or by a FormatChanged ahead of it) |
| `FrameWorker.Feed` | android/app/src/main/java/com/nightlens/VideoEncoder.kt:112-131 | the first half of a turn takes the queue's head and one input slot |
| `FrameWorker.FeedEffect` | android/app/src/main/java/com/nightlens/VideoEncoder.kt:112-131 | the feed throws exactly when the head got an input buffer but does not convert. With a buffer, the frame's NV12 data is queued, stamped with the current clock, and the clock advances by one interval. Without a buffer, nothing is queued and the clock stays. The muxer and the output script are untouched |
| `FrameWorker.DrainTurn` | android/app/src/main/java/com/nightlens/VideoEncoder.kt:133 | the drain half of a turn leaves the queue and the input script alone |
| `FrameWorker.WorkerTurn` | android/app/src/main/java/com/nightlens/VideoEncoder.kt:111-134 | a turn takes exactly the queue's head and one input slot |
| `FrameWorker.TurnEffect` | android/app/src/main/java/com/nightlens/VideoEncoder.kt:111-134 | a turn is the feed followed, unless the feed threw, by one `drainEncoder(false)`; the clock advances exactly when a frame was queued, and the turn throws what the drain threw |
| `FrameWorker.WorkerLoopEnds` | android/app/src/main/java/com/nightlens/VideoEncoder.kt:111-117 | the loop ends only with `isRunning` false and an empty queue; it suspends only while running with an empty queue; otherwise it stopped by throwing. What stays queued is a suffix of the queue, shorter by at least one frame when the queue had any |
| `FrameWorker.WorkerLoopSlots` | android/app/src/main/java/com/nightlens/VideoEncoder.kt:112-122 | the input script advances exactly once per frame taken from the queue |
| `FrameWorker.WorkerLoopFeeds` | android/app/src/main/java/com/nightlens/VideoEncoder.kt:112-131 | frames reach the encoder in queue order (FIFO), exactly the queued frames that got an input buffer; a run that throws fed a prefix of them |
| `FrameWorker.WorkerLoopTimes` | android/app/src/main/java/com/nightlens/VideoEncoder.kt:108-129 | each input a run queues holds its frame's NV12 data and is stamped with the clock as it stood, and the clock advanced once per queued input and never otherwise |
| `FrameWorker.WorkerLoopMux` | android/app/src/main/java/com/nightlens/VideoEncoder.kt:133-180 | the drains of a run keep the muxer invariant, only append samples and consume a prefix of the output script |
| `FrameWorker.InputTimes` | android/app/src/main/java/com/nightlens/VideoEncoder.kt:109-129 | from a fresh worker, input `n` is stamped `n * (1000000 / frameRate)`, the clock stands at the input count times the interval, and with a positive interval the stamps strictly increase |
| `FrameWorker.ClockIsLinear` | android/app/src/main/java/com/nightlens/VideoEncoder.kt:129 | advancing the clock `n` times by the interval adds `n` times the interval |
| `FrameWorker.ClockAdd` | android/app/src/main/java/com/nightlens/VideoEncoder.kt:129 | advancing `a` times and then `b` times is advancing `a + b` times |
| `FrameWorker.ClockIncreases` | android/app/src/main/java/com/nightlens/VideoEncoder.kt:129 | with a positive interval, more advances give a strictly later time |
| `FrameWorker.FinishRunFlushes` | android/app/src/main/java/com/nightlens/VideoEncoder.kt:188-192 | a worker that leaves its loop and then drains in end-of-stream mode, as the comment in `stop()` describes, took the encoder's end-of-stream buffer as its last output and wrote every data buffer before it |
| `VideoEncoding.QuotientIsDivision` | android/app/src/main/java/com/nightlens/VideoEncoder.kt:108 | the subtraction-based quotient is integer division |
| `VideoEncoding.FrameIntervalBounds` | android/app/src/main/java/com/nightlens/VideoEncoder.kt:108 | the frame interval is one second divided by the frame rate, rounded toward zero for either sign; it is positive exactly for rates 1 to 1000000, negative exactly for rates -1000000 to -1, and zero for every other rate |
| `VideoEncoding.TeardownOrdered` | android/app/src/main/java/com/nightlens/VideoEncoder.kt:193-197 | `stop()` makes each platform call at most once, in source order: encoder stop, encoder release, muxer stop, muxer release |
| `VideoEncoding.TeardownOutcome` | android/app/src/main/java/com/nightlens/VideoEncoder.kt:193-201 | the teardown throws exactly when a present handle is already released, the muxer is present but never started, or the platform rejects a call made; otherwise it stops and releases every present handle |
| `VideoEncoding.ResolveOnce` | android/app/src/main/java/com/nightlens/VideoEncoder.kt:94-201 | the deferred is resolved by its first `complete`/`completeExceptionally`; later ones leave it unchanged |
| `VideoEncoding.StopRunEnds` | android/app/src/main/java/com/nightlens/VideoEncoder.kt:183-192 | after `stop()` cancels and joins, the worker is no longer alive, and it is blocked exactly when it was before. A worker in mid-iteration has either finished its loop with an empty queue or crashed |
| `VideoEncoding.DrainRunEnds` | android/app/src/main/java/com/nightlens/VideoEncoder.kt:188-192 | after a join that lets the worker finish and drain, a live worker has finished, crashed or blocked; any other worker is unchanged |
| `VideoEncoding.VideoEncoder.constructor` | android/app/src/main/java/com/nightlens/VideoEncoder.kt:18-34 | an encoder starts with null handles, an empty queue, a muxer with no track (index -1), not running, a pending deferred and no worker |
| `VideoEncoding.VideoEncoder.BitmapToNV12` | android/app/src/main/java/com/nightlens/VideoEncoder.kt:37-66 | the conversion loop produces exactly the reference NV12 frame, and fails exactly where `getPixels` or a chroma write throws |
| `VideoEncoding.VideoEncoder.ConvertRow` | android/app/src/main/java/com/nightlens/VideoEncoder.kt:46-64 | one row of the loop writes that row's luma and, on even rows, its chroma pairs at the running indices; it fails only when the writes do not fit |
| `VideoEncoding.VideoEncoder.WritePair` | android/app/src/main/java/com/nightlens/VideoEncoder.kt:59-62 | the U and V writes of an even pixel extend the written prefix by the reference bytes, and fail only when the writes do not fit |
| `VideoEncoding.VideoEncoder.EnqueueFrame` | android/app/src/main/java/com/nightlens/VideoEncoder.kt:100-104 | a frame is appended exactly when the encoder is running and fewer than 10 frames are queued; otherwise the queue is unchanged |
| `VideoEncoding.VideoEncoder.FeedOne` | android/app/src/main/java/com/nightlens/VideoEncoder.kt:112-131 | the poll, input-buffer request, conversion and `queueInputBuffer` of one iteration change the state exactly as `FrameWorker.Feed` |
| `VideoEncoding.VideoEncoder.ProcessOne` | android/app/src/main/java/com/nightlens/VideoEncoder.kt:111-134 | one iteration of the worker loop changes the state exactly as `FrameWorker.WorkerTurn` |
| `VideoEncoding.VideoEncoder.ProcessFrames` | android/app/src/main/java/com/nightlens/VideoEncoder.kt:107-135 | the coroutine runs exactly as `FrameWorker.WorkerLoop` (so the worker lemmas apply to it); a zero frame rate throws before the loop |
| `VideoEncoding.VideoEncoder.DrainEncoder` | android/app/src/main/java/com/nightlens/VideoEncoder.kt:137-180 | with a null handle it does nothing; otherwise it signals the end of input when asked (the signal is taken to be accepted, see Left out), and drains exactly as `Codec.Drain` |
| `VideoEncoding.VideoEncoder.DrainOne` | android/app/src/main/java/com/nightlens/VideoEncoder.kt:145-178 | one `dequeueOutputBuffer` result is handled exactly as `Codec.DrainStep` |
| `VideoEncoding.VideoEncoder.Start` | android/app/src/main/java/com/nightlens/VideoEncoder.kt:69-98 | success opens the encoder and the muxer, sets `isRunning` and launches the worker (which never runs once the scope is cancelled). If a step throws, the deferred completes with that error, and `stop()` then tears down whatever handles exist, offering its outcome in vain |
| `VideoEncoding.VideoEncoder.Stop` | android/app/src/main/java/com/nightlens/VideoEncoder.kt:182-203 | `stop()` as written. It clears `isRunning` and cancels the scope. The worker ends as `StopRun` says and never signals end of input. Unless the worker is blocked, the handles are torn down in order and the deferred is offered the path, or the error when a call threw |
| `VideoEncoding.VideoEncoder.CancelAndJoin` | android/app/src/main/java/com/nightlens/VideoEncoder.kt:183-192 | `isRunning = false`, `scope.cancel()` and the join leave the worker as `StopRun` says |
| `VideoEncoding.VideoEncoder.StopAndDrain` | android/app/src/main/java/com/nightlens/VideoEncoder.kt:182-203 | `stop()` as its comment describes it. The worker finishes its loop, signals end of input and drains in end-of-stream mode, as `DrainRun` says. Then the handles are torn down as in `Stop` |
| `VideoEncoding.VideoEncoder.FinishAndJoin` | android/app/src/main/java/com/nightlens/VideoEncoder.kt:183-192 | clearing `isRunning` and joining a worker that drains at the end leaves it as `DrainRun` says; end of input is signalled exactly when the loop finished |
| `VideoEncoding.VideoEncoder.DrainAtEnd` | android/app/src/main/java/com/nightlens/VideoEncoder.kt:137-142 | `drainEncoder(true)` after the loop signals end of input and leaves the state as `FrameWorker.EndDrain` |
| `VideoEncoding.VideoEncoder.CloseAll` | android/app/src/main/java/com/nightlens/VideoEncoder.kt:193-202 | the `try` block of `stop()` makes the calls `Teardown` says, leaves each handle stopped or released as far as they got, and offers the deferred the path, or the error when a call threw |
| `VideoEncoding.VideoEncoder.CloseEncoder` | android/app/src/main/java/com/nightlens/VideoEncoder.kt:194-195 | `encoder?.stop(); encoder?.release()` up to the first call that throws |
| `VideoEncoding.VideoEncoder.CloseMuxer` | android/app/src/main/java/com/nightlens/VideoEncoder.kt:196-197 | `muxer?.stop(); muxer?.release()` up to the first call that throws; `stop` throws on a muxer that never started |
| `VideoEncoding.RecordedRun` | android/app/src/main/java/com/nightlens/VideoEncoder.kt:111-133 | in the recording, the worker feeds its one 2 x 2 frame, dequeues a TryAgain and suspends with the muxer untouched |
| `VideoEncoding.RecordedDrain` | android/app/src/main/java/com/nightlens/VideoEncoder.kt:144-177 | an end-of-stream drain of the remaining outputs starts the muxer, writes the 100-byte frame and ends on the end-of-stream buffer |
| `VideoEncoding.OpenTeardowns` | android/app/src/main/java/com/nightlens/VideoEncoder.kt:193-201 | tearing down two open handles throws at `muxer.stop()` when the muxer never started, and makes all four calls when it did |
| `VideoEncoding.Prepare` | android/app/src/main/java/com/nightlens/VideoEncoder.kt:69-104 | a new encoder, started and offered one frame: the queue holds it, the encoder and muxer are open, and the worker is launched |
| `VideoEncoding.Record` | android/app/src/main/java/com/nightlens/VideoEncoder.kt:69-135 | the prepared encoder after the worker has fed its frame and suspended |
| `VideoEncoding.StopDropsPendingOutput` | android/app/src/main/java/com/nightlens/VideoEncoder.kt:182-203 | `stop()` as written on that recording writes no sample and completes the deferred exceptionally |
| `VideoEncoding.StopAndDrainKeepsPendingOutput` | android/app/src/main/java/com/nightlens/VideoEncoder.kt:182-203 | `stop()` as its comment intends, on the same recording, writes the frame and completes the deferred with the output path |
| `TensorCodec.Normalize` | android/app/src/main/java/com/nightlens/IATModelLoader.kt:51-53 | a channel divided by 255 lies in [0, 1] |
| `TensorCodec.TruncateToInt` | android/app/src/main/java/com/nightlens/IATModelLoader.kt:67-69 | `toInt()` truncates toward zero |
| `TensorCodec.Denormalize` | android/app/src/main/java/com/nightlens/IATModelLoader.kt:67-69 | times 255, truncated and clamped: below 1/255 gives 0, from 1 up gives 255, and in between it is the floor of the product |
| `TensorCodec.ChannelRoundTrip` | android/app/src/main/java/com/nightlens/IATModelLoader.kt:51-69 | decoding a normalised channel gives the channel back |
| `TensorCodec.EncodePixels` | android/app/src/main/java/com/nightlens/IATModelLoader.kt:50-57 | the tensor holds three floats per pixel |
| `TensorCodec.EncodeLayout` | android/app/src/main/java/com/nightlens/IATModelLoader.kt:50-57 | the floats at `3k`, `3k+1` and `3k+2` are pixel `k`'s red, green and blue divided by 255 |
| `TensorCodec.DecodePixels` | android/app/src/main/java/com/nightlens/IATModelLoader.kt:65-71 | decoding `n` pixels yields `n` pixels |
| `TensorCodec.DecodeLayout` | android/app/src/main/java/com/nightlens/IATModelLoader.kt:66-70 | decoded pixel `k` has the denormalised floats `3k`, `3k+1` and `3k+2` as its red, green and blue, and alpha 0xFF |
| `TensorCodec.Opaque` | android/app/src/main/java/com/nightlens/IATModelLoader.kt:70 | a pixel with its alpha forced to 0xFF keeps its red, green and blue |
| `TensorCodec.RoundTrip` | android/app/src/main/java/com/nightlens/IATModelLoader.kt:43-74 | decoding an encoded bitmap gives every pixel back with alpha 0xFF, so opaque bitmaps round-trip exactly |
| `TensorCodec.IATModelLoader.constructor` | android/app/src/main/java/com/nightlens/IATModelLoader.kt:14-20 | a loader holds the interpreter it is given |
| `TensorCodec.IATModelLoader.RunModel` | android/app/src/main/java/com/nightlens/IATModelLoader.kt:32-41 | the result is a 256 x 256 bitmap whatever the input's size: the decoding of the network's output on the encoding of the rescaled input |
| `TensorCodec.IATModelLoader.ConvertBitmapToByteBuffer` | android/app/src/main/java/com/nightlens/IATModelLoader.kt:43-61 | the buffer holds 196608 floats (786432 bytes), the encoding of the rescaled bitmap |
| `TensorCodec.IATModelLoader.ConvertByteBufferToBitmap` | android/app/src/main/java/com/nightlens/IATModelLoader.kt:63-74 | decoding succeeds exactly when the buffer holds three floats per pixel, and then yields a `width` x `height` bitmap of the decoded pixels; a shorter buffer underflows |

## Left out

- Floating point: `/ 255.0f` and `* 255.0f` are exact real arithmetic. IEEE single-precision rounding is not modelled, so `ChannelRoundTrip` is exact here; on a device it depends on the rounding of `c / 255f * 255f`.
- Byte order of the tensor buffers (`ByteOrder.nativeOrder()`) and the byte encoding of floats: a buffer is a sequence of floats.
- `Bitmap.createScaledBitmap` is any function that returns a 256 x 256 bitmap. Filtering is not modelled.
- The TFLite interpreter is any function that returns a buffer of 196608 floats. `loadModelFile` and `close()` are asset and native-resource I/O, and are not modelled.
- `Bitmap.createBitmap` with a zero dimension throws. `ConvertByteBufferToBitmap` accepts zero dimensions, since the model only passes 256.
- `MediaCodec` and `MediaMuxer` internals, the `MediaFormat` settings (mime type, bit rate, colour format, profile, level), and `Log` calls. Encoder and muxer answers are scripts.
- Script exhaustion is read as a timeout. When an end-of-stream drain exhausts its script, the result is `StillWaiting`, which stands for the source's endless wait.
- `getInputBuffer` capacity: `put` into an input buffer smaller than the NV12 frame would throw a `BufferOverflowException`. The model assumes buffers are large enough.
- `BufferInfo.offset` and the `ByteBuffer` position and limit of an output buffer: a sample records the buffer info it was written with.
- Coroutines and concurrency: the worker runs sequentially and may be interleaved with the class's other methods only at iteration boundaries, and `Stop` receives the worker's position (`workerRunning`) as a parameter. Races on `isRunning` and the unsynchronised fields are not modelled.
- Exceptions thrown by the worker and not caught: the model records them as a `Crashed` worker. What the `SupervisorJob` and the default handler then do to the app is not modelled.
- `Start` assumes the worker was never launched (`worker == NotLaunched`): a second `start()` after a successful one is not modelled.
- `EnqueueFrame` requires that the bitmap and every queued bitmap hold their full pixel array, which every Android `Bitmap` does.
- The `presentationTimeUs` field at VideoEncoder.kt line 29 is never read. The worker uses its local clock, which is the one modelled.
- `Long` overflow of the presentation time, `Int` overflow of `width * height` and negative dimensions are not modelled: sizes are natural numbers and integers are unbounded.
- Frame rates above 1000000 and below -1000000 give a zero interval, and a rate from -1000000 to -1 a negative one. `FrameIntervalBounds` states all three cases; for any rate outside 1 to 1000000 the stamps do not increase, which is what the source does.
- VideoEncoding.VideoEncoder.DrainEncoder: `signalEndOfInputStream()` is taken to be accepted. Android accepts it only from an encoder whose input is a `Surface` from `createInputSurface()`, which this encoder's ByteBuffer input is not, and rejects it with an `IllegalStateException`. So the end-of-stream drain in `DrainAtEnd`, `StopAndDrain`, `FrameWorker.EndDrain`, `FrameWorker.FinishRunFlushes` and `StopAndDrainKeepsPendingOutput` shows the flush the comment in `stop()` intends with an end-of-input signal that reaches the encoder. On a device that signal would have to be an empty `queueInputBuffer` carrying `BUFFER_FLAG_END_OF_STREAM`, which is not modelled.
- `ProcessFrames` states its result through `FrameWorker.WorkerLoop`. The presentation-time properties are the lemmas about that function (`WorkerLoopTimes`, `InputTimes`), not a class invariant.

## Findings

| source | as written | input that shows it | evidently intended | confidence | as-written member | corrected member |
|---|---|---|---|---|---|---|
| android/app/src/main/java/com/nightlens/VideoEncoder.kt:182-203 | `stop()` cancels the scope before joining and nothing calls `signalEndOfInputStream` or `drainEncoder(true)`. The comment at lines 189-191 says the worker drains the remaining frames and calls `drainEncoder(true)` | A 2 x 2 recording of one frame: the encoder answers TryAgain while the worker drains, and only later the format change, one 100-byte frame and end of stream. `stop()` called while the worker waits in `delay(10)` writes no sample, and `muxer.stop()` on the never-started muxer throws, so the deferred completes exceptionally | the worker finishes its loop, signals end of input and drains until end of stream before the teardown. The frame is written and the deferred completes with the path. The signal is modelled as reaching the encoder; with ByteBuffer input it would be sent as an empty end-of-stream input buffer (see `VideoEncoding.VideoEncoder.DrainEncoder` under Left out) | not executed | `VideoEncoding.StopDropsPendingOutput` | `VideoEncoding.StopAndDrainKeepsPendingOutput` |
