# Capture data path: model and proofs

This project models the data path of the capture daemon and proves what it keeps. A
captured period is downmixed, amplified and high-pass filtered, and the same bytes then go
to three consumers: a circular history that clips are cut from, a block recorder that
drains a byte ring into fixed-length files, and a shared-memory region that other processes
read. The history and the files must both agree with one unbounded stream of samples.

`dafny verify dfyconfig.toml` checks everything.

## Layout

| file | subject |
|---|---|
| `Bits.dfy`, `Bytes.dfy` | 64-bit cursors, masks and the round-up helpers; byte copies, little-endian fields, rings against streams |
| `RingBuffer.dfy`, `HistoryRace.dfy` | the overwriting history, and its reader running beside its writer |
| `RecorderProtocol.dfy`, `RecorderProofs.dfy`, `RecorderResults.dfy` | the block recorder as threads over shared variables: steps, invariant, guarantees |
| `RecorderSizing.dfy`, `RecorderStop.dfy`, `RecorderErrors.dfy` | what its sizes imply, what decides completeness at the stop, what a failed open does |
| `BlockRecorder.dfy`, `RecorderSolo.dfy` | the recorder's own code over its arrays; each of its methods as a run of the state machine |
| `Pcm.dfy`, `Dsp.dfy`, `SampleLoops.dfy` | sample formats; the sample arithmetic and whole sessions; the loops over raw buffers |
| `DcRace.dfy` | the DC filter's state with resets from another thread |
| `Vector.dfy`, `Metering.dfy` | the NEON loops against the scalar ones |
| `CapturePipeline.dfy` | the capture callback, its fan-out, settings and stop order |
| `ClipExtractor.dfy`, `ClipRace.dfy`, `ClipProtocol.dfy` | the clip window; clips cut while capture writes; the request and result protocol |
| `SamplePublisher.dfy`, `PublisherRace.dfy` | the shared-memory layout; its reader running beside its writer |

A protocol between threads is a state machine: every atomic access, byte copy, file
operation and locked section is one step, a run is any sequence of enabled steps, and the
results hold in every state a run reaches. Code that one thread runs alone is a class or a
method over arrays, proved against functions of the stream it carries. Ghost history (what
was offered, accepted, filed) exists only to state results.

Three devices keep the proofs of the array code free of products and remainders of two
variables: `Bits.Times` is multiplication by repeated addition, `Bytes.Slot` is the
remainder by repeated subtraction, and `Bytes.Tracks` is `Bytes.Mirrors` one position at a
time. Lemmas `TimesIs`, `SlotIs` and `TracksIs` equate them with the usual forms. In
`CapturePipeline.dfy` the predicates `Sealed`, `Balance` and `Emitted` are the named
predicates behind a number of unfoldings, so that a method that passes a consumer on does
not look into it.

## What is assumed

- Steps are sequentially consistent, and a condition-variable wait is a guarded step:
  the results are about safety and about which steps are enabled, not about delivery of
  `notify_one`. An aligned 8-byte counter store is one step; `PublisherRace.TornCounterIff`
  says exactly what a byte-wise store would break.
- Rate, channels, bytes per sample and block duration are at least 1, and the sizes stay
  within 64 bits.
- Samples are integers and gains and filter states real numbers: float rounding is not
  modelled, and the filter constant is exactly 0.999.
- In `RecorderProtocol.dfy` opening a file may fail at any time and the samples it discards
  are counted; in `BlockRecorder.dfy` opens succeed. Writes succeed in both.
- Loads and stores of the DC filter's floats are steps like any other, although the code
  lets two threads access them without synchronisation.
- Periods hold whole frames, and at most the period size the scratch buffers were made for.

## Where the code and its description differ

- The Q14 gain is described as a saturating narrow. `vmovn_s64` does not saturate: every
  sample whose product with the Q14 gain is outside [-2^45, 2^45) wraps. So do clipped samples
  (`Vector.Q14WrapsClipped`), and so does one just below -2^31, which becomes 2^31 - 1
  (`Vector.Q14FlipsSign`). `Vector.Q14NarrowsIff` gives the exact condition; a saturating
  narrow would meet the error bound everywhere (`Vector.SaturatingIsNear`).
- Switching DC removal off clears the filter state from the control thread while the capture
  thread may be filtering. A reset that clears the previous input and has its clearing of
  the previous output overwritten leaves the filter with a wrong estimate: one such torn
  reset takes the output past 2^B - 1 (`DcRace.StableIff`), and at 24 bits 294 of them
  overflow the conversion to int32 (`DcRace.CastsFitIff`). Resetting only while the callback
  is not running would avoid both (`DcRace.GuardedIsStable`).
- The 24-bit gain converts the product to int32 before it clamps: gains above 256 (48 dB),
  which the configuration admits, overflow it (`Dsp.GainCastsIff`).
- `vabsq_s16` leaves -32768 as it is, so a period clipped at -32768 in its batches can
  report a peak of 0. `Metering.PeakAgreesIff` gives the exact condition.
- The README says captured periods go straight to the file "with no intermediate
  buffering". They go through a ring and a write buffer; the no-gap, no-overlap promise
  holds nevertheless (`RecorderResults.Gapless`). It fails for a period whose push is still
  running when the recorder is stopped (`RecorderSizing.LatePublishIsLost`), which the
  pipeline avoids by joining capture first; `RecorderStop.StopIsCompleteIff` says exactly
  when it fails.
- A file that cannot be opened is logged as "dropping samples". It drops what the write
  buffer holds, which for some formats ends inside a frame: the files after it then start in
  the middle of one, with channels and bytes out of place (`RecorderErrors.CanShiftIff`).
  24-bit mono at 16 kHz is such a format (`RecorderErrors.MonoTriplesShift`).
- The flush threshold is at least 65536 bytes, but the ring is only four seconds long: up to
  8192 bytes per second the writer never wakes before it is stopped
  (`RecorderSizing.CanWakeIff`).
- The downmix keeps "the left channel" with a fixed stride of two samples, which is the left
  channel for stereo input only (`Dsp.DownmixIsLeftIffStereo`), and only there does the
  output not depend on where the input is cut into periods (`Dsp.MixedCutsIff`).
- A clip that ends in the past is cut at the head instead (`Clips.PastRangeIsMissed`), and an
  empty path from a synchronous request does not mean that no clip was saved
  (`ClipProtocol.EmptyPathMayHideClip`). `ClipProtocol.ReturnsOwnPathIff` says exactly when
  the path is the request's own: whenever the service was not stopped before the result was
  posted.
- The magic number reads "AUDI" from its high byte down; its little-endian bytes are in the
  opposite order.

## Model

| member | source | states |
|---|---|---|
| `Bits.RoundUp` | src/capture/ring_buffer.cpp:8-18 | for every 64-bit argument from 1 to 2^63 this helper and the recorder's give the least power of two that is not smaller; above 2^63 both overflow to 0; they differ exactly at 0 |
| `Bits.MaskIsMod` | src/capture/ring_buffer.cpp:36 | and-ing with capacity - 1 is the remainder by a power-of-two capacity |
| `Bits.WrapKeepsCell` | src/capture/ring_buffer.cpp:40 | wrapping a cursor at 64 bits never changes the cell it selects |
| `Bits.WrappedDistance` | src/capture/block_recorder.cpp:83 | unsigned `w - r` of wrapped cursors is the true distance |
| `History.StartCell` | src/capture/ring_buffer.cpp:61-68 | both branches of the start computation select the cell of the frame that lies `offset + readable` before the unwrapped head |
| `History.RingBuffer.constructor` | src/capture/ring_buffer.cpp:20-26 | capacity is the request rounded up; the history starts empty |
| `History.RingBuffer.Write` | src/capture/ring_buffer.cpp:28-46 | the history grows by exactly the frames written, also when they exceed the capacity, and the buffer holds its newest bytes |
| `History.RingBuffer.Read` | src/capture/ring_buffer.cpp:48-81 | held being the frames written, at most the capacity: returns exactly count frames if offset + count <= held, held - offset if the offset alone is, and 0 past it; they are the history's frames ending `offset` before the head; the rest of the caller's buffer is untouched and the wrap-around branch is not needed |
| `History.RingBuffer.AvailableIs` | src/capture/ring_buffer.cpp:83-86 | up to 2^64 frames, min(frames written, capacity) frames are available |
| `History.RingBuffer.WindowIs` | src/capture/ring_buffer.cpp:70-78 | what a read copies is, byte for byte, the history from (frames - offset - count) * bytes per frame on |
| `History.RingBuffer.CopyWindow` | src/capture/ring_buffer.cpp:70-78 | the copy loop, over at most two runs, delivers consecutive frames of the history |
| `HistoryRace.NextInv` | src/capture/ring_buffer.cpp:28-81 | every step of writer and reader, interleaved byte by byte, keeps the buffer a mirror of the newest bytes and every byte read explained by its own slot |
| `HistoryRace.ConcurrentRead` | src/capture/ring_buffer.cpp:48-81 | in every interleaving the loaded cursor is not behind the loaded total, every byte copied is the newest one of the requested slot and not older than requested, and it is the requested one if and only if the writer had not passed its slot when it was read |
| `HistoryRace.ReadableSeen` | src/capture/ring_buffer.cpp:48-57 | a read that starts beside the writer is granted frames by the total it loads: all it asked for, what is held behind the offset, or none |
| `HistoryRace.UndisturbedRead` | src/capture/ring_buffer.cpp:48-81 | so while the writer has copied in no byte of a frame at or past start + capacity the copy is the history |
| `HistoryRace.CopiesInBounds` | src/capture/ring_buffer.cpp:36-78 | the masked cell of every byte still to be copied, by either thread, lies in the buffer |
| `HistoryRace.OvertakenRead` | src/capture/ring_buffer.cpp:50-78 | without that condition it is not: for a buffer of any size, a run in which the writer overtakes a read |
| `RecorderProofs.ConfigureValid` | src/capture/block_recorder.cpp:17-37 | every admissible format and duration gives sizes that the results below apply to, a block being exactly duration * rate frames |
| `RecorderProofs.NextInv` | src/capture/block_recorder.cpp:75-287 | each of the 23 steps of producer, writer, stopping thread and statistics reader keeps the recorder's invariant |
| `RecorderResults.LogIsComplete` | src/capture/block_recorder.cpp:75-101 | the log of offers, plus the push in progress, is exactly the periods pushed, in order |
| `RecorderResults.Gapless` | src/capture/block_recorder.cpp:75-222 | in every interleaving closed files ++ open file ++ write buffer ++ unread ring bytes are the accepted periods in order, whole periods being the only unit push drops; failed opens take bytes out of that order, a known number of them and not always whole frames |
| `RecorderResults.SpscSafety` | src/capture/block_recorder.cpp:80-137 | 0 <= w - r <= capacity at every step with wrapping cursors, and no cell the producer copies into is one the writer copies from, however stale each one's view of the other's cursor |
| `RecorderResults.BlockAccounting` | src/capture/block_recorder.cpp:147-235 | file i is exactly accepted frames [i*B, (i+1)*B), only the last file may be short and it ends with what was filed last, none is empty, the frame and block counters agree at every step, and no statistics snapshot shows more blocks than frames |
| `RecorderResults.SnapshotIs` | src/capture/block_recorder.cpp:228-235 | a statistics snapshot holds the block counter of its first load and the frame counter of its second, whatever the other threads do in between |
| `RecorderResults.DrainProgress` | src/capture/block_recorder.cpp:119-226 | a draining writer always has a step, takes at least one byte while any is unread, and every step lessens a lexicographic measure |
| `RecorderResults.ShutdownComplete` | src/capture/block_recorder.cpp:65-73 | when the writer has exited the closed files hold every accepted byte if and only if none is left in the ring, and that is so whenever capture was stopped first |
| `RecorderStop.StopIsCompleteIff` | src/capture/block_recorder.cpp:65-101 | at the moment the writer is told to stop: every continuation in which it exits leaves complete files if and only if no push that can still put bytes into the ring is under way |
| `RecorderSizing.Margins` | src/capture/block_recorder.cpp:26-36 | ring capacity minus threshold, for every format: at least three seconds from 65536 bytes per second, at least 65536 bytes above 16384, zero from there down to 8193, negative below |
| `RecorderSizing.DropsAsleepIff` | src/capture/block_recorder.cpp:83-116 | over all runs: a whole-frame period can be dropped with the writer still asleep if and only if it is longer than what the largest fill that lets the writer sleep leaves free |
| `RecorderSizing.NeverDroppedAsleep` | src/capture/block_recorder.cpp:83-116 | so no run drops one asleep that is no longer than ring minus threshold plus one byte |
| `RecorderSizing.DropMeansWriterEnabled` | src/capture/block_recorder.cpp:83-89 | of such a period also after failed opens and in the middle of a drain: if it is refused, the writer's wait is over at that moment |
| `RecorderSizing.CanWakeIff` | src/capture/block_recorder.cpp:112-116 | some run wakes the writer before it is stopped if and only if a ring full of whole frames reaches the threshold; never up to 8192 bytes per second |
| `RecorderSizing.StarvedUntilStopped` | src/capture/block_recorder.cpp:112-116 | a recorder that fails this condition writes nothing until it is stopped |
| `RecorderSizing.LatePublishIsLost` | src/capture/block_recorder.cpp:65-101 | for every configuration, a run in which stopping during a push leaves an accepted period in no file |
| `RecorderErrors.AlignedIff` | src/capture/block_recorder.cpp:139-155 | files continue at a frame boundary of the accepted stream if and only if failed opens have discarded whole frames |
| `RecorderErrors.CanShiftIff` | src/capture/block_recorder.cpp:121-155 | some run discards part of a frame if and only if the frame size does not divide the write buffer and the ring can hold more than it |
| `RecorderErrors.MonoTriplesShift` | src/capture/block_recorder.cpp:17-37 | 24-bit mono from 10923 to 21845 Hz is such a format |
| `Recorder.BlockRecorder.constructor` | src/capture/block_recorder.cpp:17-37 | sizes as computed from the format; ring, buffer and files start empty |
| `Recorder.BlockRecorder.Start` | src/capture/block_recorder.cpp:57-63 | recording and running; nothing else changes |
| `Recorder.BlockRecorder.Push` | src/capture/block_recorder.cpp:75-101 | the accepted stream grows by the whole period, or by nothing exactly when recording is off or the unread bytes leave too little room |
| `Recorder.PutTracks` | src/capture/block_recorder.cpp:92-97 | the two copies of a push, wrapping or not, put the period behind the stream the ring carries |
| `Recorder.GetTracks` | src/capture/block_recorder.cpp:128-135 | the two copies of a drain return the next bytes of that stream |
| `Recorder.BlockRecorder.TakeChunk` | src/capture/block_recorder.cpp:121-137 | moves min(unread, free) bytes behind those buffered; none exactly when the ring is empty |
| `Recorder.UnpackTriples` | src/capture/block_recorder.cpp:167-173 | the unpacking loop hands each 24-bit sample on, left-justified |
| `Recorder.FileSampleAt` | src/capture/block_recorder.cpp:164-187 | sample i handed to the file, from its bytes: the signed 2- or 4-byte value, and for 24 bits the signed value of four bytes of which the low one is 0 |
| `Recorder.FilesDetermineBytes` | src/capture/block_recorder.cpp:164-187 | what is handed to the file determines the bytes it came from |
| `Recorder.BlockRecorder.WriteBatch` | src/capture/block_recorder.cpp:148-200 | writes what the block has room for, opening a file if none is open; the files still hold exactly the first frames accepted |
| `Recorder.BlockRecorder.Rotate` | src/capture/block_recorder.cpp:202-205 | closes and counts the file exactly when it is a full block |
| `Recorder.BlockRecorder.WriteFrames` | src/capture/block_recorder.cpp:147-206 | the batch loop files every buffered whole frame; each file it closes is a full block and each is counted |
| `Recorder.BlockRecorder.KeepLeftover` | src/capture/block_recorder.cpp:208-214 | the partial frame moves to the front and continues the files |
| `Recorder.BlockRecorder.CloseCurrentFile` | src/capture/block_recorder.cpp:278-287 | the open file, if any, becomes the last closed one |
| `Recorder.BlockRecorder.Drain` | src/capture/block_recorder.cpp:119-215 | terminates; afterwards every accepted frame is in a file, the ring and the write buffer are empty, and only full blocks were closed |
| `Recorder.BlockRecorder.Stop` | src/capture/block_recorder.cpp:65-73 | afterwards the closed files hold the accepted stream, sample for sample |
| `Recorder.BlockRecorder.GetStats` | src/capture/block_recorder.cpp:228-235 | returns the two counters; blocks * block length <= frames, and frames written, buffered and unread add up to what was accepted |
| `Recorder.BlockRecorder.HeldIsAccepted` | src/capture/block_recorder.cpp:75-215 | files, write buffer and ring together hold the accepted stream, nothing twice |
| `Recorder.BlockRecorder.BlockIs` | src/capture/block_recorder.cpp:147-206 | while only full blocks were closed, file i holds exactly the samples of accepted frames [i*B, (i+1)*B) |
| `RecorderSolo.SoloPush` | src/capture/block_recorder.cpp:75-101 | in the state machine the producer's steps alone take the whole period, or none of it exactly on the two guards of push |
| `RecorderSolo.SoloWake` | src/capture/block_recorder.cpp:108-222 | the writer's steps alone, from a wake-up, empty the ring and lead back to the wait |
| `RecorderSolo.SoloStop` | src/capture/block_recorder.cpp:65-73 | and from the stop to the exit, with closed files that are the accepted stream |
| `RecorderSolo.NewTied` | src/capture/block_recorder.cpp:17-37 | a new recorder is tied to the machine's initial state |
| `RecorderSolo.TiedStart` | src/capture/block_recorder.cpp:57-63 | starting it is the machine's start |
| `RecorderSolo.TiedPush` | src/capture/block_recorder.cpp:75-101 | a push of the code leaves it in the state that some run of the machine's producer leads to |
| `RecorderSolo.TiedDrain` | src/capture/block_recorder.cpp:108-222 | likewise a drain |
| `RecorderSolo.TiedStop` | src/capture/block_recorder.cpp:65-73 | likewise a stop, and the code's closed files hold the samples of the machine's |
| `RecorderSolo.TiedMeans` | src/capture/block_recorder.cpp:75-222 | in tied states cursors, frame counter, buffered bytes and file contents are the same |
| `Pcm.StoreLoad` | src/pipeline/capture_pipeline.cpp:350-351 | loading a stored sample gives it back, at 2, 3 and 4 bytes |
| `Pcm.LoadStore` | src/pipeline/capture_pipeline.cpp:350-351 | storing a loaded field gives its bytes back |
| `Pcm.LoadBytes` | src/pipeline/capture_pipeline.cpp:350-388 | the sample of 2, 3 or 4 bytes is b0 + 0x100*b1 + 0x10000*b2 + 0x1000000*b3, minus 2^B from 0x80 in the high byte on |
| `Pcm.StoreBytes` | src/pipeline/capture_pipeline.cpp:377-393 | byte k of a stored sample is its k-th digit to base 256, two's complement |
| `Pcm.DecodeAt` | src/pipeline/capture_pipeline.cpp:350-388 | sample i of a buffer is the field at byte i times the width |
| `Pcm.EncodeAt` | src/pipeline/capture_pipeline.cpp:377-393 | and it is stored in exactly those bytes |
| `Pcm.Unpack24IsLoad` | src/pipeline/capture_pipeline.cpp:387-388 | the or and sign-extension operations are the two's complement load, and packing undoes them on every byte triple |
| `Pcm.Pack24IsStore` | src/pipeline/capture_pipeline.cpp:391-393 | the mask and shift operations are the store, and unpacking undoes them on every 24-bit sample |
| `Pcm.DecodeEncode` | src/pipeline/capture_pipeline.cpp:350-351 | decoding an encoded sample sequence gives it back |
| `Pcm.EncodeDecode` | src/pipeline/capture_pipeline.cpp:350-351 | encoding a decoded buffer of whole samples gives its bytes back |
| `Dsp.UnityGain` | src/pipeline/capture_pipeline.cpp:194 | the gain of 1 that the callback skips would change nothing |
| `Dsp.ScaleIs` | src/pipeline/capture_pipeline.cpp:372-428 | at every width, for every gain and sample: in range the result has the sign of the product and is less than 1 from it toward zero; above it is 2^(B-1) - 1, below -2^(B-1) |
| `Dsp.GainCastsIff` | src/pipeline/capture_pipeline.cpp:372-428 | for each width, the gains for which every sample's product fits the integer type it is converted to before the clamp, as an if and only if |
| `Dsp.GainCastsAt` | src/pipeline/capture_pipeline.cpp:372-428 | the same in figures: gains above -65536 and below 65536 + 2^-15 at 16 bits, above -256 and below 256 + 2^-23 at 24, above -2^32 and below 2^32 + 2^-31 at 32 |
| `Dsp.DownmixIsLeftIffStereo` | src/pipeline/capture_pipeline.cpp:435-494 | the stride-2 copy is the left channel of every buffer if and only if there are two channels |
| `Dsp.DownmixAt` | src/pipeline/capture_pipeline.cpp:487-494 | sample f of the downmix is input sample 2f |
| `Dsp.DcIsAverageRemoval` | src/pipeline/capture_pipeline.cpp:496-514 | from any state, which after a reset means from 0, the filter's output is the input minus an exponential average of the inputs before it |
| `Dsp.AverageBounded` | src/pipeline/capture_pipeline.cpp:499 | that average stays in every interval that holds its start and the inputs |
| `Dsp.ConstantDecays` | src/pipeline/capture_pipeline.cpp:499 | a constant input c gives exactly 0.999^n * c at frame n |
| `Dsp.ConstantSilenced` | src/pipeline/capture_pipeline.cpp:507-512 | and its emitted sample is exactly 0 from frame 1000*abs(c) on |
| `DcRace.NextInv` | src/pipeline/capture_pipeline.cpp:157-163 | each load and store of the filter, and each half of a reset, keeps the estimate within what the resets lost so far allow |
| `DcRace.OutputByDebt` | src/pipeline/capture_pipeline.cpp:507-510 | in every interleaving the output stays within a bound that depends only on how often the previous input was cleared, with effect, since the previous output was: 2^B - 1 for never, 3*2^(B-1) for once |
| `DcRace.StableIff` | src/pipeline/capture_pipeline.cpp:157-163 | with no reset in progress all runs meet 2^B - 1 if and only if no reset may be torn, that is, have its first store take effect and its second overwritten; at every width |
| `DcRace.GuardedIsStable` | src/pipeline/capture_pipeline.cpp:157-163 | what a caller can do: if every second store of a reset takes effect, as when resets are made only between samples, the bound holds whenever none is in progress and every conversion fits |
| `DcRace.StaysStableIff` | src/pipeline/capture_pipeline.cpp:496-552 | from any filter state, torn or not, all later outputs meet that bound for all samples if and only if the state's estimate is in the sample range |
| `DcRace.CastsFitIff` | src/pipeline/capture_pipeline.cpp:511-546 | the conversion to int32 at 16 bits and to int64 at 32 bits never overflows, whatever the resets do; to int32 at 24 bits it is safe in all runs if and only if at most 293 torn resets go unrepaired |
| `DcRace.UndisturbedCastsFit` | src/pipeline/capture_pipeline.cpp:507-546 | without resets every conversion fits at every width, from any state whose estimate is in range, and the estimate stays there |
| `Dsp.DcChannels` | src/pipeline/capture_pipeline.cpp:505-514 | each channel's state depends on its own samples alone |
| `Dsp.DcOutput` | src/pipeline/capture_pipeline.cpp:505-514 | each interleaved output sample is its input minus the average of its own channel's past, quantised, from any filter state |
| `Dsp.DcEmitted` | src/pipeline/capture_pipeline.cpp:505-514 | the emitted sample has the sign of the sample minus its channel's average and is less than 1 from that toward zero while in range; otherwise it is the nearer limit |
| `Dsp.DcRecurrence` | src/pipeline/capture_pipeline.cpp:505-514 | without the average: the outputs before rounding are those of y = x - x' + 0.999 y' on each channel's own samples, started from the filter state, which ends with the last terms |
| `Dsp.FirstAfterReset` | src/pipeline/capture_pipeline.cpp:499-512 | the first sample of a channel after a reset is emitted unchanged |
| `Dsp.DcSplit` | src/pipeline/capture_pipeline.cpp:496-552 | cutting the input at a frame boundary changes neither output nor state |
| `Dsp.MixedCutsIff` | src/pipeline/capture_pipeline.cpp:171-189 | the downmixed samples do not depend on where the input is cut into whole frames if and only if there are two channels or no downmix |
| `Dsp.ChunkSplits` | src/pipeline/capture_pipeline.cpp:171-215 | then the whole callback does not either, in all four gain and DC branches |
| `Dsp.ChunkingIrrelevant` | src/pipeline/capture_pipeline.cpp:171-215 | a session's output and final state are those of one chunk holding all its input, however it was cut |
| `Dsp.SessionIsReference` | src/pipeline/capture_pipeline.cpp:171-215 | sample i of a session is the independent reference: downmix, gain, minus the channel's average continued from the filter state the session starts with |
| `Dsp.ChunkPlain` | src/pipeline/capture_pipeline.cpp:171-215 | one callback: every sample, or with the downmix every second one, times the gain, rounded toward zero and limited; with DC removal the recurrence over those, likewise |
| `Dsp.SessionPlain` | src/pipeline/capture_pipeline.cpp:171-215 | and a whole session is that of all its input, so for stereo downmixed output i is made of the left sample of frame i |
| `SampleLoops.LoadSample` | src/pipeline/capture_pipeline.cpp:518-524 | reads the two's complement sample at a byte offset, at every width |
| `SampleLoops.StoreSample` | src/pipeline/capture_pipeline.cpp:528-532 | overwrites exactly that sample's bytes |
| `SampleLoops.ApplyGain` | src/pipeline/capture_pipeline.cpp:345-433 | the scalar loop leaves the encoding of the amplified decoded source, and no other byte changed |
| `SampleLoops.ApplyDownmix` | src/pipeline/capture_pipeline.cpp:435-494 | the scalar loop leaves the encoding of every other sample |
| `SampleLoops.DcSample` | src/pipeline/capture_pipeline.cpp:507-512 | one filter step in place |
| `SampleLoops.ApplyDcRemove` | src/pipeline/capture_pipeline.cpp:496-552 | the nested in-place loops compute the filter over the decoded buffer, and its final state |
| `Vector.BatchEndIs` | src/pipeline/capture_pipeline.cpp:357 | `n & ~7u` is the whole batches of n modulo 2^32: never past n, so the tail makes up for larger counts |
| `Vector.GainVector16` | src/pipeline/capture_pipeline.cpp:352-374 | batches with nested saturation plus tail equal the scalar gain for every count |
| `Vector.DownmixVector` | src/pipeline/capture_pipeline.cpp:446-485 | deinterleaving batches plus tail equal the stride-2 copy, at 8 and at 4 lanes |
| `Vector.GainVector32` | src/pipeline/capture_pipeline.cpp:399-422 | the batches are the Q14 gain, the tail the scalar one |
| `Vector.ScaleQ14Is` | src/pipeline/capture_pipeline.cpp:401-414 | a batch result is the low 32 bits, signed, of v*q / 2^14 rounded down, q being gain * 2^14 rounded toward zero and limited to the register |
| `Vector.Q14Error` | src/pipeline/capture_pipeline.cpp:402-414 | before narrowing, and for gains the register holds, the two differ by at most abs(v)/2^14 + 1, and on which side |
| `Vector.Q14NarrowsIff` | src/pipeline/capture_pipeline.cpp:413-414 | for every gain and sample the result survives the narrowing if and only if -2^45 <= v*q < 2^45 |
| `Vector.Q14Failures` | src/pipeline/capture_pipeline.cpp:413-414 | an unsaturated sample fails only at a scalar result of -2^31, and then gives 2^31 - 1; one clipped by more than the error bound always fails |
| `Vector.Q14NearScalar` | src/pipeline/capture_pipeline.cpp:396-428 | every sample that survives, clipped or not, is within abs(v)/2^14 + 1 of the scalar result |
| `Vector.Q14NearIff` | src/pipeline/capture_pipeline.cpp:396-428 | where the scalar gain does not saturate, being within that bound and surviving the narrowing are the same |
| `Vector.SaturatingIsNear` | src/pipeline/capture_pipeline.cpp:410-414 | with the saturating narrow that the comment names every sample would be |
| `Vector.Q14WrapsClipped` | src/pipeline/capture_pipeline.cpp:413-414 | a clipped sample that comes out as 0 |
| `Vector.Q14FlipsSign` | src/pipeline/capture_pipeline.cpp:413-414 | a sample and gain where the result changes sign |
| `Vector.Q14OutOfRange` | src/pipeline/capture_pipeline.cpp:401-403 | past the gains the register holds the error bound fails |
| `Metering.Tail` | src/pipeline/capture_pipeline.cpp:267-272 | the scalar loop extends a running peak and sum of squares |
| `Metering.MeterScalar` | src/pipeline/capture_pipeline.cpp:274-279 | peak is the largest magnitude, sum the sum of squares, of samples or of their upper halves |
| `Metering.ShiftedIs` | src/pipeline/capture_pipeline.cpp:295-327 | at 32 bits the sample metered is the upper half, v / 2^16 rounded down |
| `Metering.PeakIs` | src/pipeline/capture_pipeline.cpp:274-279 | the peak is the least bound of all magnitudes |
| `Metering.SumIs` | src/pipeline/capture_pipeline.cpp:274-279 | the sum is additive over buffers, and v * v for one sample |
| `Metering.MeterVector16` | src/pipeline/capture_pipeline.cpp:238-272 | for every count the lanes do not overflow and the sum is the scalar one; the peak is that of the metered magnitudes |
| `Metering.MeterVector32` | src/pipeline/capture_pipeline.cpp:295-327 | equals the scalar loop for every count and sample |
| `Metering.PeakAgreesIff` | src/pipeline/capture_pipeline.cpp:244-246 | the stored 16-bit peak is the scalar one if and only if no -32768 lies in a batch or another sample is at full scale |
| `Pipeline.Initialize` | src/pipeline/capture_pipeline.cpp:41-106 | all consumers are new, apart, stopped and sized for the output channels, and the pipeline starts valid with balanced books |
| `Pipeline.Capture` | src/pipeline/capture_pipeline.cpp:41-140 | wiring, start, any periods with any turns of the recorder's writer between them (asleep, woken once the flush threshold is reached, or still draining), and stop: the closed files hold every kept period; if each turn makes room for a period they hold the whole history and, with stereo input at most where the downmix is on, sample for sample the reference output of all that was captured |
| `Pipeline.CapturePipeline.constructor` | src/pipeline/capture_pipeline.cpp:14-35 | filter state is zero for each output channel |
| `Pipeline.CapturePipeline.Transform` | src/pipeline/capture_pipeline.cpp:171-215 | whichever buffers the branches use, the output is the chunk function of the decoded period, and the source period is unchanged |
| `Pipeline.CapturePipeline.FanOut` | src/pipeline/capture_pipeline.cpp:217-228 | history and shared region get the same bytes, region byte i being output byte i as far as the period goes and unchanged behind it; the recorder all of them or none |
| `Pipeline.CapturePipeline.SharedIs` | src/sharing/sample_publisher.cpp:24-79 | that region is the bytes from 64 on, one period long |
| `Pipeline.CapturePipeline.Meter` | src/pipeline/capture_pipeline.cpp:230-339 | the level is the stored peak of the bytes sent out |
| `Pipeline.LevelIs` | src/pipeline/capture_pipeline.cpp:336-339 | it is at most 32767, bounds every sample metered unless it is 32767, and some sample reaches it |
| `Pipeline.CapturePipeline.OnAudioChunk` | src/pipeline/capture_pipeline.cpp:171-343 | one period: filter state, history, recorder, shared region, level and frame count afterwards |
| `Pipeline.CapturePipeline.Captured` | src/pipeline/capture_pipeline.cpp:98-102 | over any run of periods the history is all chunks, the recorder's stream the same without whole dropped periods, and the history since the settings changed the session's output |
| `Pipeline.CapturePipeline.CaptureAll` | src/pipeline/capture_pipeline.cpp:98-102 | a run of periods with such turns enters each of them in the books, and drops none for which its turn made room |
| `Pipeline.CapturePipeline.RoomAfterIs` | src/capture/block_recorder.cpp:83-116 | a turn makes room if the writer empties the ring that is at least one period, or has woken and the period fits above the threshold |
| `Pipeline.CapturePipeline.OutputSize` | src/pipeline/capture_pipeline.cpp:189 | a period's output is as many frames as the period |
| `Pipeline.CapturePipeline.SetGain` | src/pipeline/capture_pipeline.cpp:149-156 | later periods use the gain; filter state and history stay |
| `Pipeline.CapturePipeline.SetDcRemove` | src/pipeline/capture_pipeline.cpp:157-166 | switching off makes every channel's filter state 0, switching on keeps it |
| `Pipeline.CapturePipeline.Start` | src/pipeline/capture_pipeline.cpp:108-128 | starts the recorder once |
| `Pipeline.CapturePipeline.Stop` | src/pipeline/capture_pipeline.cpp:130-140 | after the join the closed files hold every kept period, and the whole history if none was dropped |
| `Pipeline.CapturePipeline.HistoryIsReference` | src/pipeline/capture_pipeline.cpp:171-223 | decoded sample i of the history since the settings changed is the reference output, continued from the filter state at that change, however the input was cut |
| `Pipeline.CapturePipeline.HistoryPlain` | src/pipeline/capture_pipeline.cpp:171-223 | and in plain terms: those samples are all captured samples, or left ones, times the gain, rounded and limited; with DC removal the recurrence over them |
| `Pipeline.CapturePipeline.FiledReference` | src/pipeline/capture_pipeline.cpp:171-223 | and so are the files, sample for sample, when nothing was dropped |
| `Pipeline.CapturePipeline.ClipMatchesArchive` | src/pipeline/capture_pipeline.cpp:217-223 | with no drop, `read(0, n)` is the tail of file contents plus buffered and unread bytes |
| `Clips.ClipExtractor.ExtractClip` | src/capture/clip_extractor.cpp:104-137 | the newest frames, as many as asked for and held, unpacked as for the files; nothing for an empty range or an empty buffer |
| `Clips.ClipExtractor.RequestClip` | src/capture/clip_extractor.cpp:38-54 | fresh id, request at the end of the queue |
| `Clips.ClipExtractor.TakeResult` | src/capture/clip_extractor.cpp:65-69 | the caller's own result, erased, or nothing |
| `Clips.ClipExtractor.ServeQueue` | src/capture/clip_extractor.cpp:75-99 | empties the queue front to back into the results |
| `Clips.ClipExtractor.ServedIs` | src/capture/clip_extractor.cpp:83-97 | each queued request gets its own clip under its own id, no earlier result changes, and nothing else gets one |
| `Clips.ClipExtractor.ClipOfHistory` | src/capture/clip_extractor.cpp:104-137 | at any head the file of a clip holds the samples of the newest frames of history, by absolute position |
| `Clips.ClipExtractor.ClipPlain` | src/capture/clip_extractor.cpp:104-137 | a range of end - start > 0 seconds gives exactly the last min((end - start) * rate, frames written, capacity) frames of the history, and there is no clip exactly for an empty range or an empty history |
| `Clips.ClipExtractor.PastRequestEndsNow` | src/capture/clip_extractor.cpp:105-122 | for a range that ends in the past the file holds frames that are -end * rate too late |
| `Clips.ClipExactIff` | src/capture/clip_extractor.cpp:111-128 | whatever was recorded, the clip read at any head is exactly the requested frames of history if and only if the head has advanced by the end offset since the request and the range is still held |
| `Clips.ClipMoved` | src/capture/clip_extractor.cpp:111-128 | held in full, it is the requested range moved by as much as the head is past the end of that range |
| `Clips.ClipCut` | src/capture/clip_extractor.cpp:118-133 | with the head advanced as asked, a range reaching back too far is cut to the frames still held |
| `Clips.PastRangeIsMissed` | src/capture/clip_extractor.cpp:105-122 | with a negative end offset, read at the request's own head, the clip is the requested range moved by -end * rate, and not the requested one for every history |
| `Clips.ClipWindow` | src/capture/clip_extractor.cpp:118-133 | what the extractor reads from the buffer is that clip of the buffer's history |
| `ClipRace.ClipExactIff` | src/capture/clip_extractor.cpp:118-128 | with the capture thread writing meanwhile: a clip whose cursor was loaded when the head had advanced by the end offset is made of exactly the requested bytes if and only if the range was held and no byte of it was overtaken before it was copied |
| `ClipRace.QuietClipIsExact` | src/capture/clip_extractor.cpp:118-128 | so it is exact if until the end of the copy the writer stays within one buffer of its start |
| `ClipProtocol.NextInv` | src/capture/clip_extractor.cpp:21-102 | every step of callers, worker and stopping thread keeps the protocol's invariant |
| `ClipProtocol.OnePlace` | src/capture/clip_extractor.cpp:38-99 | every id is in exactly one of drawn, queued, in work, posted, consumed |
| `ClipProtocol.OwnPath` | src/capture/clip_extractor.cpp:56-70 | a synchronous caller gets its own request's path or the empty one, never another's, and no result is handed out twice |
| `ClipProtocol.ReturnsOwnPathIff` | src/capture/clip_extractor.cpp:56-70 | whenever a caller may return: it gets, and consumes, the path extracted for its id if and only if the result is posted; otherwise it gets the empty path and the service was stopped; while the service runs it always gets its path |
| `ClipProtocol.EmptyReturnIff` | src/capture/clip_extractor.cpp:60-66 | it finds no result if and only if its request is still queued or in work |
| `ClipProtocol.NoStuckCaller` | src/capture/clip_extractor.cpp:60-63 | a waiting caller may return, or a live worker has its request; once the worker has exited all may return, in every interleaving of any number of start/stop cycles |
| `ClipProtocol.ExitServesAll` | src/capture/clip_extractor.cpp:79-82 | the worker exits only after extracting every request pushed by then |
| `ClipProtocol.EmptyPathMayHideClip` | src/capture/clip_extractor.cpp:61-66 | a run in which a caller gets the empty path and its clip is saved nevertheless |
| `Publisher.HeaderReadsBack` | src/sharing/sample_publisher.cpp:53-59 | a reader at the documented offsets recovers every field |
| `Publisher.HeaderBytes` | src/sharing/sample_publisher.cpp:53-59 | the header byte by byte: magic, then each field's digits to base 256, low byte first, then zeros up to byte 64 |
| `Publisher.FormatSizes` | src/sharing/sample_publisher.cpp:24-26 | a frame is channels * bits / 8 bytes, the region one period of frames |
| `Publisher.SamplePublisher.Initialize` | src/sharing/sample_publisher.cpp:53-59 | the region starts with the header, counter and timestamp 0; the sample bytes are untouched |
| `Publisher.SamplePublisher.Publish` | src/sharing/sample_publisher.cpp:66-82 | region byte 64 + i becomes data byte i up to the smaller of the period and the region and stays as it was behind; the counter goes up by 1 modulo 2^64 and is stored with the timestamp; the constant fields are kept |
| `Publisher.OverlaidAt` | src/sharing/sample_publisher.cpp:75-79 | the region is the period's bytes as far as they go, then its own; a full period replaces all of it |
| `PublisherRace.NextInv` | src/sharing/sample_publisher.cpp:66-82 | every byte-level step of publisher and reader keeps each cell from the newest publication that has stored it |
| `PublisherRace.Freshness` | src/sharing/sample_publisher.cpp:74-81 | in every interleaving, short periods included, each byte read is from the newest publication that had stored it, none older than the counter seen, and from the one seen if and only if that one reaches the byte and no later one had stored it when it was read |
| `PublisherRace.ExactWhileNewest` | src/sharing/sample_publisher.cpp:74-81 | with no later publication begun what was read of the one seen is exact |
| `PublisherRace.StoresInBounds` | src/sharing/sample_publisher.cpp:75-79 | no byte of a publication lies outside the region |
| `PublisherRace.FullPeriods` | src/sharing/sample_publisher.cpp:74-81 | with full periods byte j is of the period seen if and only if no later one was finished, nor one in progress past j, when it was read; a completed copy with none begun since is exactly the period seen |
| `PublisherRace.CountersMonotone` | examples/audiod-mon.cpp:327-335 | the counters a reader accepts never go back |
| `PublisherRace.MixedCopy` | src/sharing/sample_publisher.cpp:78-79 | for regions of any size from two bytes on, a run whose completed copy joins the first byte of one period to the rest of the next |
| `PublisherRace.TornCounterIff` | src/sharing/sample_publisher.cpp:81 | copied byte by byte, the counter would show only old and new values if and only if its low byte does not carry |

## Left out

- ALSA set-up, overrun recovery, thread priorities: a run is any sequence of periods.
- File names, libsndfile formats and errors on write: a file is the sequence of integers handed to the library.
- The timestamp clock, `shm_open`, `ftruncate`, `mmap` and cleanup: the region is one byte array, timestamps are arguments.
- The control socket, JSON, configuration and command-line parsing, logging, the terminal monitor's display and the Python client: they move no samples.
- Float rounding, `pow`, `sqrt` and `log10`: gain is a real number, metering stops at peak and integer sum of squares, and nothing relates levels across bit depths.
- Weak memory: steps are sequentially consistent.
- Progress of `notify_one`: a wait whose condition holds is an enabled step, whether it is taken is not modelled.
- Wrap-around of the frame, block, publication-history and request-id counters: only cursors, the history total and the shared counter wrap at 64 bits; the others are unbounded.
- `History.RingBuffer.AvailableFrames`: the history total wraps at 2^64 frames and then restarts from 0, as in the code; what is readable is stated in terms of the wrapped total.
- `Recorder.BlockRecorder`: one thread at a time over the arrays; `RecorderSolo` ties each of its methods to a run of the state machine in which that thread moves alone, and the interleavings are proved on the machine only.
- `Pipeline.CapturePipeline`: recorder and publisher are always present; when disabled, the code skips the one call. The NEON build's loops are related to the scalar ones in `Vector` and `Metering`, not called from the pipeline.
- `Clips.ClipExtractor.ExtractClip`: the sleep before the read belongs to the caller, and 32-bit overflow of `end_offset - start_offset` is not modelled.
- `SampleLoops.ApplyGain`: the product is truncated to an unbounded integer; where it does not fit the type the code converts it to, which `Dsp.GainCastsIff` delimits, the code's result is undefined and the model's is not.
- `Vector.GainVector16`: the scalar tail likewise; the vector conversion saturates, so the two loops agree in C++ for the gains that `Dsp.GainCastsIff` gives.
- `SampleLoops.ApplyDcRemove`: likewise for outputs past the integer type, which `DcRace.UndisturbedCastsFit` and `DcRace.CastsFitIff` show only torn resets can cause.
- `DcRace.NextInv`: one control thread resets at a time, and a reset may come at any point of the filter loop; the flag that starts a reset is not a step of its own.
- `Pipeline.Capture`: the writer's turns fall between periods, and a drain is not cut short; finer interleavings are the subject of `RecorderProtocol`.
- Restarting a stopped recorder: `RecorderProtocol` models one start and one stop. After a restart, which the code allows, the bytes of a late push would come first in the next file.
