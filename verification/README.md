# RSound in Dafny

RSound streams PCM audio from a client library to a server over one data socket and one control socket. This project
models the parts where the two ends, two threads or two data layouts have to agree, and proves what they promise each
other. `dafny verify dfyconfig.toml` checks everything.

## The parts

**Streaming engine** (`Engine`, `EngineSafety`, `EngineProgress`, `EngineTheorems`, `EngineWaits`, `EngineSleep`,
`Fifo`). The application thread (`rsd_write`, `rsd_exec`, `rsd_stop`), the worker (`rsnd_thread`), the data socket and
the draining server are one labelled transition system: a program counter per thread, `cond_mutex` as a lock, the
condition variable as a sleeping state that a signal may or may not find, sockets that take and give pieces of any
size. One invariant carries the stream theorem; one measure that every internal step decreases carries termination under
every schedule, without any fairness assumption. The FIFO of the engine is a byte sequence; `Fifo.RingBuffer` is the ring that
implements it, with its two split copies, and its contract is the append and remove the engine uses.

**Resampler** (`ResamplerMath`, `ResamplerRuns`, `Resampler`, `SampleClip`). Floats and the ratio are exact reals.
`ResamplerRuns.Session` says what any sequence of reads returns from the stream the callback delivered; the class
`Resampler.Resampler` has the source's loops over its array and is proved to return exactly the next frames of that
session. Exactness, overshoot and independence of the split are theorems about sessions.

**Sample converter** (`Formats`, `G711`, `Converter`, `ConverterCorrect`, `ConverterTheorems`, `ConverterScratch`,
`ConverterInPlace`). `Formats.Meaning` gives the number a stored sample stands for. `ConverterInPlace.AudioConverter`
has the in-place loops, leaves `Converter.Pipeline` in the buffer and makes floats of it where the mask says so;
`ConverterTheorems` shows that under the masks the server builds the pipeline is the sample-by-sample reference for all
twelve formats on hosts of either byte order. `ConverterScratch` says how far the loops reach. The two G.711 tables are
compared with the segment formulas of section 3 of ITU-T G.711.

**Latency** (`Latency`). The truncating clock arithmetic, the sleep of `rsd_delay_wait` and the clamped correction.

**Wire formats** (`WavHeader`, `Text`, `Control`, `ControlRoundTrip`, `Replies`). The 44-byte header and the control
frames, printer at one end and parser at the other, composed into round trips.

**JACK rings** (`JackWords`, `Jack`, `JackCallback`, `JackProgress`, `JackChunks`). The per-channel writes and the audio
callback as a transition system over one ring of bytes a channel, for blocks of any length: a block that ends within a
frame fills rows of its whole frames, and the count of each write still has its share of the broken one.

## What came out

- *A wake-up can be lost.* The signal after a write (`rsnd_fill_buffer`, line 907) is sent without `cond_mutex`. When it
  falls between the worker's failed test of the FIFO and its wait, everything in the FIFO stays there until the next
  call; otherwise every whole chunk is taken. `EngineWaits.ChunkLeftBehindIff` gives the exact condition,
  `ChunkLeftBehindHappens` a run. A write that leaves less than a chunk in all is never affected
  (`SmallWriteLeavesLess`); from rest, the next non-empty write drains the backlog and an empty one does not
  (`NextWriteDrains`).
- *A writer can oversleep, too.* `rsnd_fill_buffer` tests the room, and only then takes `cond_mutex` and waits; the
  signal after a chunk (line 1267) is sent without it. When it falls between, the writer sleeps although its piece fits
  (`EngineSleep.OversleepHappens`). It does so exactly when, as it releases the lock, its piece fits and no signal is due
  any more, and until the next chunk is taken (`OversleepsIff`); every oversleeping state comes about that way
  (`OversleepsSince`). Otherwise the worker is on its way to the signal as soon as there is room, and no sleep lasts
  through a second chunk (`SleepLastsOneTake`).
- *The write limit can be zero*: exactly for a chunk of one byte and a buffer of two. Then a non-empty `rsd_write`
  stores nothing and stops the stream.
- *JACK plays the wrong samples with 3, 5, 6 and 7 channels.* The driver asks for chunks of 512 bytes whatever the
  frame size. When a block ends within a frame, its last samples are dropped and a write may run past its row, by up to
  three bytes, into the next one or behind the array. Over all contents of blocks of n samples, every sample reaches
  its port or ring exactly when n is a whole number of frames (`JackChunks.CompleteIff`); the samples played are the
  right ones exactly then, or when a block is less than a quarter of a frame and nothing is ever played
  (`HeardRightIff`). A write stays inside its row exactly when the broken frame is less than a quarter
  (`JackWords.RowWriteInsideIff`). `SixChannels` is a run, `DefaultChunkRightIff` names the channel counts.
- *The converter's scratch buffer can be too small.* It has twice the input's bytes (`ConverterScratch.ScratchInsideIff`
  for every mask that fits its format, float bits included). Writes leave it exactly when a non-empty buffer of one-byte
  samples is widened and then made floats, as the JACK driver asks for its one-byte formats (`JackInsideIff`, one sample
  in `OneByteWritesOutside`). Reads leave it in these cases and when 32-bit samples are narrowed: `s32_to_s16` gets the
  byte count where it wants samples. The server's 16-bit masks do so for all four 32-bit formats (`ToS16InsideIff`, one
  sample in `OneSampleReadsOutside`). What narrowing reads outside does not change the result (`AudioConverter`).
- *The resampler may ask for two frames and read three.* The stencil at the window start reads frames 0, 1 and 2. After
  the refill a read stays inside the buffered frames exactly when it is empty, advances the input by a frame, or finds
  three frames there (`ResamplerRuns.ReadInsideIff`); `Resampler.ShortReadLeavesBuffer` is a read that does not. Whatever
  the callback delivers, a read stays inside exactly when it is empty, advances the input, or three frames are there
  before it (`Resampler.AnyCallbackIff`). Reads of at least `ratio` output frames are always safe, but the source does
  not check.
- *Integers lose one going through float below zero*: 16-bit samples survive the way to float and back exactly from 0 to
  0x7FFE.
- *The latency correction runs away from a negative measurement*: the reported delay reaches the measurement if and only
  if the measurement is not negative.
- *The server plays whole chunks of its own size*: what is left at the end of a stream is received and not played.
- *A negative measurement is accepted*: the server answers later than the client counted.
- *IDENTITY frames* arrive exactly for names of at most 236 bytes that contain none of `NULL`, `STOP` and `INFO `. The
  frame of a longer name announces up to eight bytes more than it holds and swallows them from the next frame.
- *A control frame can announce a body its receiver has no room for.* The server refuses lengths over 256 but not
  negative ones, the client neither: a body stays in the 257-byte array, whatever is sent, exactly for lengths that are
  not negative at the server and from 0 to 257 at the client. `RSD   -1` and `RSD 9999` are frames that do not.
- *A JACK write waits for ever*, whatever callbacks come, exactly when its bytes do not fit a ring beside the bytes of
  an incomplete sample that earlier writes left there.
- *A reply without its server pointer is read with its own length in that place*: the client receives the body over the
  header and does not clear what a shorter one leaves (`Replies.ShortReplyReadsItsLength`).
- *Channel counts* come back from the header exactly below 65536.

## Model

| member | source | states |
|---|---|---|
| `Fifo.RingBuffer.constructor` | src/librsound/buffer.c:26-41 | a new ring holds nothing and has room for the size asked for |
| `Fifo.RingBuffer.ReadAvail` | src/librsound/buffer.c:52-62 | the answer is the number of bytes in the queue |
| `Fifo.RingBuffer.WriteAvail` | src/librsound/buffer.c:64-75 | room and fill add up to the size |
| `Fifo.RingBuffer.Write` | src/librsound/buffer.c:77-97 | the queue grows by exactly the bytes given, in order, both copies included; the indices stay inside |
| `Fifo.RingBuffer.Read` | src/librsound/buffer.c:100-120 | exactly the oldest bytes leave the queue and land at the front of the output, whose rest is untouched |
| `Fifo.StoredAppends` | src/librsound/buffer.c:84-96 | storing with one or two copies and moving `end` modulo the size appends, wherever the ring wraps |
| `Fifo.LoadedIsOldest` | src/librsound/buffer.c:107-119 | loading with one or two copies and moving `first` removes the oldest bytes |
| `EngineTheorems.ClampsGiveValidConfig` | src/librsound/librsound.c:546-552 | after the clamps chunk and buffer size satisfy what the engine needs; sane values are kept, a senseless chunk becomes 1024 bytes and a buffer below two chunks becomes 32 |
| `EngineTheorems.WriteLimitZeroIff` | src/librsound/librsound.c:1435 | the largest piece of a write is empty exactly for chunk 1 and buffer 2 |
| `EngineSafety.StepPreservesInv` | src/librsound/librsound.c:1194-1299 | every step of application, worker, socket or server keeps the whole-system invariant |
| `EngineSafety.ReachableInv` | src/librsound/librsound.c:872-956 | the invariant holds in every reachable state |
| `EngineTheorems.StreamSafety` | src/librsound/librsound.c:1226-1264 | in every reachable state the accepted bytes are, in order, those played, held by the server, on the wire, unsent and in the FIFO; the socket carried the header and a prefix of them; the written counter is whole chunks and accounts for all but the chunk in flight and the FIFO |
| `EngineTheorems.FifoAssertionsHold` | src/librsound/buffer.c:82-105 | the two assertions of the ring never fire, in any interleaving |
| `EngineProgress.InternalStepDecreases` | src/librsound/librsound.c:872-910 | every step taken without a new call or a spurious wake-up decreases the measure, waiting steps included |
| `EngineProgress.RunIsBounded` | src/librsound/librsound.c:1194-1299 | under any schedule the system comes to rest within a bound set by the work left and the number of spurious wake-ups |
| `EngineProgress.QuiescentIffAtRest` | src/librsound/librsound.c:1273-1290 | nothing can move exactly when the application is outside the library or finished, the worker parked and the wire empty: no deadlock |
| `EngineProgress.NeverBothAsleep` | src/librsound/librsound.c:891-897 | writer and worker never sleep on the condition variable together |
| `EngineTheorems.WriteCompletes` | src/librsound/librsound.c:1426-1455 | under a nonzero limit `rsd_write` returns after boundedly many steps of any schedule, having stored exactly its argument |
| `EngineTheorems.WriteInPieces` | src/librsound/librsound.c:1435-1454 | all pieces of a write are as large as its limit but the last: k stores leave what k limits leave, and a finished write took the fewest |
| `EngineTheorems.ZeroLimitStopsStream` | src/librsound/librsound.c:1447-1451 | under a zero limit a non-empty write stores nothing and ends with the worker joined and the stream stopped |
| `EngineTheorems.StopCompletes` | src/librsound/librsound.c:932-956 | `rsd_stop` and `rsd_exec` never hang: the worker exits and the join returns under every schedule; a finished exec has carried the header and every accepted byte, a finished stop has cleared the counter |
| `EngineTheorems.ExecDoneCarriesAll` | src/librsound/librsound.c:1496-1536 | nothing is dropped between the worker's read and its send, and the rest of the FIFO is flushed |
| `EngineTheorems.ServerPlaysWholeChunks` | src/rsound-common.c:1289-1305 | once nothing moves the server holds exactly the remainder of the stream by its chunk size, unplayed |
| `EngineWaits.WriteMayWaitIff` | src/librsound/librsound.c:1645-1651 | some schedule makes a write wait exactly when it is longer than `rsd_get_avail` answers |
| `EngineSleep.BlockedWriterReleased` | src/librsound/librsound.c:883-897 | a writer that has not stored its piece has room for it after at most the piece divided by the chunk size, rounded up, chunks were taken; until then the FIFO holds a whole chunk. In its sleep at most one is taken, and once that makes room the worker is on its way to the signal |
| `EngineSleep.SleepLastsOneTake` | src/librsound/librsound.c:1225-1267 | along every run through which the writer sleeps the worker takes at most one chunk, and none when a signal was due at its start; after a take a signal is due |
| `EngineSleep.OversleepsIff` | src/librsound/librsound.c:883-897 | at any moment of a sleep the piece fits with no signal due exactly when that was so as the lock was released, and no chunk was taken since |
| `EngineSleep.OversleepsSince` | src/librsound/librsound.c:891-895 | in every run from the start a writer asleep with room and no signal due has been so since it released the lock |
| `EngineSleep.OversleepHappens` | src/librsound/librsound.c:1266-1267 | such a state is reachable: the signal for a chunk is sent between the writer's test and its wait |
| `EngineWaits.StopTakesNoMore` | src/librsound/librsound.c:1224-1226 | once `thread_active` is cleared the worker takes no chunk, but for one it was about to read |
| `EngineWaits.ChunkLeftBehindIff` | src/librsound/librsound.c:900-907 | after the last signal of a write the whole FIFO stays behind at rest exactly when the signal found the worker between its test and its wait; otherwise the remainder by the chunk size does |
| `EngineWaits.SmallWriteLeavesLess` | src/librsound/librsound.c:1219 | a write that brings the FIFO to less than a chunk never leaves a whole one behind |
| `EngineWaits.NextWriteDrains` | src/librsound/librsound.c:900-907 | from rest, a non-empty write that fits in one piece ends with every whole chunk taken, older ones included; an empty write changes nothing |
| `EngineWaits.ChunkLeftBehindHappens` | src/librsound/librsound.c:1273-1290 | a reachable run that leaves an accepted chunk unsent with nothing able to move |
| `ResamplerMath.QuadraticAtNodes` | src/resampler.c:117-122 | the polynomial passes through its three samples |
| `ResamplerMath.QuadraticReproduces` | src/resampler.c:117-122 | through samples of a polynomial of degree at most two it is that polynomial, at every position |
| `ResamplerMath.Overshoot` | src/resampler.c:156-173 | in both stencils an output is at most 5/4 of the bound of its inputs |
| `ResamplerMath.OvershootAttained` | src/resampler.c:156-173 | and reaches 5/4 in both |
| `ResamplerRuns.StencilShape` | src/resampler.c:156-169 | both branches are the polynomial through three consecutive frames, evaluated at the absolute position |
| `ResamplerRuns.RequestSufficesIff` | src/resampler.c:107-115 | the frames asked for, apart from any surplus, cover every index of a read exactly when the read advances the input |
| `ResamplerRuns.ReadInsideIff` | src/resampler.c:145-169 | with the frames asked for in the buffer, every index of a read is below the frames buffered exactly when the read is empty, advances the input, or finds three frames |
| `ResamplerRuns.LongReadsAreSafe` | src/resampler.c:107-115 | reads of at least `ratio` output frames are covered |
| `ResamplerRuns.ExactOnQuadratics` | src/resampler.c:145-173 | an output frame over quadratic channels is exact, wherever the window starts |
| `ResamplerRuns.ExactAtFrames` | src/resampler.c:145-173 | where the output position is an input frame number, the output is that frame |
| `ResamplerRuns.SessionExact` | src/resampler.c:180-245 | every output of any sequence of reads over quadratic channels is exact |
| `ResamplerRuns.SplitIndependentOnQuadratics` | src/resampler.c:180-245 | so two ways to split the same total into reads return the same frames |
| `ResamplerRuns.SessionAtFrames` | src/resampler.c:180-245 | on any input, in any session, a position on an input frame returns it |
| `ResamplerRuns.UnitRatioIsIdentity` | src/resampler.c:180-245 | ratio 1 returns the input for every split |
| `ResamplerRuns.SessionBounded` | src/resampler.c:142-177 | no session overshoots a bounded input by more than a quarter |
| `Resampler.ShortReadLeavesBuffer` | src/resampler.c:107-160 | at ratio 2 with a callback of single frames, a read of one frame has two frames buffered and reads the third |
| `Resampler.FrameSource.Pull` | src/resampler.c:202-205 | the callback hands out whole frames, in order, any number up to its limit |
| `Resampler.Resampler.RequiredFrames` | src/resampler.c:107-115 | the answer is what is missing up to two frames past the position after the read |
| `Resampler.Resampler.Interpolate` | src/resampler.c:152-173 | computed from the buffer, the sample is the one the absolute position defines on the stream |
| `Resampler.Resampler.Process` | src/resampler.c:124-178 | all indices are inside the buffer, the output is the session's next frames interleaved, and the frames used keep the counters free of drift |
| `Resampler.Resampler.Refill` | src/resampler.c:186-234 | the buffer grows by the fewest callback blocks that make up the missing frames; it fails exactly when the blocks before the first empty one do not, and then those blocks are used up and the buffer is as it was |
| `Resampler.Resampler.ServesIff` | src/resampler.c:145-234 | the condition of a read is exact: the refill fails, or every frame the stencils use is buffered |
| `Resampler.AnyCallbackIff` | src/resampler.c:190-234 | whatever blocks the callback delivers, no index of a read leaves the buffer: exactly for an empty read, one that advances the input, or three frames buffered before it |
| `Resampler.Resampler.Drop` | src/resampler.c:239-241 | the memmove slides the window forward by the frames used |
| `Resampler.Resampler.CbRead` | src/resampler.c:180-245 | every read whose indices stay in the buffer returns exactly the next frames of the session and keeps window, drift-free counters and the memory bound. It answers -1 exactly when the callback's blocks up to the first empty one have fewer frames than are missing, and then changes nothing but the callback; otherwise it consumes the shortest prefix of blocks that has them, and the frames buffered grow by theirs |
| `Resampler.ReadAhead` | src/resampler.c:186-242 | once filled, the buffer serves the read, the session goes on, and what stays is bounded |
| `Resampler.BufferBound` | src/resampler.c:186-242 | at most one callback block and 1 + ceil(1/ratio) frames stay buffered, for ever |
| `SampleClip.FloatToInteger` | src/resampler.c:67-93 | every sample becomes the clip value from half a step before either end on; in between, the nearest integer if it is above -1/2 and the one 1/2 to 3/2 above it otherwise; nothing behind them is written |
| `SampleClip.OneResult` | src/resampler.c:67-79 | these ranges leave one integer for every sample |
| `SampleClip.ToIntegerMonotone` | src/resampler.c:67-79 | rounding and clipping keep order |
| `SampleClip.ToIntegerError` | src/resampler.c:71-77 | an unclipped sample moves down by at most 1/2 and up by less than 3/2 |
| `SampleClip.IntegerSurvivesIff` | src/resampler.c:71-77 | an integer survives exactly from zero to the upper clip; negative ones come back one higher |
| `SampleClip.ResampledS16FitsTemp` | src/resampler.c:71 | resampled 16-bit input stays far inside the 32-bit intermediate |
| `G711.AlawTableIsG711` | src/audio.c:55-88 | the A-law table is the segment formula of the standard for all 256 codes |
| `G711.MulawTableIsG711` | src/audio.c:20-53 | the mu-law table likewise |
| `G711.FlipEvenInverts` | src/audio.c:55-88 | the A-law code's alternate bits are inverted, and inverting them twice restores it |
| `Formats.Get32Put32` | src/audio.h:48-63 | a word stored in either byte order reads back |
| `Formats.WordValue` | src/audio.c:149-163 | a little-endian word is the sum of its bytes, each 256 times the one before; a big-endian one that of the bytes in reverse |
| `Formats.ScaleKept` | src/audio.c:220-247 | between 8, 16 and 32 bits a sample stays the same part of full scale, rounded down |
| `Formats.Ref16Meaning` | src/audio.c:424-472 | the reference conversion reads back as the number the sample stood for, on a 16-bit scale |
| `ConverterCorrect.FlipIsNative` | src/audio.c:280-374 | byte swap and sign flip bring every linear sample to the host's signed form, the modulo-2^32 case included |
| `ConverterCorrect.S32MaskBits` | src/audio.c:474-502 | a 32-bit mask exists exactly for the four-byte formats and does only flips and swaps |
| `ConverterTheorems.ToS16IsReference` | src/audio.c:249-408 | under the 16-bit mask the pipeline is the reference, sample by sample, for all twelve formats, both hosts and any buffer |
| `ConverterTheorems.ToS16Decodes` | src/audio.c:424-472 | as many 16-bit words come out as samples went in, in order, and the host reads each as the number it stood for |
| `ConverterTheorems.ToS32IsReference` | src/audio.c:249-408 | the same for the 32-bit mask |
| `ConverterTheorems.ToS32Decodes` | src/audio.c:474-502 | length kept, every word read as the number it stood for |
| `ConverterTheorems.FlipsUndoEachOther` | src/audio.c:300-374 | signed-to-unsigned and unsigned-to-signed on the counterpart format restore any buffer |
| `ConverterTheorems.FlippedSamplesKeepMeaning` | src/audio.c:390-405 | without a swap request a flipped sample is the same number in the counterpart format, in the byte order it was stored in |
| `Converter.MapFusion` | src/audio.c:249-408 | two in-place passes are one pass with the composed sample function |
| `Converter.MapAt` | src/audio.c:249-408 | sample i of a pass comes from sample i and nothing else |
| `ConverterInPlace.EachInPlace` | src/audio.c:149-163 | a loop that rewrites samples where they are computes the pass |
| `ConverterInPlace.WidenInPlace` | src/audio.c:194-232 | the backward loop reads every byte before it is overwritten and doubles the data |
| `ConverterInPlace.BackwardInPlace` | src/audio.c:165-232 | a loop from the last sample down, doubling or keeping the size, reads every byte before it is overwritten and computes the pass |
| `ConverterInPlace.NarrowInPlace` | src/audio.c:234-247 | the forward loop halves the data although input and output overlap, reading four bytes a sample of the array and of what lies behind it, and writing two |
| `ConverterInPlace.ToFloat` | src/audio.c:410-419 | the float stage: 16-bit samples doubled in size, 32-bit ones where they are, each by the same function of its bytes |
| `ConverterInPlace.AudioConverter` | src/audio.c:249-422 | with a scratch buffer of the source's size the data ends up as the pipeline's result, in floats where the mask says so, whatever lies behind the scratch buffer; the rest of the data is untouched; how far the loops reach into the scratch buffer is accounted for |
| `ConverterInPlace.JackFloats` | src/drivers/jack.c:85-94 | under the masks of the JACK driver formats of two and four bytes become floats sample by sample, each the conversion of its reference word |
| `ConverterScratch.ScratchInsideIff` | src/audio.c:249-422 | for every fitting mask and float bit: writes stay inside the scratch buffer exactly when no widened samples become floats or the buffer is empty; reads do exactly when, besides, nothing is narrowed |
| `ConverterScratch.NarrowIndices` | src/audio.c:234-247 | the words the narrowing loop reads leave a buffer of twice its count exactly when the count is not zero, those it writes never do |
| `ConverterScratch.ToS16InsideIff` | src/audio.c:384 | among the server's masks the 32-bit formats are the ones that read outside, on either host |
| `ConverterScratch.OneSampleReadsOutside` | src/audio.c:384 | one 32-bit sample: eight bytes of scratch, sixteen read |
| `ConverterScratch.JackInsideIff` | src/drivers/jack.c:85-94 | under the JACK driver's masks reads and writes stay inside exactly for formats of two and four bytes, or an empty buffer |
| `ConverterScratch.OneByteWritesOutside` | src/audio.c:410-414 | one unsigned byte on its way to JACK: two bytes of scratch, more written |
| `Latency.ConsumedWithinOneByte` | src/librsound/librsound.c:837-844 | the count of played bytes is elapsed time times rate rounded by less than a byte, down or up by the sign of the sub-second difference |
| `Latency.ConsumedIsMonotone` | src/librsound/librsound.c:837-844 | it never runs backward, across second boundaries too |
| `Latency.SleepIsCounted` | src/librsound/librsound.c:837-844 | a sleep is counted in full, less at most two bytes |
| `Latency.WaitBoundsLatency` | src/librsound/librsound.c:1610-1632 | after the sleep the latency is at most one millisecond over the maximum from 2000 bytes a second on, and at most 1 + 1999/rate over it at any rate |
| `Latency.DelayAfterWait` | src/librsound/librsound.c:1610-1632 | the same on the client's state; before the first send the sleep changes nothing |
| `Latency.Estimator.Drain` | src/librsound/librsound.c:823-868 | the buffered bytes are those written and queued less those played, or those queued before the first send |
| `Latency.Estimator.GetDelay` | src/librsound/librsound.c:959-978 | the delay is buffer, backend latency and correction, never negative |
| `Latency.Estimator.DelayWait` | src/librsound/librsound.c:1610-1632 | the sleep is the excess over the maximum, none when no maximum is set |
| `Latency.Estimator.UpdateServerInfo` | src/librsound/librsound.c:1158-1185 | a reply with positive pointers whose client pointer is behind by less than four chunks moves the offset by what the measurement misses, a chunk at most; any other leaves it |
| `Latency.Estimator.ChunkSent` | src/librsound/librsound.c:1248-1264 | the first send starts the clock; a later one leaves the estimate as it was |
| `Latency.ErrorNeverGrows` | src/librsound/librsound.c:1171-1180 | against a target that is not negative no number of updates increases the reported error |
| `Latency.CorrectionConverges` | src/librsound/librsound.c:1171-1180 | k updates close k chunks of the distance and never overshoot |
| `Latency.CorrectionRunsAway` | src/librsound/librsound.c:1171-1180 | against a negative target every update lowers the offset further |
| `Latency.NegativeMeasurementAccepted` | src/librsound/librsound.c:1158-1169 | an accepted reply can measure a negative distance, at any chunk size |
| `Latency.CorrectionSettlesIff` | src/librsound/librsound.c:1171-1180 | repeated updates reach the target exactly when it is not negative |
| `Latency.SettledDelayNearBacklog` | src/librsound/librsound.c:1158-1183 | the settled delay is short of the true backlog by more than zero and less than four chunks |
| `WavHeader.WriteHeader` | src/librsound/librsound.c:373-506 | on a host of either byte order the 44 bytes say, by offset: the four words, chunk size 16, the tag of the format as set, channels, rate, a byte rate that is the sum over the channels of rate times sample size, the frame size, the sample width and the code of the resolved format, each little-endian and cut to its field |
| `WavHeader.AliasIsNative` | src/librsound/librsound.c:404-432 | an alias resolves to the format of its width and sign in the client's byte order |
| `WavHeader.GetWavHeader` | src/rsound-common.c:728-836 | a server of either byte order reads the fields as little-endian, settles the format and rejects exactly senseless rates and widths |
| `WavHeader.SwitchFormat` | src/rsound-common.c:754-824 | the two switches pick a tagged G.711 format, an untagged linear format of the right width, or the default |
| `WavHeader.FormatRules` | src/rsound-common.c:754-824 | the format of any tag, width and code: a linear code under tag 0 with its own width, a law under its tag with eight bits, else U8 or S16_LE; so a 16-bit header without code is S16_LE |
| `WavHeader.HeaderRoundTrip` | src/librsound/librsound.c:397-505 | for every format and alias: accepted exactly for rates from 1 to 192000, with rate, width and resolved format as sent |
| `WavHeader.RoundTripExactIff` | src/rsound-common.c:728-836 | all four values come back exactly when the rate is playable and there are fewer than 65536 channels |
| `Text.ReadPrinted` | src/proto.c:176-178 | a printed number followed by no digit is read back exactly, in base ten or with the base left open |
| `Text.BaseFound` | src/proto.c:92 | with the base left open a leading 0 means eight and 0x sixteen |
| `Text.Find` | src/proto.c:86 | the first occurrence of a pattern, or none at all |
| `Control.Server.HandleCtlRequest` | src/proto.c:48-150 | as long as no body leaves its array, the loop over the socket does what `Handle` says to inbox, replies, identity and return value |
| `ControlRoundTrip.ServerBodyStaysIff` | src/proto.c:92-100 | a body the server receives stays in its array exactly when the announced length is not negative or no more than 257 bytes wait |
| `ControlRoundTrip.OversizeSkipped` | src/proto.c:92-96 | a frame that announces more than 256 bytes is skipped, and the server reads on in its body |
| `ControlRoundTrip.BodyReceived` | src/proto.c:98-114 | a shorter body that is not empty is acted on when all of it is there, and otherwise ends the handling |
| `ControlRoundTrip.NegativeLengthLeavesArray` | src/proto.c:92-100 | a header announcing -1 with more than 257 bytes behind it leaves the array |
| `Control.Server.Perform` | src/proto.c:116-147 | one parsed message acted on |
| `ControlRoundTrip.HandleFrame` | src/proto.c:73-114 | a whole frame at the head of the socket is parsed and acted on, and the rest waits |
| `ControlRoundTrip.BodyParses` | src/proto.c:152-197 | the body of every sendable message parses to that message |
| `ControlRoundTrip.WordsDecide` | src/proto.c:152-197 | which word decides when a body contains several |
| `ControlRoundTrip.IdleFrame` | src/proto.c:110-119 | a NULL message, or a body without a known word, changes nothing and the next frame is handled |
| `ControlRoundTrip.MessagesRoundTrip` | src/proto.c:73-150 | any list of messages printed one after the other is handled as that list, up to the STOP or CLOSECTL that ends it |
| `ControlRoundTrip.IdentityArrivesIff` | src/librsound/librsound.c:990-1007 | a frame on its own: exactly names of at most 236 bytes without a command word arrive; any other leaves the identity alone |
| `ControlRoundTrip.IdentityFrame` | src/librsound/librsound.c:998-1001 | any name in front of anything: what body the server takes, and that it gives up when the bytes announced are not there |
| `ControlRoundTrip.OverlongNameSwallows` | src/librsound/librsound.c:998-1001 | an over-long name takes up to eight bytes of the next frame into the identity, and the server reads on in the middle of that frame |
| `Replies.Client.UpdateServerInfo` | src/librsound/librsound.c:1103-1156 | as long as no body leaves its array, the client's reading loop does what `ReadReplies` says |
| `Replies.ClientBodyStaysIff` | src/librsound/librsound.c:1132-1136 | a body the client receives stays in its array, whatever waits, exactly for lengths from 0 to 257 |
| `Replies.ClientBodyStaysFor` | src/librsound/librsound.c:1132-1136 | for a given amount waiting, exactly for those lengths or when no more than 257 bytes wait |
| `Replies.LengthsLeaveArray` | src/librsound/librsound.c:1132-1136 | lengths of 9999 and -1 leave it when more than 257 bytes wait |
| `Replies.ShortReplyReadsItsLength` | src/librsound/librsound.c:1119-1151 | the reply `INFO 7` under its header is read as pointers 7 and 6 |
| `Replies.OtherFrameSkipped` | src/librsound/librsound.c:1136-1140 | a frame without INFO leaves the pointers as they were |
| `Replies.RepliesRoundTrip` | src/librsound/librsound.c:1112-1156 | printed replies are read exactly and the last one kept; one server pointer that is not positive, or a client pointer of zero, makes the client give up |
| `Replies.QueryRoundTrip` | src/librsound/librsound.c:1081-1156 | queries sent, answered and read back leave the client with its last counter and the server's pointer, exactly when that pointer is positive |
| `Replies.WrittenFrames` | src/librsound/librsound.c:1024 | the texts written out for STOP, CLOSECTL and its reply are frames that announce the length of their own bodies |
| `Replies.CloseIsAnswered` | src/librsound/librsound.c:1024-1056 | after any counters and names, CLOSECTL closes the connection and leaves the text the client searches for at the end of the replies |
| `JackWords.Deinterleave` | src/drivers/jack.c:276-278 | the nested loops put every channel of the interleaved block in its own row, a sample for each whole frame |
| `JackWords.ChannelAt` | src/drivers/jack.c:276-278 | sample k of channel c is interleaved sample k * channels + c |
| `JackWords.RowWriteInsideIff` | src/drivers/jack.c:301-302 | a channel's write stays inside its row exactly when four times the broken frame is less than a frame |
| `JackWords.SentWhole` | src/drivers/jack.c:301-302 | for a block of whole frames a write is its row and nothing else |
| `Jack.PutPutsAll` | src/drivers/jack.c:281-302 | the room the writer found is still there when it writes each channel, so no write is cut |
| `Jack.WriterKeepsInv` | src/drivers/jack.c:281-302 | every step of the writer, whatever the block, keeps the invariant: what a channel was handed is what its port heard and its ring holds |
| `Jack.ReaderKeepsInv` | src/drivers/jack.c:48-77 | every step of the callback keeps it: the fill it found is still there when it reads each channel |
| `JackCallback.CallbackPlays` | src/drivers/jack.c:48-77 | any callback for n frames, among any steps of the writer: every port gains n slots, as many samples as the emptiest ring held when it was looked at, n at most, and then silence; what all rings held at its start is played |
| `Jack.HeardIsInput` | src/drivers/jack.c:56-75 | as long as blocks are whole frames, in every interleaving sound sample k of port c is input sample k * channels + c |
| `Jack.NothingLost` | src/drivers/jack.c:301-302 | whatever the blocks, with the writer at rest heard and buffered bytes are all that was handed to the channel; for whole frames that is the whole channel of the stream |
| `Jack.ChannelsNeverSkew` | src/drivers/jack.c:56-75 | whatever the blocks, between callbacks all ports have had sound and silence in the same slots and the same number of samples |
| `JackProgress.WriteGetsThroughIff` | src/drivers/jack.c:280-299 | some schedule of callbacks lets a write through exactly when its bytes fit a ring beside the residue of an incomplete sample |
| `JackProgress.RoomEndsWait` | src/drivers/jack.c:286-302 | when every ring has room as a look begins, the write is over after that look and one pass of writes, whatever callbacks come between |
| `JackChunks.CompleteIff` | src/drivers/jack.c:276-302 | for all contents of blocks of n samples and of the memory behind them, every sample reaches its port or ring in order exactly when n is a whole number of frames |
| `JackChunks.HeardRightIff` | src/drivers/jack.c:276-302 | for the same blocks, no port ever plays a wrong sample exactly when n is a whole number of frames or less than a quarter of one |
| `JackChunks.SixChannels` | src/drivers/jack.c:301-302 | 256 samples for six channels: rows of 168 bytes, writes of 170, and a reachable state whose port 0 heard a wrong sample |
| `JackChunks.DefaultChunkRightIff` | src/drivers/jack.c:242 | with the driver's 512-byte chunks, in every sample width, the ports play the stream exactly for 1, 2, 4 and 8 channels |

## Left out

- Socket errors, hang-ups and timeouts, the ten-second limit of a blocking send, and a second application thread: a
  writer asleep when the worker dies is not woken by the source either.
- rsnd_cb_thread, the worker of the callback interface.
- The INFO query inside the worker loop: it touches neither FIFO nor data socket; its effect is `Latency` and `Replies`.
- The restart after `rsd_stop`: a new session starts from the initial state.
- The connection set-up, and the WAV header's transport: the header is on the socket when the worker starts.
- Floating point: the resampler's samples, ratio and positions are exact reals, and libsamplerate is not modelled. The
  RSD_*_TO_FLOAT loops apply any function from a sample's bytes to four bytes; which floats it makes stays open.
- Integer widths of counters and sizes, except where a result depends on them (sample words, header fields, the 32-bit sign bit).
- resampler_new's refusals (no callback, no channel, no memory) and realloc failure.
- Resampler.Resampler.CbRead: says nothing about the reads whose index leaves the buffered frames, which have no defined
  result in the source; `ServesIff` says which these are.
- The copies of the block arithmetic in resample_callback, which asks receive_data for whole frames and converts them.
- ConverterInPlace.NarrowInPlace: what memory holds behind the scratch buffer is a parameter; that reading it is undefined
  in C is the finding above.
- ConverterInPlace.AudioConverter: says nothing about a non-empty buffer whose widened samples become floats, which is
  written outside the scratch buffer and has no defined result (`ConverterScratch.ScratchInsideIff`). Masks that widen
  twice or narrow anything but four-byte samples, and narrowing or float conversion of a buffer that ends within a
  sample, have no meaning in the source and are excluded.
- Latency.Estimator.UpdateServerInfo: the counters are read at one instant; the source reads some of them without the lock.
- Control.Server.HandleCtlRequest: says nothing once a body has left its array, which has no defined result; recv is taken to return all that is asked for when it is there, the backend latency
  stays the same during one call, and every reply can be sent.
- Replies.Client.UpdateServerInfo: says nothing once a body has left its array, or fills it without a terminator.
- rsnd_close_ctl's buffering of a reply that arrives in parts; what it searches for is in `Replies`.
- strtol and strtoull: saturation at 64 bits; blanks other than the space.
- Jack.WriterKeepsInv: the memory behind the deinterleaved array, which a write of a broken frame reaches, is a parameter
  of the block; that reading it is undefined in C is the finding above. The client's shutdown during a write is left out.
- JackChunks.CompleteIff, JackChunks.HeardRightIff: the rings have room for one block beside an incomplete sample; a larger
  block may never be written (`JackProgress.WriteGetsThroughIff`).
- Every backend but JACK, daemon and option handling, logging, plugins and the emulation layers.
