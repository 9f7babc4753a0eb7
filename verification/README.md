# Verified models of the pog AirPlay speaker firmware

This project models the algorithmic core of the firmware in Dafny and proves what each part
promises for every input, every run and every interleaving. `dafny verify dfyconfig.toml`
checks everything.

| component | files | what is proved |
|---|---|---|
| Voice resampler (`components/pogvoice/pogvoice_resample.c`) | `VoiceFir`, `VoiceResampler`, `VoiceCallers` | the circular history and phase accumulator compute a 32-tap convolution over the unbounded signal, whatever the block boundaries; the output count is known before any state changes; unity gain |
| RTP jitter buffer (`main/audio/audio_buffer.c`) | `JitterQueue`, `JitterBuffer`, `JitterChunks`, `JitterProtocol` | slot pool, sorted indices and free stack refine a priority queue across 32-bit wrap; slots are partitioned in every interleaving; no wake-up is lost; exactly when a frame split for slots stays together |
| ART resampler (`components/audio-resampler/resampler.c`, `main/audio/audio_resample.c`) | `ArtClock`, `ArtFilters`, `ArtResampler`, `ArtInit` | the sliding buffer is a view of the whole stream; closed forms for both predictors; the reduced filter bank is the smallest that needs no interpolation |
| WebSocket reassembly (`components/pogvoice/pogvoice_protocol.c`) | `MessageAssembly` | the runs that complete are exactly the messages of a grammar of fragmentation |
| Wake word (`components/pogwake/pogwake.c`) | `WakeProtocol`, `WakeControl` | safety of every interleaving of timer, worker and user calls |
| Voice turn (`components/pogvoice/pogvoice.c`) | `VoiceTurn`, `VoiceUplink` | half duplex; the uplink is the resampled microphone signal, sample for sample |
| Effect synchronisation (`main/effect_sync.c`) | `EffectTimeline`, `EffectSync` | eight largest sequence numbers, rendering never goes backwards, sound interpolation |
| S/PDIF framer (`main/audio/audio_output_spdif.c`) | `SpdifFramer` | block framing of every partition of a sample stream |
| Enrolment (`components/pogdev/pogdev_enrol.c`) | `EnrolProtocol`, `ClaimSecret`, `Enrolment` | the forget latch and its exact condition; when memory and storage agree |

Code that updates variables in place is modelled by classes and loops, each proved against a
function on values; the theorems are about those functions. Concurrent parts are state
machines whose steps are the critical sections of the code. `Serial32` holds the wrapped
32-bit comparison and `Prelude` a few shared definitions.

Serial numbers (RTP timestamps, effect sequence numbers) are carried unwrapped; the code's
operations only see them modulo 2^32. Where order matters, the half-window assumption (`Near`)
is an explicit premise.

## Findings

- `pogdev_forget` clears the latch when it fails, even if an earlier call had succeeded
  (`components/pogdev/pogdev_enrol.c:595-597`). A credential answer that was waiting on the
  network is then stored. Forgetting is therefore final until reboot exactly as long as the
  latest call succeeded (`EnrolProtocol.ForgottenExactly`, `EnrolProtocol.SealedExactly`,
  `EnrolProtocol.FailedForgetReopens`).
- The claim secret is meant to be stored before it is used
  (`components/pogdev/pogdev_enrol.c:137-140`). When writing it fails, the next call finds it in
  memory and succeeds without storing it (`EnrolProtocol.UnsavedSecret`). A drawn secret is in
  storage exactly when its first write succeeded and no failing forget has erased it since
  (`ClaimSecret.SavedSinceDraw`; over all runs `ClaimSecret.SecretSavedExactly`).
- A host update whose port write fails is half kept: a reboot combines the new host with the
  old port (`EnrolProtocol.TornUpdate`; exact condition in `EnrolProtocol.HostUpdateExact`).
- The jitter buffer evicts its oldest frame only when the consumer holds no slot. If it holds
  one, a full buffer refuses the newest frame instead (`JitterQueue.RefusedExactly`).
- A decoded frame that is split for a full queue can push out its own chunks: with nothing held,
  and more chunks than free slots and older frames, `audio_buffer_queue_decoded` returns true
  while the beginning of its own frame is lost (`JitterChunks.DecodedFrameStaysWhole`,
  `JitterChunks.LateFrameLosesItself`, `JitterChunks.LateFrameHalved`). With a slot held it
  returns false and leaves a beginning of the frame queued (`JitterChunks.HeldSlotCutsFrame`,
  `JitterChunks.HeldSlotHalvesFrame`).
- Frames with equal timestamps are taken newest first: the binary search returns the first
  position that is not earlier (`JitterQueue.EnqueueRefines` against `Insert`).
- The guard `end > start` of the effect interpolation can never fail
  (`EffectTimeline.ShownSound`), and the second length check of message reassembly can never
  fire while the first is in place (`MessageAssembly.SecondCheckIdle`).
- The resampler's documentation promises no automatic lowpass for near-unity ratios; the code
  uses one for every ratio below one, however close (`ArtInit.Cutoff`).
- 2^32 pauses during a single monitor job would revive its wake: the generation counter is
  sound exactly up to wrapping (`WakeProtocol.FinishArms`, `WakeProtocol.StaleTurnFromStart`).
- The comment in the S/PDIF source counts 192 sub-frames per block; the code sends 384
  (192 stereo frames), which is what is proved.

## Model

| member | source | states |
|---|---|---|
| VoiceFir.ProducedExact | components/pogvoice/pogvoice_resample.c:56-73 | output j exists after n inputs exactly when its time lies before sample n |
| VoiceFir.RequiredExact | components/pogvoice/pogvoice_resample.c:47-50 | the count computed before any state change is exactly the number of outputs the block yields from any point of any stream |
| VoiceFir.ProducedBound | components/pogvoice/pogvoice_resample.c:47-52 | from any phase, a block yields at most ceil(count * out / in) outputs |
| VoiceFir.ConversationBufferSuffices | components/pogvoice/pogvoice.c:797-808 | the 1024-sample buffer of a voice turn holds the output of every admissible block at all rates |
| VoiceFir.SampleCausal | components/pogvoice/pogvoice_resample.c:54-76 | later input never changes an emitted output |
| VoiceFir.ConvolveIsResponse | components/pogvoice/pogvoice_resample.c:62-66 | summing over the taps is summing over the samples: sample i counts at time n with the weight of tap n - i |
| VoiceFir.ImpulseResponse | components/pogvoice/pogvoice_resample.c:62-66 | a single sample comes out times the tap that it has reached |
| VoiceFir.SampleExactly | components/pogvoice/pogvoice_resample.c:57-70 | output j is the 16-bit value nearest to the responses of the two rows around its phase, weighted 256 - w and w, with place, phase and weight given by their inequalities |
| VoiceFir.OnPhase | components/pogvoice/pogvoice_resample.c:57-70 | at a phase of its own the first row alone decides |
| VoiceFir.BetweenPhases | components/pogvoice/pogvoice_resample.c:57-70 | between two phases the output lies between the two rows' values, on the side of the nearer phase |
| VoiceFir.BlockwiseIsOnePass | components/pogvoice/pogvoice_resample.c:42-77 | any cut of a signal into blocks yields the one-pass output, of length ceil(N * out / in) |
| VoiceFir.ConstantPreserved | components/pogvoice/pogvoice_resample.c:57-70 | with rows summing to 32768, a window of constant value comes out as that value at every phase and blend |
| VoiceFir.ConvolveBounded | components/pogvoice/pogvoice_resample.c:61-66 | the accumulators stay within 2^35 for all int16 samples and coefficients |
| VoiceFir.MixBounded | components/pogvoice/pogvoice_resample.c:67 | the blended accumulator stays within 2^43 |
| VoiceResampler.CorrectRow | components/pogvoice/pogvoice_resample.c:30-37 | every tap but the centre is the rounded value as int16, and the row sums to 32768 minus what int16 storage loses in total |
| VoiceResampler.CircularIndex | components/pogvoice/pogvoice_resample.c:63 | masking the unsigned difference addresses the signal's sample n - k |
| VoiceResampler.Resampler.Init | components/pogvoice/pogvoice_resample.c:9-40 | rates outside 8000..48000 are refused and leave the record alone; otherwise an empty stream, and each row sums to 32768 exactly when storing it loses nothing |
| VoiceResampler.Resampler.Accumulate | components/pogvoice/pogvoice_resample.c:61-66 | the loop over the circular history computes the two convolutions over the unbounded signal, within bounds |
| VoiceResampler.Resampler.Output | components/pogvoice/pogvoice_resample.c:57-70 | one output is the clipped, phase-blended convolution at the current phase |
| VoiceResampler.Resampler.EmitDue | components/pogvoice/pogvoice_resample.c:56-72 | exactly the outputs between two samples are written, in order, and nothing else changes |
| VoiceResampler.Resampler.Feed | components/pogvoice/pogvoice_resample.c:55-74 | one sample keeps history, head and phase in step with the unbounded signal |
| VoiceResampler.Resampler.Process | components/pogvoice/pogvoice_resample.c:42-77 | a block is refused, without a trace, exactly when uninitialised, out of range or too large for the output; otherwise the outputs of the unbounded signal are written |
| VoiceCallers.ReplyToSpeaker | components/pogvoice/pogvoice.c:796-810 | a decoded frame of any length is converted without a refusal into the outputs of the signal |
| VoiceCallers.PlayReply | components/pogvoice/pogvoice.c:796-810 | every cut of a reply into frames plays the one-pass resampling of the whole reply |
| VoiceCallers.PlayLevel | components/pogvoice/pogvoice_resample.c:30-70 | unity gain from coefficients to speaker: if storing the rows loses nothing, in particular if rounded values and corrected centres fit int16, a reply constant from some sample on is played as that constant from the first full history on, for any cut into frames |
| VoiceCallers.WakeBufferSuffices | components/pogwake/pogwake.c:57-62 | at both output rates each block of a drain fits the wake buffer behind the blocks before it |
| VoiceCallers.CaptureToWake | components/pogwake/pogwake.c:155-169 | a drain of up to 960 frames never fails and yields the outputs of the signal |
| Serial32.DiffExact | main/audio/audio_buffer.c:21-25 | the wrapped signed difference is the true difference exactly inside the half window |
| JitterQueue.EverySlotOwned | main/audio/audio_buffer.c:173-177 | queued, free and held slots cover the pool |
| JitterQueue.SearchSplits | main/audio/audio_buffer.c:29-40 | within a half window the binary search separates earlier frames from the others |
| JitterQueue.RefusedExactly | main/audio/audio_buffer.c:74-101 | refusal exactly when nothing is free and the consumer holds a slot; eviction exactly when nothing is free and nothing held |
| JitterQueue.EnqueueInv | main/audio/audio_buffer.c:72-128 | queueing keeps the slot partition and the exact sample count |
| JitterQueue.EnqueueRefines | main/audio/audio_buffer.c:72-128 | queueing inserts the frame at its place in a priority queue, after a full queue has given up its oldest frame, across any timestamp wrap |
| JitterQueue.InsertAddsOne | main/audio/audio_buffer.c:119-126 | the reference insertion gains exactly the new frame |
| JitterQueue.InsertAscending | main/audio/audio_buffer.c:116-125 | the reference insertion keeps the order |
| JitterQueue.TakenIsOldest | main/audio/audio_buffer.c:324-336 | the frame taken is the minimum and the rest stays in order |
| JitterQueue.RemoveInv | main/audio/audio_buffer.c:316-338 | taking removes the head and keeps partition and sample count |
| JitterQueue.GiveBackInv | main/audio/audio_buffer.c:357-362 | returning a held slot keeps the partition and cannot overflow the free stack |
| JitterQueue.FlushInv | main/audio/audio_buffer.c:245-258 | flushing keeps the partition, holds included, and cannot overflow the free stack |
| JitterBuffer.AudioBuffer.constructor | main/audio/audio_buffer.c:141-206 | a new buffer has 1000 slots, all free |
| JitterBuffer.AudioBuffer.InsertPos | main/audio/audio_buffer.c:29-40 | the loop computes the binary search |
| JitterBuffer.AudioBuffer.EvictWhileFull | main/audio/audio_buffer.c:74-92 | the eviction loop drops exactly the oldest frame of a full queue and one token |
| JitterBuffer.AudioBuffer.QueueChunk | main/audio/audio_buffer.c:44-137 | a chunk is queued and signalled exactly when it is storable and a slot can be had; otherwise nothing changes |
| JitterBuffer.AudioBuffer.Take | main/audio/audio_buffer.c:305-348 | a token and a frame yield the head of the queue, now held by the consumer |
| JitterBuffer.AudioBuffer.Return | main/audio/audio_buffer.c:352-363 | the slot becomes the top of the free stack |
| JitterBuffer.AudioBuffer.FlushAll | main/audio/audio_buffer.c:240-259 | all queued slots become free and the semaphore is drained |
| JitterBuffer.AudioBuffer.OldestTimestamp | main/audio/audio_buffer.c:381-395 | the timestamp of the head of the queue, if any |
| JitterChunks.ChunksTile | main/audio/audio_buffer.c:419-438 | chunks concatenate to the frame, tile its time span and each fits a slot; all but the last have 352 samples |
| JitterChunks.StorableExactly | main/audio/audio_buffer.c:44-70 | what fits a slot: one or two channels and at most 704 values; sizes that wrap in 32 bits are kept out by the 16-bit check |
| JitterChunks.QueueDecoded | main/audio/audio_buffer.c:399-439 | the chunks are queued in order until the first refusal, for every channel argument |
| JitterChunks.QueueRefines | main/audio/audio_buffer.c:72-128 | queueing any frames within half a window is inserting them in turn, each after the oldest frame has made room if no slot is free, up to the first refusal; exactly when there is none |
| JitterChunks.DecodedFrameQueued | main/audio/audio_buffer.c:419-438 | for any decoded frame, whether or not its span meets queued frames: its chunks are those insertions, and with a free slot for each of them nothing is lost |
| JitterChunks.ChunksOutcome | main/audio/audio_buffer.c:74-101 | where chunks that belong between earlier and later frames end up, for any number of free slots, held or not: the exact queue, and exactly when all are accepted |
| JitterChunks.DecodedFrameStaysWhole | main/audio/audio_buffer.c:419-438 | a frame whose span meets no queued frame ends up as neighbouring chunks with only older frames lost if and only if each chunk finds a free slot or, with nothing held, the slot of an older frame |
| JitterChunks.LateFrameLosesItself | main/audio/audio_buffer.c:75-92 | on a full queue of later frames with nothing held, all chunks are accepted and only the last one remains |
| JitterChunks.FilledByCalls | main/audio/audio_buffer.c:399-439 | calls with one packet of 352 samples each fill an empty buffer packet by packet |
| JitterChunks.LateFrameHalved | main/audio/audio_buffer.c:419-438 | after a thousand such calls a call with an earlier frame of two chunks reports success and keeps half of its frame |
| JitterChunks.HeldSlotCutsFrame | main/audio/audio_buffer.c:95-101 | while a slot is held, the chunks that found a free slot stay queued and the call fails |
| JitterChunks.HeldSlotHalvesFrame | main/audio/audio_buffer.c:95-101 | from an empty buffer: after a thousand calls, two frames taken and one returned, a frame of two chunks is refused with its first chunk queued |
| JitterProtocol.ReachablePartition | main/audio/audio_buffer.c:75-126 | in every reachable state each slot is in exactly one place, the free stack fits and the sample count is exact |
| JitterProtocol.NoLostWakeup | main/audio/audio_buffer.c:128-131 | tokens plus gives and takes in transit never fall below the queued frames, with any number of producers and consumers and with flushes |
| JitterProtocol.SoloBalanced | main/audio/audio_buffer.c:311-322 | with one producer, one consumer and no flush they are equal, and the empty-queue guard is unreachable |
| JitterProtocol.FlushReachesGuard | main/audio/audio_buffer.c:256-258 | a flush between the two halves of a take does reach the guard |
| JitterProtocol.HeldFrozen | main/audio/audio_buffer.c:340-345 | header and payload of a taken frame do not change until it is returned, across any steps |
| JitterProtocol.TakesInOrder | main/audio/audio_buffer.c:316-333 | over any windowed run the frame handed over is the oldest queued |
| ArtClock.ReadyExact | components/audio-resampler/resampler.c:756-758 | the three readings of "output j can be computed from n inputs" agree |
| ArtClock.RequiredIsEnough | components/audio-resampler/resampler.c:1049-1077 | the predicted input yields exactly the wanted outputs and is used whole |
| ArtClock.RequiredIsLeast | components/audio-resampler/resampler.c:1049-1077 | less input than predicted yields fewer outputs |
| ArtClock.ExpectedIsExact | components/audio-resampler/resampler.c:1079-1118 | with more room than predicted, exactly the prediction is produced and all input is used |
| ArtClock.MaxOutputSuffices | main/audio/audio_resample.c:165-170 | the reserved capacity exceeds the output of any block of a caught-up resampler |
| ArtClock.CaughtUpPosition | components/audio-resampler/resampler.c:1168-1170 | a caught-up position lies in [0, 1 / ratio) |
| ArtFilters.ApplyFilter | components/audio-resampler/resampler.c:1237-1247 | the loop is the dot product of the filter and the window |
| ArtFilters.ComputeFrame | components/audio-resampler/resampler.c:1374-1398 | each channel is computed by the nearest filter or by two neighbouring ones, as configured |
| ArtFilters.Gcd | components/audio-resampler/resampler.c:1203-1211 | the greatest common divisor |
| ArtFilters.ReduceFilters | components/audio-resampler/resampler.c:420-437 | the bank is reduced to dest / gcd filters exactly when they are allowed and fit |
| ArtFilters.ExactFilters | main/audio/audio_resample.c:59-73 | the requested count is dest / gcd capped at 1024, so it admits the reduction exactly when dest / gcd is at most 1024 |
| ArtFilters.ReducedRatio | components/audio-resampler/resampler.c:460 | with the gcd divided out, the ratio times source / gcd is dest / gcd |
| ArtFilters.PhaseExact | components/audio-resampler/resampler.c:1374-1391 | in the bank for two rates output j lies exactly on filter (j * source / g) mod (dest / g), by either lookup |
| ArtFilters.InterpolationUnneeded | components/audio-resampler/resampler.c:426-428 | in the bank for two rates both subsamplers give the same frame for every output |
| ArtFilters.SnapIdentity | components/audio-resampler/resampler.c:800-806 | snapping leaves a position on the filter grid alone |
| ArtFilters.SnapNearest | components/audio-resampler/resampler.c:800-806 | snapping moves any position to a filter's, by at most half the distance between two |
| ArtInit.LandsExactlyWhen | components/audio-resampler/resampler.c:420-428 | every output falls on one of n filters if and only if n is a multiple of dest / gcd, which is therefore the smallest count that needs no interpolation |
| ArtInit.BuildFilters | components/audio-resampler/resampler.c:186-212 | one filter more than the count; the last is the first shifted by one tap, with both outer taps cleared |
| ArtInit.SeamContinuous | components/audio-resampler/resampler.c:196-212 | rounding up to the last filter gives the value of the first filter at the next position |
| ArtInit.Cutoff | components/audio-resampler/resampler.c:407-452 | a lowpass is used exactly for a frequency below the source's Nyquist or, in automatic mode, whenever the rate goes down |
| ArtInit.FixedRatioInit | components/audio-resampler/resampler.c:404-464 | exactly which arguments give a context, and that its bank is the reduced one for the two rates exactly when dest / gcd filters are allowed |
| ArtInit.SetUp | main/audio/audio_resample.c:45-101 | a ready resampler for unequal rates, whose interpolation is on exactly when some output would fall between two filters |
| ArtResampler.WindowInside | components/audio-resampler/resampler.c:1378-1394 | every tap read lies in the filled part of the buffer |
| ArtResampler.OutputCausal | components/audio-resampler/resampler.c:788-791 | later input does not change an output |
| ArtResampler.DotIsResponse | components/audio-resampler/resampler.c:1374-1398 | summing over the taps of the window is summing over the input frames: frame i counts with the tap given by its distance from the output |
| ArtResampler.ImpulseResponse | components/audio-resampler/resampler.c:1374-1398 | a stream with one frame that is not silent comes out as that frame times one tap |
| ArtResampler.NearestOutput | components/audio-resampler/resampler.c:1374-1386 | without interpolation output j is the response of the filter nearest to its fraction, or without lowpass at the edges an input frame itself |
| ArtResampler.WholeOutput | components/audio-resampler/resampler.c:1376-1386 | without lowpass an output at a whole position is the input frame half a filter length back |
| ArtResampler.BlendedOutput | components/audio-resampler/resampler.c:1388-1398 | with interpolation output j is the weighted sum of the responses of the two filters around its fraction |
| ArtResampler.Resampler.Reset | components/audio-resampler/resampler.c:490-506 | after a reset the buffer shows silence and the stream is empty |
| ArtResampler.Resampler.Position | components/audio-resampler/resampler.c:1168-1170 | the reported position is the time of the next output minus the input consumed |
| ArtResampler.Resampler.MoveDown | components/audio-resampler/resampler.c:759-768 | moving the buffer keeps it a view of the stream, shifted by 15 filter lengths |
| ArtResampler.Resampler.Produce | components/audio-resampler/resampler.c:788-791 | an output computed from the buffer is output number `emitted` of the infinite stream |
| ArtResampler.Resampler.Process | components/audio-resampler/resampler.c:748-808 | inputs used and outputs generated follow the closed forms, outputs are those of the stream, snapping included |
| ArtResampler.Resampler.GetRequiredSamples | components/audio-resampler/resampler.c:1049-1077 | the dry run computes the closed form |
| ArtResampler.Resampler.GetExpectedOutput | components/audio-resampler/resampler.c:1079-1118 | the dry run computes the closed form |
| ArtResampler.RunCalls | components/audio-resampler/resampler.c:684-812 | over any run of calls and resets, what is consumed and how much is produced is a function of the calls, and the output since the latest reset is exactly that much of the one-pass output of what was consumed since |
| ArtResampler.ResampleBlocks | main/audio/audio_resample.c:106-138 | with the reserved capacity every block is consumed whole, the output is the one-pass output and the position ends in [0, 1 / ratio) |
| MessageAssembly.FeedInv | components/pogvoice/pogvoice_protocol.c:95-103 | the message so far plus the rest of its frame never exceed 4096 bytes |
| MessageAssembly.SecondCheckIdle | components/pogvoice/pogvoice_protocol.c:101-103 | behind the first length check the second one never decides |
| MessageAssembly.OddPieces | components/pogvoice/pogvoice_protocol.c:75-81 | control frames are passed over and pieces outside their frame refused, without a trace; any other refusal empties the record |
| MessageAssembly.Message.FeedPiece | components/pogvoice/pogvoice_protocol.c:75-119 | the in-place function performs one step of the automaton; a completed message is terminated by zero |
| MessageAssembly.AcceptsExactlyMessages | components/pogvoice/pogvoice_protocol.c:75-119 | between messages, pieces are taken with 0 and a final 1 exactly when they form a message of the grammar |
| MessageAssembly.MessageIsAccepted | components/pogvoice/pogvoice_protocol.c:82-115 | every fragmentation completes at its last piece with its bytes and opcode |
| MessageAssembly.InterleavedMessage | components/pogvoice/pogvoice_protocol.c:78-81 | the same with control frames and malformed events anywhere among the pieces |
| MessageAssembly.CompletedIsSound | components/pogvoice/pogvoice_protocol.c:111-118 | after any events, a returned 1 holds exactly a message made of the most recent effective pieces |
| WakeProtocol.StepInv | components/pogwake/pogwake.c:198-264 | every critical section keeps the protocol invariant |
| WakeProtocol.WakeSafety | components/pogwake/pogwake.c:104-353 | in every interleaving each turn answers its own detection with no invalidation or turn between; at most one monitor job; turns never exceed detections |
| WakeProtocol.FinishArms | components/pogwake/pogwake.c:200-205 | a finished job arms a turn exactly when enabled, heard and of the current generation modulo 2^32 |
| WakeProtocol.RestsUntilResumed | components/pogwake/pogwake.c:233-250 | over every run from a suspended or disabled device with no decision outstanding, no turn starts and no job is submitted until it is resumed or enabled |
| WakeProtocol.TickStarts | components/pogwake/pogwake.c:217-264 | a clear tick on an enabled, unsuspended, idle device starts a turn if a wake is pending and a job of the current generation otherwise; any other tick changes nothing |
| WakeProtocol.CallTakesEffect | components/pogwake/pogwake.c:290-353 | what a whole pause, suspend, resume or configure call leaves behind |
| WakeProtocol.LossTakesEffect | components/pogwake/pogwake.c:221-230 | a tick that finds the service busy discards the pending wake, and that of a running job |
| WakeProtocol.WrapDefeatsPause | components/pogwake/pogwake.c:290-296 | 2^32 pauses in one job after which a stale wake starts a turn, from any state in which a wake has just been heard |
| WakeProtocol.StaleTurnFromStart | components/pogwake/pogwake.c:217-296 | the same as one run from the start |
| WakeControl.Shared.TickUnavailable | components/pogwake/pogwake.c:221-230 | loss of availability on the wrapped variables is one protocol step |
| WakeControl.Shared.TickChoose | components/pogwake/pogwake.c:233-250 | the decision section is one protocol step |
| WakeControl.Shared.TickFailed | components/pogwake/pogwake.c:256-262 | the failure section is one protocol step |
| WakeControl.Shared.MonitorStart | components/pogwake/pogwake.c:106-108 | the job reads the generation it was submitted with |
| WakeControl.Shared.MonitorFinish | components/pogwake/pogwake.c:198-209 | the final section of a job is one protocol step |
| WakeControl.Shared.PauseLocked | components/pogwake/pogwake.c:290-296 | a pause is one protocol step |
| WakeControl.Shared.FinishSuspend | components/pogwake/pogwake.c:306-315 | suspending is two protocol steps and leaves no wake pending |
| WakeControl.Shared.FinishConfigure | components/pogwake/pogwake.c:327-352 | reconfiguring is three protocol steps; a failed store leaves detection off |
| VoiceTurn.HalfDuplex | components/pogvoice/pogvoice.c:895-917 | in a lawful turn nothing but the reply follows the start of the reply; listening starts and stops at most once and no microphone frame follows the stop |
| VoiceTurn.ReplyAfterCapture | components/pogvoice/pogvoice.c:771-774 | reply audio comes after the end of capture and after the start of the reply |
| VoiceTurn.MicAfterListenStart | components/pogvoice/pogvoice.c:874-893 | microphone frames and the end of listening come after the start of listening |
| VoiceTurn.GreetedKeeps | components/pogvoice/pogvoice.c:826-894 | exactly when a hello fails the turn, ends it or starts listening |
| VoiceTurn.SpokenKeeps | components/pogvoice/pogvoice.c:895-923 | the start of a reply ends capture first; other reply messages while listening fail the turn |
| VoiceTurn.ReceivedKeeps | components/pogvoice/pogvoice.c:760-945 | reply audio is admitted exactly when a reply has started and decoding succeeds |
| VoiceTurn.AbortEnds | components/pogvoice/pogvoice.c:924-929 | for every script, after a system abort the turn is done and the rest of the script changes nothing |
| VoiceTurn.AlertFails | components/pogvoice/pogvoice.c:930-933 | an alert or an invalid message fails the turn, and nothing more is captured or sent |
| VoiceTurn.FaultFails | components/pogvoice/pogvoice.c:731-757 | a broken connection, a passed deadline or an unsendable hello fails the turn and leaves everything else as it was |
| VoiceTurn.CancelledStops | components/pogvoice/pogvoice.c:730 | cancelling ends the turn before the iteration and everything after it |
| VoiceTurn.InfoIgnored | components/pogvoice/pogvoice.c:934-940 | text messages leave the turn as if nothing had come |
| VoiceTurn.PumpedExactly | components/pogvoice/pogvoice.c:946-971 | exactly when the microphone's part fails the turn or leaves it alone |
| VoiceTurn.HelloAtMostOnce | components/pogvoice/pogvoice.c:739-757 | the client says hello at most once, and exactly when it has got through |
| VoiceTurn.Fill | components/pogvoice/pogvoice.c:959-968 | the loop over single samples cuts what the frame held and what came in into whole frames, up to the first that cannot be sent |
| VoiceTurn.FilledBalance | components/pogvoice/pogvoice.c:959-968 | frames sent and the rest in the frame are what was captured, in order |
| VoiceTurn.FinishedKeeps | components/pogvoice/pogvoice.c:972-1000 | exactly when the end of capture succeeds; every captured sample has then been sent |
| VoiceTurn.CapturedRange | components/pogvoice/pogvoice.c:946-968 | for every script, the iterations that listen are exactly an unbroken range that begins with the accepted hello, and what is captured is what they gave |
| VoiceTurn.Conversation | components/pogvoice/pogvoice.c:730-1006 | for every script the trace is lawful and in full frames; after the end of listening, reply or not, the uplink is everything captured and the padding of its last frame; if the reply came first it is all whole frames captured; if the turn failed, a beginning of that |
| VoiceUplink.UplinkIsResampled | components/pogvoice/pogvoice.c:946-1000 | for every script whose listening iterations carry the resampler's output for the microphone's blocks, the uplink is the one-pass resampling of the signal from the accepted hello on, completed to a frame, or its whole frames if the reply came first |
| VoiceUplink.ConverseWithMic | components/pogvoice/pogvoice.c:730-1006 | the loop run with the resampler: the same for every script and every microphone signal in blocks of at most 160, without that premise |
| EffectTimeline.RefusedExactly | main/effect_sync.c:121-138 | a push is refused exactly when unsound, not after the rendered frame, a duplicate, or older than a full buffer |
| EffectTimeline.PushOrdered | main/effect_sync.c:130-148 | pushing keeps order, capacity, soundness and "not before the rendered frame" |
| EffectTimeline.EightLargest | main/effect_sync.c:130-148 | after any pushes the buffer is the ascending list of the eight largest distinct numbers |
| EffectTimeline.FirstArrival | main/effect_sync.c:134-135 | each buffered frame is the first that arrived with its number |
| EffectTimeline.ShownSound | main/effect_sync.c:163-178 | whenever a next frame exists the target lies in [start, end), and what is shown lies in [0, 1] |
| EffectTimeline.ShownByArrival | main/effect_sync.c:151-189 | without UTC, in the frame's own fields: exactly when something is shown, and which frame |
| EffectTimeline.ShownByUtc | main/effect_sync.c:151-189 | the same by presentation times once UTC is valid and the first frame carries one |
| EffectTimeline.ShownProportionally | main/effect_sync.c:169-179 | the values shown are moved towards the next frame's in proportion to the time passed between the two |
| EffectTimeline.BetweenEndpoints | main/effect_sync.c:173-177 | blending is the current frame at its own time and would reach the next frame's values at that frame's time |
| EffectTimeline.NeverBackwards | main/effect_sync.c:121-189 | over any windowed run rendered numbers never decrease between resets and nothing buffered is older than the last rendered |
| EffectSync.Sync.Join | main/effect_sync.c:85-105 | exactly which arguments join, and the fresh state that follows |
| EffectSync.UuidExactly | main/effect_sync.c:11-23 | the identifiers accepted are exactly five groups of 8, 4, 4, 4 and 12 hexadecimal digits between hyphens |
| EffectSync.Sync.Leave | main/effect_sync.c:107-114 | leaving needs the joined group and clears everything |
| EffectSync.Sync.Cancel | main/effect_sync.c:116-119 | everything is cleared |
| EffectSync.Sync.PushFrame | main/effect_sync.c:121-149 | the in-place push performs the timeline's push |
| EffectSync.Sync.Sample | main/effect_sync.c:151-189 | the in-place sampling shows the interpolated frame and drops what precedes it |
| SpdifFramer.FramingLaw | main/audio/audio_output_spdif.c:185-188 | B exactly at sub-frames divisible by 384, W at odd ones, M at the others, and data word j encodes sample j |
| SpdifFramer.ByteLaw | main/audio/audio_output_spdif.c:169-176 | data word j in terms of the bytes written: the high byte's code in the lower half, the low byte's code, inverted by the other's sign, in the upper half, top bit clear |
| SpdifFramer.FramedGrows | main/audio/audio_output_spdif.c:182-193 | a sent buffer continues the framing by exactly one half block |
| SpdifFramer.Framer.BufInit | main/audio/audio_output_spdif.c:152-157 | the toggle fills alternating M and W preambles |
| SpdifFramer.Framer.Flush | main/audio/audio_output_spdif.c:217-224 | a flush drops pending samples and restarts the alignment with a block start |
| SpdifFramer.Framer.Write | main/audio/audio_output_spdif.c:166-195 | a write extends the sample stream whose framing has been sent |
| SpdifFramer.Framer.WriteAll | main/audio/audio_output_spdif.c:166-195 | any partition into writes sends the framing of the whole stream, with fewer than 192 samples pending |
| EnrolProtocol.StepStaysForgotten | components/pogdev/pogdev_enrol.c:393-472 | no step but a reboot or a failing forget touches a forgotten device |
| EnrolProtocol.ForgottenExactly | components/pogdev/pogdev_enrol.c:563-600 | from a forgotten device, in every interleaving without reboot, memory and storage are empty and the latch set if and only if the latest forget succeeded |
| EnrolProtocol.SealedExactly | components/pogdev/pogdev_enrol.c:586-597 | no continuation without reboot or forget can bring back a credential or a stored value if and only if the latest forget succeeded |
| EnrolProtocol.FailedForgetReopens | components/pogdev/pogdev_enrol.c:595-597 | a run from boot in which a forget succeeds, a second one fails, and a waiting answer then stores credentials |
| EnrolProtocol.LatchNeeded | components/pogdev/pogdev_enrol.c:264-269 | a waiting answer is stored exactly when the latch is not set |
| EnrolProtocol.MemoryMatchesStorage | components/pogdev/pogdev_enrol.c:141-289 | over every run in which no section stops halfway, credentials and secret in memory are those in storage |
| EnrolProtocol.RebootRestores | components/pogdev/pogdev_enrol.c:105-135 | from such a state a reboot and a load bring back the same credentials and secret |
| EnrolProtocol.HostUpdateExact | components/pogdev/pogdev_enrol.c:621-652 | for every call, exactly which storage failures during a host update leave memory and storage apart |
| EnrolProtocol.TornUpdate | components/pogdev/pogdev_enrol.c:640-643 | a failing port write leaves the new host with the old port after a reboot |
| EnrolProtocol.UnsavedSecret | components/pogdev/pogdev_enrol.c:147-169 | a secret whose write failed is accepted by the next call and lost by a reboot |
| ClaimSecret.DrawExact | components/pogdev/pogdev_enrol.c:151-169 | drawing a secret leaves memory and storage in agreement exactly when storage opens and the write succeeds, or it held that secret |
| ClaimSecret.SavedSinceDraw | components/pogdev/pogdev_enrol.c:141-170 | the secret that the first call draws is in storage at any later time if and only if that call wrote it and no failing forget has since erased it |
| ClaimSecret.SecretSavedExactly | components/pogdev/pogdev_enrol.c:105-600 | over every run from boot, with loads, answers, forgets and reboots: whether the secret in memory is in storage follows exactly from the outcomes of the storage calls |
| Enrolment.Enrol.LoadState | components/pogdev/pogdev_enrol.c:105-135 | credentials are loaded exactly when not forgetting and all three keys can be read; they are those in storage unless the port cannot be read |
| Enrolment.Enrol.EnsureClaimSecret | components/pogdev/pogdev_enrol.c:141-170 | exactly when it succeeds and when it refuses; a secret drawn here is stored exactly when its write succeeds |
| Enrolment.Enrol.ProvisioningStore | components/pogdev/pogdev_enrol.c:174-201 | exactly when a proof is malformed, refused while forgetting, or stored; success stores both parts |
| Enrolment.Enrol.ProvisioningClear | components/pogdev/pogdev_enrol.c:203-231 | exactly when it succeeds; no proof is then left, whether there was one or not, and nothing else changes |
| Enrolment.Enrol.StoreCreds | components/pogdev/pogdev_enrol.c:264-289 | success leaves the same credentials in memory and storage; failure leaves memory alone; exactly when which |
| Enrolment.Enrol.EndCollect | components/pogdev/pogdev_enrol.c:402-472 | an answer after a forget changes nothing; adoption is reported exactly when all credentials are stored |
| Enrolment.Enrol.UpdateServerHost | components/pogdev/pogdev_enrol.c:621-655 | exactly when the host moves; memory and storage then still agree, and otherwise memory is left alone |
| Enrolment.Enrol.EnrolGet | components/pogdev/pogdev_enrol.c:543-554 | credentials are handed out exactly when held and not forgetting |
| Enrolment.Enrol.ForgetAll | components/pogdev/pogdev_enrol.c:563-600 | success is exactly an empty, latched device; failure lifts the latch and keeps the credentials in memory |
| Enrolment.RunForgotten | components/pogdev/pogdev_enrol.c:393-655 | any sequence of calls on a forgotten device hands out nothing and stores nothing, sealed exactly as long as its latest forget succeeded |

## Left out

- VoiceResampler.Resampler.Init: takes the rounded coefficients as an argument; the sinc and window design and its floating-point rounding are not modelled.
- VoiceCallers.ReplyToSpeaker: every write to the speaker succeeds.
- ArtInit.FixedRatioInit: the filters are a parameter, rates are whole numbers, and the threaded and extrapolating options are not modelled.
- ArtResampler.Resampler.Process: exact real arithmetic instead of floating point, frames instead of per-channel buffers, and fixed-ratio contexts only; the flush, extrapolation, advance and threaded paths of the resampler are not used by the application.
- ArtFilters.InterpolationUnneeded: the filters are abstract rows; without lowpass it assumes that filter zero is the identity tap, which the sinc gives in exact arithmetic.
- JitterBuffer.AudioBuffer.QueueChunk: a slot's bytes beyond its payload and the statistics counters are not modelled.
- JitterProtocol.NoLostWakeup: a flush's clearing and draining are one step; a producer between the two is not modelled.
- JitterProtocol.SoloBalanced: needs at least two slots; the firmware has a thousand.
- MessageAssembly.Message.FeedPiece: null pointers are not modelled; a piece always carries its bytes.
- ClaimSecret.SecretSavedExactly: assumes that no secret is drawn twice.
- WakeProtocol.WakeSafety: assumes fewer than 2^32 generation changes during one job, and leaves retry times out; what the microphone, the engine and the voice service do is unconstrained.
- VoiceTurn.Conversation: codec, transport and deadline outcomes are parameters of each iteration; state texts and the final drain of the speaker are not modelled.
- VoiceUplink.ConverseWithMic: the resampler is handed over as the accepted hello initialises it.
- EffectSync.Sync.Sample: real instead of floating-point blending; infinities and not-a-number inputs do not exist in the model.
- SpdifFramer.Framer.Write: the 256-entry biphase table is a parameter, and I2S writes always complete.
- Enrolment.Enrol.EndCollect: HTTP and JSON are reduced to the three outcomes that matter; buffers never truncate.
- Enrolment.Enrol.Persist: a value that was set stays set even if the commit fails.
- Origin parsing, the v3 packet codec and the playout counter of the voice component: small round trips and range checks.
- Settings, playback control, buttons, LED effects, displays, DAC drivers, mDNS, MQTT, web and build scripts: hardware plumbing or presentation.
