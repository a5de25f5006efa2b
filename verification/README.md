# AEC3 and NetEq: index arithmetic, fixed point and buffers

This project models the stateful core of WebRTC's AEC3 echo canceller and NetEq jitter buffer and proves properties of
it with Dafny 4.11. `dafny verify dfyconfig.toml` checks all of it.

| file | component |
|---|---|
| SerialNumber, NackSpec, PlayoutTime, NackTracker | lost packets in a map keyed by wrapping 16-bit sequence numbers, against a list over unbounded integers; when they will be played, from wrapping 32-bit timestamps |
| AudioVector, AudioMultiVector, Accelerate | the growable sample ring against plain sequences, the Q14 cross-fade, time compression |
| RenderDelaySpec, RingBuffers, RenderDelay | four render rings, their alignment and their resets, against counts of blocks |
| Histogram, DelayManager | the Q30 inter-arrival distribution and its rescaling, the delay limits and the target level |
| CapturePath | sub-frames to blocks and back, the fixed delay, and the driver around a block processor |
| Common, Circular, SimdLanes | sums, products, steps around a ring, four numbers at once |
| MatchedFilter | the matched filter, scalar and four lanes |
| AdaptiveFirFilter, FilterSize | the partitioned filter, scalar and four lanes, and its changes of size |
| ReverbDecay | the two incremental regressions of the reverb estimator and the regions they run over |
| FilterSections | the division of the filter into sections and the search for the active ones |
| LagAggregator | the histogram of the last 250 lags |
| BackgroundNoise | the energy threshold in two words |

Code that changes state is a class or a method with loops, proved against functions over values; the lemmas are about
those functions. Samples that are only moved are opaque or integers; where arithmetic matters, `float` is a real number.
Integers are unbounded, and the places where the code relies on 16, 32 or 64 bits are written out: sequence numbers,
timestamps and lengths of sections wrap, histogram buckets saturate, and the Q14 mix, the quantile search and the energy
threshold are shown to stay in range.
`std::vector` and `std::map` members are sequences; a map is the sequence of its entries in iteration order, and its
searches probe in an arbitrary order, so that nothing depends on the shape of a tree.

Sequence numbers are compared as in section 3.2 of RFC 1982 with SERIAL_BITS = 16, and numbers exactly half the space
apart by their raw value.

Results about the code that its comments do not say, or say differently:

- `Accelerate`: in fast mode several pitch periods can be removed, but the reported length change is a single one
  (neteq/time_stretch.cc:146-151). The guard of about 30 ms is sure to leave room exactly when at most 119 samples per
  8 kHz are removed (`GuardExact`): in fast mode when the remainder of 15 ms by the period is at least one sample per
  8 kHz. `GuardTooWeak` has two inputs that pass the guard and are too short: 239 samples at 8 kHz with period 60, and
  956 at 32 kHz with period 159, which does not divide 15 ms.
- `NackTracker`: a threshold above half the number space, or above 65535 with a small remainder, makes the 16-bit age
  test disagree with the age in packets; `ThresholdExact` has the exact condition. The numbers in the list are right for
  every threshold.
- `NackTracker`: the time to play is wrong exactly for packets that are overdue, or 2^32 samples away, when it is
  computed (`TimeToPlayExact`). A packet that is first missed after it was due gets a time of about a day
  (`OverdueLooksFar`), and keeps it, less 10 ms at a time, until it arrives or another packet is decoded.
- `DelayManager`: the effective minimum delay is not recomputed when the packet length changes or is reset.
  `EffectiveMinimumGoesStale` is a run that ends above the bound, `PacketLengthKeepsBound` and `ResetKeepsBound` say
  exactly when the bound holds. A stale minimum also outlives the setters: `SetterRestoresBound` has the exact
  condition, `StaleMinimumSurvives` a run.
- `RenderDelayBuffer`: a default delay of zero lets the read position start ahead of the write position;
  `DefaultDelayNeeded` has the exact condition.
- `Histogram`: the start distribution sums to one only from 14 buckets on (neteq/histogram.cc:103-115).
- `SetSectionsBoundaries`: the boundaries rise strictly exactly when there is a block for every section; a headroom
  beyond the filter wraps the 64-bit difference, and then all boundaries between the first and the last are zero.
- `ReverbDecayEstimator`: the section arrays need a filter of at least 9 blocks; the code checks for more than 3.
  `SectionsNeedNineBlocks` has the exact condition, `FourBlocksAreTooFew` an input.
- `ReverbDecayEstimator`: with exactly nine completed sections the tail is empty, and the code compares with the element
  after it (aec3/reverb_decay_estimator.cc:388-390): a section that this analysis did not complete, or for a filter of
  18 blocks what lies past the end of the array.
- `AdaptiveFirFilter`: a gradual change starts from the size that the last finished change ended on, not from the size
  in force. `NewChangeStartsOver` orders the same change again one block before it is over, and the size jumps back
  from 19 to 11.
- `BackgroundNoise`: read as one number in two words, the update is exactly the simple one that the comment at
  neteq/background_noise.cc:181-185 says it is not.

## Model

| member | source | states |
|---|---|---|
| SerialNumber.NewerIsAsymmetric | neteq/nack_tracker.cc:73-75 | of two different sequence numbers exactly one is newer, also when they are half the number space apart |
| SerialNumber.NewerIsNotTransitive | neteq/nack_tracker.cc:71-75 | the comparison is not an order on all numbers: a concrete cycle |
| SerialNumber.NewerUnwrapped | neteq/nack_tracker.cc:101-103 | within less than half the number space the comparison is the order of the unwrapped integers |
| SerialNumber.UnwrapIsNearest | neteq/nack_tracker.cc:73-81 | a number stands for the nearest integer to the newest one, and is newer exactly when that integer is larger |
| NackSpec.RunList | neteq/nack_tracker.cc:50-84 | after every run of packets, across any number of wrap-arounds, the list is exactly the numbers after the first packet that were never received and lie within the limit of the newest, oldest first |
| NackSpec.RunReceived | neteq/nack_tracker.cc:50-84 | the newest number is the greatest of the unwrapped packets, and the received ones are exactly those |
| NackSpec.RunFloor | neteq/nack_tracker.cc:206-210 | the window starts at the first packet or at the limit below the newest, whichever is later |
| NackSpec.UnwrappedValues | neteq/nack_tracker.cc:50-84 | each packet stands for one integer that wraps to its sequence number |
| NackSpec.ReceiveConsistent | neteq/nack_tracker.cc:50-84 | every received packet keeps the window no wider than the limit and everything received at or below the newest |
| NackSpec.ForgetList | neteq/nack_tracker.cc:196-210 | giving up what is below a bound keeps exactly the listed numbers from the bound on |
| PlayoutTime.SamplesPerPacketExact | neteq/nack_tracker.cc:86-95 | for a sender with evenly spaced timestamps the number of samples in a packet comes out right across any gap of up to half the number space, also when numbers and timestamps wrap |
| PlayoutTime.EstimateExact | neteq/nack_tracker.cc:116-119 | and the estimated timestamp of every skipped packet is the one that the sender gave it |
| PlayoutTime.TimeToPlayExact | neteq/nack_tracker.cc:212-215 | the time to play is the true one, in whole milliseconds, if and only if the packet is not overdue and is less than 2^32 samples away |
| PlayoutTime.OverdueLooksFar | neteq/nack_tracker.cc:131-136 | a packet that was due 40 ms before it was first missed gets a time to play of 89478465 ms |
| PlayoutTime.TimeLeftAbove | neteq/nack_tracker.cc:212-226 | more than m milliseconds are left exactly when the packet is at least m + 1 milliseconds of samples behind what has been played |
| PlayoutTime.DecodeInTime | neteq/nack_tracker.cc:161-164 | counted from a newly decoded packet, every later one up to half the number space away is in time |
| Gaps.MissingRemove | neteq/nack_tracker.cc:70-71 | a late packet takes exactly its own entry out |
| Gaps.MissingExtend | neteq/nack_tracker.cc:131-137 | a jump appends exactly the run of numbers that was skipped |
| Gaps.MissingDrop | neteq/nack_tracker.cc:206-210 | raising the lower end of the window drops a prefix |
| NackTracker.ThresholdExact | neteq/nack_tracker.cc:106-133 | the 16-bit age test agrees with the age in packets for every entry the list can hold if and only if the threshold, taken modulo 65536, is at most half the number space and either was below 65536 or is at least 500 |
| NackTracker.UnusableThreshold | neteq/nack_tracker.cc:106-133 | for every other threshold a newest number and an age in the list that the test judges wrongly |
| NackTracker.ErasedRepresents | neteq/nack_tracker.cc:70-75 | erasing the received number from the map removes it when it is late and changes nothing when it is new |
| NackTracker.FlaggedPrefix | neteq/nack_tracker.cc:106-114 | when an old entry survives, the flagged prefix is exactly the entries more than the threshold older than the new packet |
| NackTracker.NewFlags | neteq/nack_tracker.cc:97-138 | for every usable threshold, after the largest jump, when the map is wider than the window in which the comparison is an order and any prefix may have been flagged, the entries that survive are flagged exactly by their age |
| NackTracker.NewList | neteq/nack_tracker.cc:97-138 | for every threshold, dropping what is too old leaves exactly the next list over integers |
| NackTracker.DropPrefix | neteq/nack_tracker.cc:140-147 | removing entries from the front is giving up numbers from the old end |
| NackTracker.ForgetSplit | neteq/nack_tracker.cc:149-159 | the bound of a decoded packet splits the map where the integers split, whenever it is within half the space of the newest packet and of every listed one |
| NackTracker.TimedUpdate | neteq/nack_tracker.cc:97-138 | as long as no skipped packet is overdue, the entries added have the timestamp and the time left of their packets, and the old ones keep theirs |
| NackTracker.DecodedTimed | neteq/nack_tracker.cc:161-164 | decoding a packet sets the time of every later listed packet right, whatever was there before |
| NackTracker.WaitedTimed | neteq/nack_tracker.cc:140-147 | waiting 10 ms keeps exactly the packets with more than 10 ms left, with 10 ms less |
| NackTracker.LowerBound | neteq/nack_tracker.cc:106-110 | a search in any tree shape finds the split when the comparison has one |
| NackTracker.UpperBound | neteq/nack_tracker.cc:158-159 | the same for the other bound |
| NackTracker.Erase | neteq/nack_tracker.cc:70-71 | erasing by key in any tree shape removes that key only, and finds it when the comparison orders the map |
| NackTracker.NackTracker.UpdateLastReceivedPacket | neteq/nack_tracker.cc:50-84 | for every threshold the map holds the numbers of the list over integers, and for a usable one its flags: one call is one step of the specification; the entries keep the times of their packets while the packets carry the timestamps of the sender and no skipped one is overdue |
| NackTracker.NackTracker.MoveWindow | neteq/nack_tracker.cc:77-83 | the same for a packet newer than every received one |
| NackTracker.NackTracker.UpdateSamplesPerPacket | neteq/nack_tracker.cc:86-95 | the 32-bit difference of the timestamps divided by the 16-bit difference of the numbers |
| NackTracker.NackTracker.UpdateSampleRate | neteq/nack_tracker.cc:45-48 | whole kilohertz, rounded down |
| NackTracker.NackTracker.ChangeFromLateToMissing | neteq/nack_tracker.cc:106-114 | a prefix up to the lower bound is flagged |
| NackTracker.NackTracker.AddToList | neteq/nack_tracker.cc:121-138 | the skipped numbers are appended in order, each flagged by the 16-bit age test and with its estimated timestamp and time |
| NackTracker.NackTracker.UpdateList | neteq/nack_tracker.cc:97-104 | old entries turn missing and the skipped numbers are added |
| NackTracker.NackTracker.LimitNackListSize | neteq/nack_tracker.cc:206-210 | the entries not newer than the number before the window leave from the front |
| NackTracker.NackTracker.SetMaxNackListSize | neteq/nack_tracker.cc:196-204 | exactly the numbers more than the new limit older than the newest leave |
| NackTracker.NackTracker.UpdateLastDecodedPacket | neteq/nack_tracker.cc:149-177 | decoding only removes entries; a decoded number within half the space of the newest and of every listed one removes exactly those up to it and sets the times of the others right; the same number again removes exactly those with at most 10 ms left |
| NackTracker.NackTracker.UpdateEstimatedPlayoutTimeBy10ms | neteq/nack_tracker.cc:140-147 | expired entries leave from the front and the others come 10 ms closer |
| NackTracker.NackTracker.GetNackList | neteq/nack_tracker.cc:218-229 | the numbers of exactly the entries that are missing with more time left than the round trip, in order; for a usable threshold and times that are right, exactly the listed packets more than the threshold older than the newest that are still more than a round trip away |
| NackTracker.NackTracker.Reset | neteq/nack_tracker.cc:183-194 | the list is empty again, the sample rate and the packet size are the default ones, and the limit is kept |
| CircularViews.ChunksOfView | neteq/audio_vector.cc:48-62 | the two chunks of a copy are the view of the ring |
| CircularViews.OverlayChunks | neteq/audio_vector.cc:126-139 | writing a segment in two chunks lays it around the ring |
| CircularViews.OverlayChunksBackward | neteq/audio_vector.cc:82-96 | writing a segment in two chunks before the start lays it around the ring |
| CircularViews.AppendView | neteq/audio_vector.cc:126-139 | what is written behind the end becomes the end of the view |
| CircularViews.PrependView | neteq/audio_vector.cc:82-96 | what is written before the start becomes the start of the view |
| CircularViews.OverwriteView | neteq/audio_vector.cc:222-245 | overwriting around the ring overwrites the view |
| CircularViews.OverwrittenSamples | neteq/audio_vector.cc:222-245 | overwriting takes each sample from the new ones where they reach and leaves the others, and extends as far as needed |
| AudioVector.AlphaInRange | neteq/audio_vector.cc:247-273 | the Q14 mixing factor stays in [0, 1] and falls by the same step for every fade length |
| AudioVector.MixIsBetween | neteq/audio_vector.cc:257-268 | each mixed sample lies between its two sources and no intermediate value leaves 32 bits |
| AudioVector.MixIsRounded | neteq/audio_vector.cc:257-268 | a mixed sample is the weighted sum divided by 2^14 and rounded to the nearest integer |
| AudioVector.FadedIsLinear | neteq/audio_vector.cc:247-273 | sample k of a fade of f samples is within 1/2 + (k + 1) |s - x| / 2^14 of ((f - k) s + (k + 1) x) / (f + 1) |
| AudioVector.FadeMoves | neteq/audio_vector.cc:247-273 | between two constant signals the fade moves steadily from the old one to the new one |
| AudioVector.CrossFadedSamples | neteq/audio_vector.cc:247-273 | before the fade the old samples, in it the linear fade between the two, after it the new ones |
| AudioVector.AudioVector.WrapIndex | neteq/audio_vector.h:115-140 | an index taken around the ring, for every begin position |
| AudioVector.AudioVector.Get | neteq/audio_vector.h:115-121 | the index operator reads the sample at that place of the sequence |
| AudioVector.AudioVector.Set | neteq/audio_vector.h:119-121 | writing through the index operator changes that sample only |
| AudioVector.AudioVector.Size | neteq/audio_vector.cc:276-278 | the number of samples between begin and end around the ring |
| AudioVector.AudioVector.CopyToArray | neteq/audio_vector.cc:48-62 | copies the segment, cut at the end of the vector, for every position of the ring |
| AudioVector.AudioVector.CopyTo | neteq/audio_vector.cc:40-46 | the other vector becomes a replica |
| AudioVector.AudioVector.Clear | neteq/audio_vector.cc:36-38 | the vector is empty again |
| AudioVector.AudioVector.Reserve | neteq/audio_vector.cc:285-299 | after growth there is room for n samples beside the free slot and the contents are the same |
| AudioVector.AudioVector.PushBackArray | neteq/audio_vector.cc:126-139 | appends |
| AudioVector.AudioVector.PushFrontArray | neteq/audio_vector.cc:82-96 | prepends |
| AudioVector.AudioVector.PushBackSegment | neteq/audio_vector.cc:102-124 | appends a segment of another vector, in its two chunks |
| AudioVector.AudioVector.PushBack | neteq/audio_vector.cc:98-100 | appends another vector |
| AudioVector.AudioVector.PushFront | neteq/audio_vector.cc:64-80 | prepends another vector |
| AudioVector.AudioVector.PopFront | neteq/audio_vector.cc:141-146 | drops from the front, at most everything |
| AudioVector.AudioVector.PopBack | neteq/audio_vector.cc:148-154 | drops from the back, at most everything |
| AudioVector.AudioVector.InsertByPushBack | neteq/audio_vector.cc:301-317 | s[..p] + x + s[p..], by moving the rear part away |
| AudioVector.AudioVector.InsertByPushFront | neteq/audio_vector.cc:319-334 | the same sequence, by moving the front part away |
| AudioVector.AudioVector.InsertAt | neteq/audio_vector.cc:162-178 | whichever way is cheaper, the same insertion at the clipped position |
| AudioVector.AudioVector.InsertZerosByPushBack | neteq/audio_vector.cc:336-357 | zeros inserted by moving the rear part away, in two chunks |
| AudioVector.AudioVector.InsertZerosByPushFront | neteq/audio_vector.cc:359-380 | zeros inserted by moving the front part away, in two chunks |
| AudioVector.AudioVector.InsertZerosAt | neteq/audio_vector.cc:180-194 | whichever way is cheaper, the same zeros at the clipped position |
| AudioVector.AudioVector.Extend | neteq/audio_vector.cc:156-160 | appends zeros |
| AudioVector.AudioVector.OverwriteAtArray | neteq/audio_vector.cc:222-245 | overwrites from the clipped position and extends past the end when needed |
| AudioVector.AudioVector.OverwriteAt | neteq/audio_vector.cc:196-220 | the same with a part of another vector, in its two chunks |
| AudioVector.AudioVector.CrossFade | neteq/audio_vector.cc:247-273 | the end fades into the start of the other vector, whose rest is appended; see CrossFadedSamples for the samples |
| Interleaving.InterleaveChannels | neteq/audio_multi_vector.cc:70-154 | interleaving the channels of interleaved samples gives them back |
| Interleaving.ChannelLength | neteq/audio_multi_vector.cc:70-91 | how many samples each channel gets of any number of interleaved ones |
| Interleaving.ChannelAt | neteq/audio_multi_vector.cc:70-91 | sample k of channel c is sample k n + c of the interleaved ones |
| Interleaving.InterleaveAt | neteq/audio_multi_vector.cc:132-154 | and the other way round |
| AudioMultiVector.AudioMultiVector.PushBackInterleaved | neteq/audio_multi_vector.cc:70-91 | every channel gets its own samples appended |
| AudioMultiVector.AudioMultiVector.ReadInterleavedFromIndex | neteq/audio_multi_vector.cc:132-154 | the rows are written in interleaved order, clipped at the end, and their number is returned |
| AudioMultiVector.AudioMultiVector.CrossFade | neteq/audio_multi_vector.cc:176-184 | channel by channel, and nothing when the numbers of channels differ |
| Accelerate.RemovedInFastMode | neteq/accelerate.cc:64-71 | the greatest multiple of the pitch period that is not above 15 ms is removed |
| Accelerate.CompressedSamples | neteq/accelerate.cc:73-89 | outside the overlap the samples are the input in order, inside each is the linear fade between the two overlapped samples |
| Accelerate.PiecesCompress | neteq/accelerate.cc:73-89 | append, cross-fade and append again is one compression of the whole channel |
| Accelerate.GuardExact | neteq/accelerate.cc:25-34 | every input that passes the length guard has room for the stretch if and only if the removed length is at most 119 samples at 8 kHz, which in fast mode is 120 fsMult mod period >= fsMult |
| Accelerate.GuardLeavesRoom | neteq/accelerate.cc:25-34 | under that condition the guard leaves room, for any number of channels |
| Accelerate.GuardFails | neteq/accelerate.cc:25-34 | without it the shortest input that passes the guard is too short |
| Accelerate.GuardTooWeak | neteq/accelerate.cc:64-71 | two inputs that pass the guard and are too short in fast mode: 239 samples at 8 kHz with period 60, and 956 at 32 kHz with period 159 |
| Accelerate.GuardBoundsRemoved | neteq/accelerate.cc:64-71 | the condition on the period says exactly that at most 119 samples at 8 kHz are removed |
| Accelerate.Accelerate.CheckCriteriaAndStretch | neteq/accelerate.cc:47-98 | every channel is compressed by exactly that length when the correlation is strong or there is no speech, and copied otherwise |
| Accelerate.Accelerate.Process | neteq/accelerate.cc:20-37 | short input is copied and the reported length change left alone; a stretch reports the period, also when fast mode removes a multiple of it |
| RenderDelaySpec.Config.Sizes | aec3/aec3_common.h:73-86 | the greatest delay is the number of low-rate sub-blocks |
| RenderDelaySpec.ResetIs | aec3/render_delay_buffer.cc:144-180 | a reset leaves one unread sub-block and, without an external delay, the default delay; with one, two blocks less than it, at least one and at most the number of sub-blocks, and reports one less |
| RenderDelaySpec.RunResets | aec3/render_delay_buffer.cc:144-224 | so does every run that ends in a resetting call, with the external delay that was set last |
| RenderDelaySpec.RunExternal | aec3/render_delay_buffer.cc:307-316 | the external delay after a run is the one that was set last |
| RenderDelaySpec.ReadIndexMoves | aec3/render_delay_buffer.cc:183-305 | on every run, between resets, the block read stays with inserts, moves on by one with every capture until it is the newest, and an alignment sets it to the unread sub-blocks and the delay before the newest |
| RenderDelaySpec.BurstOverruns | aec3/render_delay_buffer.cc:183-224 | how many inserts without a capture it takes until the buffer is reset |
| RenderDelaySpec.DelayTracksAlignment | aec3/render_delay_buffer.cc:144-345 | on every run of inserts, captures, resets and alignments, a set delay bounds the computed one from above and 0 bounds it from below, with equality unless the alignment in force was clamped |
| RenderDelaySpec.ReadStaysBehind | aec3/render_delay_buffer.cc:144-345 | with a default delay of at least one block, reading never overtakes writing on any run |
| RenderDelaySpec.DefaultDelayNeeded | aec3/render_delay_buffer.cc:144-180 | the condition on the default delay is exact |
| RenderDelaySpec.LatencyCountsUnread | aec3/render_delay_buffer.cc:183-279 | the latency is one plus the inserts minus the consumed captures since the last reset, and never wraps |
| RenderDelaySpec.ExcessFiresExactly | aec3/render_delay_buffer.cc:389-411 | the excess reset fires exactly when an interval other than the first closes with the latency above the limit at all its captures and at the one that closed the interval before |
| RenderDelaySpec.StepTracks | aec3/render_delay_buffer.cc:282-305 | each single call keeps the relation between the reported and the computed delay |
| RingBuffers.MirrorIsRemainder | aec3/render_delay_buffer.cc:340-345 | slot p of one ring is slot (size - p) modulo size of its mirror image |
| RingBuffers.WriteStep | aec3/render_delay_buffer.cc:422-427 | one ring up and the other down stay mirror images |
| RingBuffers.ReadAtDelay | aec3/render_delay_buffer.cc:340-345 | setting the read positions for a delay keeps them mirror images at that distance |
| RingBuffers.PushBackward | aec3/render_delay_buffer.cc:357-379 | a block written one slot up is the newest of the history read downwards |
| RingBuffers.PushForward | aec3/render_delay_buffer.cc:357-379 | a reversed chunk written before the low-rate position is the newest of the stream read forwards |
| RingBuffers.CopyReversed | aec3/render_delay_buffer.cc:357-379 | the copy in reverse order |
| RingBuffers.Positions.IncIndex | aec3/matrix_buffer.h:27-31 | one step up around the ring |
| RingBuffers.Positions.DecIndex | aec3/vector_buffer.h:32-36 | one step down around the ring |
| RingBuffers.Positions.OffsetIndex | aec3/fft_buffer.h:38-43 | any offset within one turn, by a remainder of a sum that is not negative |
| RenderDelay.LowRateWriteStep | aec3/downsampled_render_buffer.h:26-52 | the low-rate position moves by whole sub-blocks and a copy there never crosses the end of the buffer |
| RenderDelay.RenderDelayBuffer.constructor | aec3/render_delay_buffer.cc:109-139 | the first state is the reset one |
| RenderDelay.RenderDelayBuffer.Insert | aec3/render_delay_buffer.cc:183-224 | the new block enters all four rings, whose contents stay the history and the decimated stream; overruns reset exactly when a write position meets its read position |
| RenderDelay.RenderDelayBuffer.InsertBlock | aec3/render_delay_buffer.cc:357-379 | the block, its FFT with the block inserted just before it, the spectrum and the decimated samples fill the slots at the write positions |
| RenderDelay.RenderDelayBuffer.PrepareCaptureProcessing | aec3/render_delay_buffer.cc:227-279 | excess resets, underruns and read steps as in the specification, and nothing stored changes |
| RenderDelay.RenderDelayBuffer.AlignFromDelay | aec3/render_delay_buffer.cc:282-305 | the read positions are set for the delay; repeating a delay changes nothing |
| RenderDelay.RenderDelayBuffer.Reset | aec3/render_delay_buffer.cc:144-180 | one unread sub-block and the default or external delay as in ResetIs; without an external delay the block read is the one that many blocks before the newest; write positions and contents stay |
| RenderDelay.RenderDelayBuffer.BufferLatency | aec3/render_delay_buffer.cc:414-419 | the distance of the low-rate positions in whole sub-blocks |
| RenderDelay.RenderDelayBuffer.ComputeDelay | aec3/render_delay_buffer.cc:330-337 | the distance of the block positions less the unread sub-blocks |
| RenderDelay.RenderDelayBuffer.ViewsAgree | aec3/render_buffer.h:38-49 | going back k blocks and forward k spectra reaches the same inserted block, whose FFT has the block inserted just before it |
| RenderDelay.RenderDelayBuffer.BlockRead | aec3/render_buffer.h:38-49 | the block at the read position is the inserted block as many blocks back as the gap says |
| RenderDelay.RenderDelayBuffer.Headroom | aec3/render_buffer.h:81-92 | the free slots of the FFT ring |
| RenderDelay.RenderDelayBuffer.SetAudioBufferDelay | aec3/render_delay_buffer.cc:307-316 | milliseconds become blocks, rounded down, and nothing moves until the next reset |
| RenderDelay.RenderDelayBuffer.DetectExcessRenderBlocks | aec3/render_delay_buffer.cc:389-411 | the detector takes one step of the specification |
| RenderDelay.RenderDelayBuffer.ApplyTotalDelay | aec3/render_delay_buffer.cc:340-345 | all three read positions end at that distance from their write positions |
| Histogram.DecayedSum | neteq/histogram.cc:45-49 | multiplying every bucket by the forgetting factor loses less than one unit a bucket |
| Histogram.ObservedSum | neteq/histogram.cc:45-57 | before the correction the sum is below one by less than the number of buckets, and never above |
| Histogram.CorrectionSuffices | neteq/histogram.cc:59-73 | the pass of at most a sixteenth of each bucket always absorbs the error, for up to 2^25 buckets |
| Histogram.CapacityIsLarge | neteq/histogram.cc:63-67 | what a sixteenth of every bucket can give is at least nearly a sixteenth of the sum |
| Histogram.AddedBuckets | neteq/histogram.cc:41-78 | after an observation every bucket is the decayed one, with the share of the observation in its bucket, plus at most a sixteenth; from the first bucket that gets less than its sixteenth on nothing is corrected |
| Histogram.ForgetFactorRises | neteq/histogram.cc:75-77 | the forgetting factor rises strictly to its steady value and stays there |
| Histogram.ForgetFactorConverges | neteq/histogram.cc:75-77 | it gets there after no more observations than its steady value |
| Histogram.ForgetFactorQuarter | neteq/histogram.cc:75-77 | each observation takes the factor a quarter of the way to its steady value, rounded up |
| Histogram.StartSum | neteq/histogram.cc:106-115 | the start distribution sums to exactly one from 14 buckets on, and to less with fewer |
| Histogram.StartHalves | neteq/histogram.cc:106-115 | each start bucket is half the one before in units of 2^16, rounded down, the first half of 0x4002 |
| Histogram.FillConserves | neteq/histogram.cc:135-147 | writing complete new buckets never takes more than has been gathered |
| Histogram.FillWrites | neteq/histogram.cc:135-147 | exactly as many new buckets are written as fit in the time, each with its share of what was gathered |
| Histogram.StepIsProportional | neteq/histogram.cc:125-150 | for any two widths, what is left after an old bucket is to what was gathered as the time not covered is to the time gathered, up to less than one unit for each new bucket written; the written buckets share the rest equally |
| Histogram.ScaleIsProportional | neteq/histogram.cc:125-150 | the same for every old bucket of a whole rescaling |
| Histogram.ScaledByFraction | neteq/histogram.cc:125-173 | scaling to a k-th of the width puts a k-th of every old bucket, up to less than one unit, into each of its k new ones |
| Histogram.ScaleConserves | neteq/histogram.cc:125-150 | for any two positive widths, after every old bucket the new sum and what is left add up to the old sum, and what is left is not negative |
| Histogram.ScaledConserves | neteq/histogram.cc:125-173 | rescaling creates no mass, and loses none when the total fits in 32 bits |
| Histogram.ScaledByMultiple | neteq/histogram.cc:125-173 | scaling to k times the width puts the sum of k old buckets into each new one |
| Histogram.ScaledToSameWidth | neteq/histogram.cc:125-173 | scaling to the same width changes nothing |
| HistogramRuns.RunSumsToOne | neteq/histogram.cc:41-173 | on every run of observations, rescalings and resets the buckets stay not negative, and from an observation until the next reset they sum to exactly one |
| HistogramRuns.EveryRunReaches | neteq/histogram.cc:41-173 | every run of such calls can be made |
| Histogram.Histogram.Add | neteq/histogram.cc:41-78 | after an observation the buckets are not negative and sum to exactly one, and the forgetting factor has risen |
| Histogram.Histogram.Quantile | neteq/histogram.cc:80-101 | the least bucket from 1 on up to which the buckets sum to the probability, or the last |
| Histogram.Histogram.Reset | neteq/histogram.cc:106-115 | the halving distribution and no memory |
| Histogram.Histogram.Scale | neteq/histogram.cc:121-123 | the buckets are the rescaled ones, with the same sum |
| Histogram.Histogram.ScaleBuckets | neteq/histogram.cc:125-173 | the loops compute the rescaling of the specification for any buckets and widths, which the rows above say in full |
| DelayManager.RunBounded | neteq/delay_manager.cc:398-574 | for every order of delay setters, packet lengths and resets, a set maximum bounds the minimum and the effective minimum |
| DelayManager.EffectiveAfterSetter | neteq/delay_manager.cc:500-569 | after an accepted setter the base minimum counts as far as the bound allows |
| DelayManager.EffectiveMinimumGoesStale | neteq/delay_manager.cc:398-414 | a run after which a packet length change leaves the effective minimum above the bound the buffer then gives |
| DelayManager.PacketLengthKeepsBound | neteq/delay_manager.cc:398-414 | a new packet length keeps the effective minimum within its bound if and only if that minimum is within what the new buffer time allows |
| DelayManager.ResetKeepsBound | neteq/delay_manager.cc:416-428 | a reset keeps it within its bound if and only if it is at most 10000 ms |
| DelayManager.SetterRestoresBound | neteq/delay_manager.cc:500-569 | after an accepted delay setter the effective minimum is within its bound if and only if the minimum itself is |
| DelayManager.StaleMinimumSurvives | neteq/delay_manager.cc:524-532 | a run in which a minimum that went stale outlives a later setter |
| DelayManager.LimitsAgree | neteq/delay_manager.cc:343-362 | the lower and the upper limit of the target level never cross |
| DelayManager.LevelIsNearest | neteq/delay_manager.cc:343-362 | in milliseconds: the level is at least a packet and at most three quarters of the buffer or the maximum delay, it is raised only as far as the minimum delay needs, lowered only as far as a limit needs, and kept when it is within them |
| DelayManager.LevelWithoutLength | neteq/delay_manager.cc:343-362 | while the packet length is not known only the buffer limits the level |
| DelayManager.MinimumIsKept | neteq/delay_manager.cc:343-362 | the level, in whole Q8 packets, reaches the minimum delay if and only if that fits in three quarters of the buffer, or in one packet |
| DelayManager.MaxSuffixSnoc | neteq/delay_manager.cc:295-306 | one more delay turns the largest suffix sum into the next one |
| DelayManager.DelayManager.LimitTargetLevel | neteq/delay_manager.cc:343-362 | the level moves to the nearest one within the limits, between one packet and three quarters of the buffer |
| DelayManager.DelayManager.SetMinimumDelay | neteq/delay_manager.cc:500-508 | accepted exactly within the bound, and a rejected call changes nothing |
| DelayManager.DelayManager.SetMaximumDelay | neteq/delay_manager.cc:510-522 | zero unsets; less than the minimum or a packet is rejected |
| DelayManager.DelayManager.SetBaseMinimumDelay | neteq/delay_manager.cc:524-532 | accepted from 0 to 10000 ms |
| DelayManager.DelayManager.SetPacketAudioLength | neteq/delay_manager.cc:398-414 | a positive length is taken, the effective minimum is not recomputed |
| DelayManager.DelayManager.UpdateEffectiveMinimumDelay | neteq/delay_manager.cc:552-559 | the larger of the minimum and the clamped base minimum |
| DelayManager.DelayManager.MinimumDelayUpperBound | neteq/delay_manager.cc:561-569 | not above a maximum that is set, nor above three quarters of a known buffer time, nor above 10000 ms when neither is; and one of these |
| DelayManager.DelayManager.UpdateDelayHistory | neteq/delay_manager.cc:288-293 | the history is the last hundred of all delays |
| DelayManager.DelayManager.CalculateRelativePacketArrivalDelay | neteq/delay_manager.cc:295-306 | the largest sum of a suffix of the history, or 0 |
| EchoCanceller3.PureDelay | aec3/echo_canceller3.cc:71-125 | with an identity processor every band of the output is the input delayed by 64 samples and the fixed delay |
| EchoCanceller3.DelayedSamples | aec3/echo_canceller3.cc:71-125 | sample by sample: zero for the first 64 samples and the fixed delay, then the input |
| EchoCanceller3.OutputIsProcessed | aec3/echo_canceller3.cc:71-125 | with any processor the output is 64 zeros and then the processed blocks in order |
| EchoCanceller3.CatAllIsFlat | aec3/echo_canceller3.cc:313-361 | the stream of a band is its frames one after the other |
| Bands.FlatSamples | aec3/echo_canceller3.cc:313-361 | sample t of block i of a band is sample i len + t of its stream |
| EchoCanceller3.FramedSubFrame | aec3/echo_canceller3.cc:71-86 | a sub-frame moves 16 samples from the framer to the blocker, so that together they always hold one block |
| EchoCanceller3.FramedRemaining | aec3/echo_canceller3.cc:88-103 | a full blocker and an empty framer trade places |
| EchoCanceller3.DelayedFrame | aec3/block_delay_buffer.cc:25-45 | the fixed delay stays one over any number of frames |
| EchoCanceller3.OnlyCapturedKeepsBlocked | aec3/echo_canceller3.cc:375-398 | processing capture blocks does not disturb the render path |
| EchoCanceller3.BlockedSubFrame | aec3/echo_canceller3.cc:105-115 | a render sub-frame is in the handed-on blocks or still stored |
| EchoCanceller3.EchoCanceller3.OutputIsDelayedInput | aec3/echo_canceller3.cc:313-361 | the pure delay of one band, in every state that the calls can reach with a processor that hands every well-shaped block back |
| EchoCanceller3.EchoCanceller3.AllBandsDelayed | aec3/echo_canceller3.cc:313-361 | the same for all bands at once |
| EchoCanceller3.EchoCanceller3.ProcessFrames | aec3/echo_canceller3.cc:313-361 | a run of capture frames gives as many output frames, and an identity processor makes them the delayed input |
| EchoCanceller3.RunIdentity | aec3/echo_canceller3.cc:313-361 | a new canceller around a concrete identity processor: over any run of frames its output is the input delayed by 64 samples and the fixed delay |
| EchoCanceller3.EchoCanceller3.OutputIsAnswers | aec3/echo_canceller3.cc:313-398 | the processed blocks and the render blocks in order, in every state that the calls can reach |
| EchoCanceller3.EchoCanceller3.ProcessCapture | aec3/echo_canceller3.cc:313-361 | every frame gives a frame, render blocks are handed on first, the streams grow by exactly that frame, and every size check holds |
| EchoCanceller3.EchoCanceller3.ProcessCaptureFrameContent | aec3/echo_canceller3.cc:71-86 | the sub-frame in the frame is replaced by the next 80 output samples |
| EchoCanceller3.EchoCanceller3.ProcessRemainingCaptureFrameContent | aec3/echo_canceller3.cc:88-103 | a full block is processed at the end of a frame |
| EchoCanceller3.EchoCanceller3.EmptyRenderQueue | aec3/echo_canceller3.cc:375-398 | all waiting render frames go on in order, at 8 kHz with one sub-frame and otherwise with two |
| EchoCanceller3.EchoCanceller3.BufferRenderFrameContent | aec3/echo_canceller3.cc:105-115 | the next render block is handed on |
| BlockProcessing.IdentityCopies | aec3/echo_canceller3.cc:71-86 | a processor that hands well-shaped blocks back answers a well-shaped input with that input |
| BlockProcessing.EchoIsIdentity | aec3/echo_canceller3.cc:71-86 | such a processor exists, and keeps the shape that the canceller asks for |
| Framing.FrameBlocker.InsertSubFrameAndExtractBlock | aec3/frame_blocker.cc:28-50 | block and rest are what was stored followed by the sub-frame, in every band |
| Framing.FrameBlocker.ExtractBlock | aec3/frame_blocker.cc:56-68 | the stored block leaves and nothing is stored |
| Framing.BlockFramer.InsertBlockAndExtractSubFrame | aec3/block_framer.cc:39-58 | sub-frame and rest are what was stored followed by the block, written into the frame in place |
| Framing.BlockFramer.InsertBlock | aec3/block_framer.cc:30-37 | the block is stored |
| BlockDelay.SwapOne | aec3/block_delay_buffer.cc:35-40 | swapping a sample with a slot takes the oldest out and puts the new one in last |
| BlockDelay.BlockDelayBuffer.DelaySignal | aec3/block_delay_buffer.cc:25-45 | in every band the frame and what is pending are what was pending followed by the input, for any delay and frame length |
| MatchedFilterSpec.PosteriorError | aec3/matched_filter.cc:273-292 | an update leaves the fraction 1 - smoothing of the error for the sample it adapted to |
| MatchedFilterSpec.FlagIsExact | aec3/matched_filter.cc:278-292 | the flag is set if and only if for some sample the power of the covered signal exceeds the threshold while the captured sample is not saturated |
| MatchedFilterSpec.ErrorSumIs | aec3/matched_filter.cc:273-281 | the error sum grows by the sum of the squared errors, each the captured sample less the output of the filter as it then is, and is unchanged if and only if all errors are zero |
| MatchedFilterSpec.ErrorSumOfZero | aec3/matched_filter.cc:273-281 | a zero filter that never adapts adds the energy of the captured samples |
| MatchedFilterSpec.AdaptedFilter | aec3/matched_filter.cc:282-290 | coefficient k moves by smoothing times error by power times the render sample k steps from the start index, around the buffer |
| MatchedFilterSpec.CorrelationChanges | aec3/matched_filter.cc:263-271 | a coefficient counts in the output with the render sample that it is paired with |
| MatchedFilterSpec.PowerGrows | aec3/matched_filter.cc:263-271 | the power of the covered signal is the sum of the squares of its samples, around the buffer |
| MatchedFilterSpec.UnflaggedIsUnchanged | aec3/matched_filter.cc:273-292 | without the flag the filter is as before, and the error sum never falls |
| MatchedFilterSpec.StartGoesBack | aec3/matched_filter.cc:297 | the start index goes back by one for every sample, around the buffer |
| MatchedFilterSpec.MovedCorrelation | aec3/matched_filter.cc:282-290 | moving the filter along the signal changes its output by the step times the power |
| MatchedFilter.MatchedFilterCore | aec3/matched_filter.cc:258-299 | the scalar circular loops compute the specification for any start index and number of samples |
| MatchedFilterLanes.MatchedFilterCoreSse2 | aec3/matched_filter.cc:147-255 | four lanes, scalar tails and two chunks give the same filter, error sum and flag, whenever the filter is no longer than the buffer |
| MatchedFilterLanes.FilterSse2 | aec3/matched_filter.cc:161-202 | the two inner products of the four-lane form are those of the scalar form |
| MatchedFilterLanes.MoveSse2 | aec3/matched_filter.cc:210-250 | the four-lane update is the scalar one |
| MatchedFilterLanes.FourTerms | aec3/matched_filter.cc:178-190 | four steps of the inner products are one vector operation |
| Circular.ChunksAreStraight | aec3/matched_filter.cc:170-176 | the circular indices fall into two straight chunks |
| Circular.AdvanceIs | aec3/matched_filter.cc:265-269 | stepping around the buffer is adding and wrapping once |
| Circular.AdvanceIsRemainder | aec3/matched_filter.cc:265-269 | any number of steps is the remainder of the sum by the size |
| FirSpec.AdaptedResponse | aec3/adaptive_fir_filter.cc:136-151 | adapting moves the output of the filter by G times the power of the covered render signal, in every bin |
| FirSpec.AdaptedBins | aec3/adaptive_fir_filter.cc:136-151 | real and imaginary part of every bin of every partition move by the conjugate of its circular buffer entry times G |
| FirSpec.ResponseChanges | aec3/adaptive_fir_filter.cc:276-293 | a bin of a partition counts in the output with the complex product by its buffer entry, and only there |
| FirSpec.PowerInGrows | aec3/adaptive_fir_filter.cc:136-151 | the covered power in a bin is the sum of the squared magnitudes of the buffer entries |
| FirScalar.AdaptPartitions | aec3/adaptive_fir_filter.cc:136-151 | every partition moves by G times the conjugate of its circular buffer entry |
| FirScalar.ApplyFilter | aec3/adaptive_fir_filter.cc:276-293 | the output is the sum over the partitions of buffer entry times partition |
| FirLanes.AdaptPartitionsSse2 | aec3/adaptive_fir_filter.cc:213-272 | four bins at a time, two chunks and a separate last bin adapt the same partitions |
| FirLanes.ApplyFilterSse2 | aec3/adaptive_fir_filter.cc:357-414 | and give the same output |
| FirLanes.AdaptedFour | aec3/adaptive_fir_filter.cc:233-258 | four bins of a partition at once are four bins one by one |
| FirLanes.SumsFour | aec3/adaptive_fir_filter.cc:375-394 | four bins of the sum at once are four bins one by one |
| FilterSize.EndsOnTarget | aec3/adaptive_fir_filter.cc:511-532 | after a change is ordered the size stays within bounds, after as many blocks as the change takes it is exactly the target, and from then on the target is where the next change starts |
| FilterSize.GradualChange | aec3/adaptive_fir_filter.cc:474-532 | n blocks after a change was ordered the size is the whole part of the straight line from the old size to the new one |
| FilterSize.OldTargetStays | aec3/adaptive_fir_filter.cc:511-532 | until a change is over it starts from the same size |
| FilterSize.NewChangeStartsOver | aec3/adaptive_fir_filter.cc:474-532 | ordering the same change again before it is over lets the size jump back: one block short of going from 10 to 20 it is 19, and the block after the order 11 |
| FilterSize.OldTargetFollows | aec3/adaptive_fir_filter.cc:511-532 | once a change is over, one block more makes the target the size that the next change starts from |
| FilterSize.BetweenMoves | aec3/adaptive_fir_filter.cc:518-526 | on the way it never turns back |
| FilterSize.UpdatedInRange | aec3/adaptive_fir_filter.cc:511-532 | one block keeps the size between 1 and the maximum |
| FilterSize.WeightedBetween | aec3/adaptive_fir_filter.cc:518-526 | a weighted average lies between its ends and moves with the weight |
| AdaptiveFirFilter.AdaptiveFirFilter.ResetFilterBuffersToCurrentSize | aec3/adaptive_fir_filter.cc:493-509 | the three buffers keep what remains, new parts are zero, and the partition to constrain stays inside |
| AdaptiveFirFilter.AdaptiveFirFilter.SetSizePartitions | aec3/adaptive_fir_filter.cc:474-491 | at once or gradually, with the buffers in step |
| AdaptiveFirFilter.AdaptiveFirFilter.UpdateSize | aec3/adaptive_fir_filter.cc:511-532 | one step of the change, with the buffers in step |
| AdaptiveFirFilter.AdaptiveFirFilter.Constrain | aec3/adaptive_fir_filter.cc:599-616 | one partition is cut to its first half in time, the others are untouched, and the turn goes on around |
| Regression.AffineNumerator | aec3/reverb_decay_estimator.cc:56-59 | the regression numerator of a straight line is its slope times N(N^2-1)/12 |
| Regression.SumOfSquares | aec3/reverb_decay_estimator.cc:56-59 | N(N^2-1)/12 is the sum of the squared centred indices, and positive |
| Regression.NumeratorChanges | aec3/reverb_decay_estimator.cc:288-301 | each point counts in the numerator with its distance from the middle |
| LeastSquares.SlopeIsBest | aec3/reverb_decay_estimator.cc:294-301 | the numerator over N(N^2-1)/12 is the slope with the least squared error, whatever the intercept, and the only one |
| EarlyReverb.ContributionIsNumerator | aec3/reverb_decay_estimator.cc:320-356 | a completed section holds the numerator of the direct centred regression over its six blocks |
| EarlyReverb.ContributionNext | aec3/reverb_decay_estimator.cc:330-341 | which sections a point belongs to and with which weight |
| EarlyReverb.EarlyReverbLengthEstimator.UpdateSections | aec3/reverb_decay_estimator.cc:323-341 | the running amount adds to every section its own share |
| EarlyReverb.EarlyReverbLengthEstimator.Accumulate | aec3/reverb_decay_estimator.cc:320-356 | at the end of a block the section six blocks wide is smoothed towards its regression |
| EarlyReverb.EarlyInSlopes | aec3/reverb_decay_estimator.cc:364-371 | the limits on the numerators are limits on slopes: growth by a tenth a block, or decay to four fifths a block and faster than nine tenths of the slope of the tail |
| EarlyReverb.EarlyReverbLengthEstimator.Estimate | aec3/reverb_decay_estimator.cc:358-400 | zero with fewer than nine sections; otherwise one past the last early section of the first nine, or zero when that is the first; the tail is the least of the completed sections after the ninth, and with exactly nine the element after them |
| EarlyReverb.EarlyReverbLengthEstimator.MinElement | aec3/reverb_decay_estimator.cc:388-390 | the first least element of a range, or its end when it is empty |
| LateReverb.LateReverbLinearRegressor.Estimate | aec3/reverb_decay_estimator.cc:294-301 | the slope of the least squares line over the points, exact for every straight line, and never a division by zero |
| LateReverb.LateReverbLinearRegressor.Accumulate | aec3/reverb_decay_estimator.cc:288-292 | the running sum is the tilt of the points so far |
| LateReverb.LateReverbLinearRegressor.Reset | aec3/reverb_decay_estimator.cc:274-286 | ready for the given number of points |
| ReverbDecayEstimator.ReverbDecayEstimator.Update | aec3/reverb_decay_estimator.cc:102-145 | for every sequence of calls the section index stays inside the array and the regions stay in step with the regressors; a filter quality of at most 5 keeps the decay between 0.02 and 0.95 and lets it fall by at most 3 percent a call |
| ReverbDecayEstimator.ReverbDecayEstimator.AnalyzeFilter | aec3/reverb_decay_estimator.cc:222-261 | the points of a block go to the regressors of the regions it lies in |
| ReverbDecayEstimator.ReverbDecayEstimator.EstimateDecay | aec3/reverb_decay_estimator.cc:158-220 | the next regions from the size of the early reverb, and a new decay from the slope of the analyzed points exactly when the late region is long enough, the filter valid and the region completely analyzed |
| ReverbDecayEstimator.ReverbDecayEstimator.UpdateDecay | aec3/reverb_decay_estimator.cc:183-195 | a new decay from the slope of the analyzed points, exactly under those conditions |
| ReverbDecayEstimator.SmoothedDecayInRange | aec3/reverb_decay_estimator.cc:188-194 | the smoothed decay moves towards its limited target and not beyond, falls by at most 3 percent, and stays between the limits |
| ReverbDecayEstimator.DecayFollowsEstimate | aec3/reverb_decay_estimator.cc:187-194 | the target is the estimate where that is between 0.02 and 0.95 and at most 3 percent down, and otherwise the nearest value that is; the decay goes its part of the way there |
| ReverbDecayEstimator.SectionsNeedNineBlocks | aec3/reverb_decay_estimator.cc:303-309 | of the filter lengths that pass the check, exactly those from 9 blocks on give the section arrays as many elements as sections fit; shorter ones ask for more than half of all 64-bit sizes |
| ReverbDecayEstimator.FourBlocksAreTooFew | aec3/reverb_decay_estimator.cc:86-98 | a filter of 4 blocks passes the check and asks for 2^64 - 5 sections |
| ReverbDecayEstimator.ReverbDecayEstimator.AvailableWhenAnalyzed | aec3/reverb_decay_estimator.cc:222-261 | an estimate is there if and only if the analysis has passed the end of the late region |
| FilterSections.SizesAre | aec3/signal_dependent_erle_estimator.cc:46-72 | the section sizes never fall, add up to the filter length, and each is at least what all could have |
| FilterSections.SizesDouble | aec3/signal_dependent_erle_estimator.cc:46-72 | the sizes double from one on as long as the rest is longer than all sections of that size, and the remaining sections share the rest evenly, the last with the remainder |
| FilterSections.StrictlyAscendingBoundaries | aec3/signal_dependent_erle_estimator.cc:77-108 | for every headroom, also beyond the filter, the boundaries rise strictly if and only if there is a block for every section |
| FilterSections.DefineFilterSectionSizes | aec3/signal_dependent_erle_estimator.cc:46-72 | the loops compute the doubling sizes and even shares of the 64-bit difference |
| FilterSections.SetSectionsBoundaries | aec3/signal_dependent_erle_estimator.cc:77-108 | with a block for every section each boundary is the one before plus the section size, from the headroom to the number of blocks; with fewer each block is a boundary and the rest stay zero, also when the 64-bit difference wraps |
| SignalDependentErle.EchoPowerGrows | aec3/signal_dependent_erle_estimator.cc:347-354 | non-negative powers add up to a growing echo power |
| SignalDependentErle.SectionPowerIs | aec3/signal_dependent_erle_estimator.cc:313-355 | the power of a section is render power times filter power over its blocks, cut at the end of the filter, and the echo power of a section is that of the one before plus its own |
| SignalDependentErle.PowersAdd | aec3/signal_dependent_erle_estimator.cc:313-355 | render and filter power add up block by block, the render buffer around the ring |
| SignalDependentErle.SignalDependentErleEstimator.ComputeEchoEstimatePerFilterSection | aec3/signal_dependent_erle_estimator.cc:313-355 | the power of render signal times filter, section by section and then accumulated, around the ring |
| SignalDependentErle.SignalDependentErleEstimator.ComputeActiveFilterSections | aec3/signal_dependent_erle_estimator.cc:357-368 | for every bin the least section that reaches 90 percent of the whole |
| SignalDependentErle.SignalDependentErleEstimator.PowersGrow | aec3/signal_dependent_erle_estimator.cc:313-368 | the accumulated powers meet what the search for the least section needs |
| LagWindow.ReportIsFrequent | aec3/matched_filter_lag_aggregator.cc:75-91 | a reported delay is a non-zero lag that none beats in the last 250, above the threshold of its quality |
| LagWindow.ReportsExactly | aec3/matched_filter_lag_aggregator.cc:60-91 | a delay is reported if and only if a non-zero lag is in the last 250 more often than the converged threshold or, while none ever was, the initial one; it is the first most frequent non-zero lag, refined once one was above the converged threshold |
| LagWindow.RefinedStays | aec3/matched_filter_lag_aggregator.cc:79-88 | after a refined report all later ones are refined until a hard reset |
| LagWindow.CandidateIsFirstMaximum | aec3/matched_filter_lag_aggregator.cc:75-77 | the candidate is the first most frequent lag |
| MatchedFilterLagAggregator.RepresentsFrequencies | aec3/matched_filter_lag_aggregator.cc:60-73 | the histogram holds the counts of the last 250 lags, less 250 at zero, and adds up to zero |
| MatchedFilterLagAggregator.Exchanged | aec3/matched_filter_lag_aggregator.cc:60-73 | replacing the oldest lag keeps the histogram in step with the window |
| MatchedFilterLagAggregator.BestEstimate | aec3/matched_filter_lag_aggregator.cc:46-54 | the first of the most accurate updated and reliable estimates with a positive accuracy, or none |
| MatchedFilterLagAggregator.MaxElement | aec3/matched_filter_lag_aggregator.cc:75-77 | the first largest entry |
| MatchedFilterLagAggregator.MatchedFilterLagAggregator.Aggregate | aec3/matched_filter_lag_aggregator.cc:43-95 | one call is one step of the window, and reports what the window says |
| MatchedFilterLagAggregator.MatchedFilterLagAggregator.Reset | aec3/matched_filter_lag_aggregator.cc:34-41 | the window is empty; a hard reset also forgets the significant candidate |
| BackgroundNoise.RaisedSplit | neteq/background_noise.cc:187-202 | the increment of the two-word number splits into the parts that the code computes |
| BackgroundNoise.RaisedRises | neteq/background_noise.cc:187-202 | the threshold never falls |
| BackgroundNoise.RaisedBy | neteq/background_noise.cc:187-202 | it rises by 229 / 65536 of itself, rounded down |
| BackgroundNoise.FloorIs | neteq/background_noise.cc:204-217 | the floor is the maximum energy divided by 2^20 and rounded to the nearest integer |
| BackgroundNoise.ChannelParameters.RaiseThreshold | neteq/background_noise.cc:187-202 | the byte-wise update is exactly T + floor(229 T / 65536), no intermediate value leaves 32 bits, and the two words are its quotient and remainder by 65536 |
| BackgroundNoise.WordsAreUnique | neteq/background_noise.cc:187-202 | a threshold has only one pair of words, so the update is the only one with that value |
| BackgroundNoise.ChannelParameters.IncrementEnergyThreshold | neteq/background_noise.cc:179-217 | the raised threshold, or 60 dB below the sinking maximum where that is higher |

## Left out

- FFT, decimation, high-pass filters, suppression gains, ERLE and ERL smoothing, comfort noise: floating-point tuning or
  code that is not part of this model; the FFT, the spectrum and the decimated block are functions or parameters.
- NEON variants: the same structure as the SSE2 ones.
- Rounding of `float`: the two forms of a filter are equal over reals, not bit by bit; the gradual size of the adaptive
  filter is the floor of the exact average.
- Logging, metrics, field trials, factories and test programs.
- The hand-over of render frames between threads: a capture call takes the frames that are waiting as a parameter.
- RenderDelayBuffer with an external delay estimator: the delay applied there is not clamped.
- RenderDelayBuffer's render activity flag and its call counters for logging.
- NackTracker.NackTracker.UpdateSampleRate: asks for at least 1000 Hz; below that the code goes on to divide by zero.
- NackTracker.NackTracker.UpdateLastReceivedPacket: the times are stated for a sender whose packets all have the same
  number of samples, below 2^17; for others the estimates are what they are, and the numbers and flags still right.
- NackTracker: a product of the packet size and the number of skipped packets that does not fit in `int` wraps.
- AudioVector operations on the vector itself: the two vectors are distinct objects.
- AudioVector's allocation failure, and C++ object lifetimes in general.
- NackTracker.NackTracker.AddToList: does not repeat the assertion that the packet is newer than the last decoded one,
  because the list does not depend on it.
- NackTracker.NackTracker.UpdateLastDecodedPacket: exact for a decoded number within half the number space of the newest
  packet and of every listed one; for the others, at most 500 of 65536, the comparison does not split the map, what
  upper_bound finds depends on the shape of its tree, and only the removal of a prefix is stated.
- Accelerate.Accelerate.Process: takes the pitch period, the correlation and the speech decision as parameters, because
  the signal analysis calls routines that are not part of this model. It asks for the condition of GuardExact or for an
  input with room; for the rest the code reads past the input, see GuardTooWeak.
- Expand, Merge, Normal, DecisionLogic and the packet buffer: they rest on routines that are not part of this model.
- DelayManager's packet arrival arithmetic, peak detector, streaming mode and `int` overflow of the buffer time.
- Histogram.Histogram.ScaleBuckets: the 64-bit product of mass and width is unbounded; it fits when the total and the
  width are 32-bit values.
- BackgroundNoise.ChannelParameters.IncrementEnergyThreshold: asks for a sample energy that leaves room for the rounding
  term in 32 bits, which energies of 16-bit samples do.
- ReverbDecayEstimator.ReverbDecayEstimator.Update: what a block shows (gain, noise floor, logarithms) and the verdict
  on the whole filter are parameters, because they are thresholds on floating-point energies.
- ReverbDecayEstimator.ReverbDecayEstimator.EstimateDecay: the power of two of the slope is a function given to the
  constructor, and what lies past the end of the sections is part of the verdict on the filter.
- FilterSections.DefineFilterSectionSizes: the doubled section size and its product with the number of sections are
  unbounded; they fit in 64 bits for any filter that fits in memory, and no boundary depends on them when the
  difference wraps.
- ReverbDecayEstimator.ReverbDecayEstimator.constructor: asks for a non-negative number of sections, which
  SectionsNeedNineBlocks shows to be a filter of at least 9 blocks; with fewer the code asks for arrays it cannot get.
- RenderDelay.RenderDelayBuffer.constructor: asks for a down-sampling factor of at most a block and a default delay that
  fits in the rings.
- Histogram.Histogram.constructor: asks for at most 2^25 buckets, for which the correction pass always suffices.
- SignalDependentErle: the correction factors and their smoothing.
- MatchedFilter: the choice of the lag from the filter peak and the reliability test around the core.
- AdaptiveFirFilter: the frequency response, the echo return loss and the scaling of the filter.
