/** The render delay buffer: four rings that move together, and their refinement of the alignment in blocks. */
module RenderDelay {
  import opened Numbers
  import opened RenderDelaySpec
  import opened RingBuffers

  datatype BufferingEvent = NoEvent | RenderUnderrun | RenderOverrun

  /** The length of a number of sub-blocks. */
  function Samples(subBlocks: nat, size: nat): nat {
    subBlocks * size
  }

  lemma SamplesOrder(a: nat, b: nat, size: nat)
    requires size > 0
    ensures Samples(0, size) == 0 && Samples(1, size) == size && Samples(a + 1, size) == Samples(a, size) + size
    ensures a < b ==> Samples(a, size) + size <= Samples(b, size)
    ensures Samples(a, size) / size == a
    ensures Samples(a, size) == 0 <==> a == 0
  {
    RemainderIs(Samples(a, size), size, a, 0);
    if a < b {
      assert (b - a - 1) * size >= 0;
    }
  }

  /** Moving the low-rate write position back by a sub-block stays aligned and leaves one more sub-block unread. */
  lemma LowRateWriteStep(slot: nat, unread: nat, total: nat, size: nat, read: nat)
    requires size > 0 && slot < total && unread < total && 1 < total && read < Samples(total, size)
    requires Samples(slot, size) < Samples(total, size)
    requires Ahead(Samples(slot, size), read, Samples(total, size)) == Samples(unread, size)
    ensures size <= Samples(total, size)
    ensures var n := Samples(total, size);
            var slot', unread' := if slot == 0 then total - 1 else slot - 1,
                                  if unread + 1 == total then 0 else unread + 1;
            var write' := Wrapped(Samples(slot, size) - size, n);
            && write' == Samples(slot', size) && write' + size <= n
            && Ahead(write', read, n) == Samples(unread', size)
  {
    SamplesOrder(unread, total, size);
    SamplesOrder(unread + 1, total, size);
    SamplesOrder(total - 1, total, size);
    SamplesOrder(0, total, size);
    if slot > 0 {
      SamplesOrder(slot - 1, total, size);
    }
    SamplesOrder(slot, total, size);
    hide Samples;
  }

  /** Moving the low-rate read position back by a sub-block leaves one less unread. */
  lemma LowRateReadStep(write: nat, unread: nat, total: nat, size: nat, read: nat)
    requires size > 0 && 0 < unread < total && read < Samples(total, size)
    requires write < Samples(total, size)
    requires Ahead(write, read, Samples(total, size)) == Samples(unread, size)
    ensures size <= Samples(total, size)
    ensures Ahead(write, Wrapped(read - size, Samples(total, size)), Samples(total, size)) == Samples(unread - 1, size)
  {
    SamplesOrder(unread - 1, total, size);
    SamplesOrder(unread, total, size);
    SamplesOrder(0, total, size);
    hide Samples;
  }

  /** The spectrum and FFT positions mirror the block positions; the low-rate ones are multiples of a sub-block. */
  ghost predicate Aligned(c: Config, blocks: Positions, spectra: Positions, ffts: Positions, lowRate: Positions,
                          slot: nat, unread: nat)
    requires c.Valid()
  {
    var size := c.SubBlockSize();
    && blocks.Valid() && blocks.size == c.Slots()
    && spectra == ffts == Positions(blocks.size, Mirror(blocks.write, blocks.size), Mirror(blocks.read, blocks.size))
    && lowRate.Valid() && lowRate.size == Samples(c.SubBlocks(), size) && 0 < size <= lowRate.size
    && slot < c.SubBlocks() && lowRate.write == Samples(slot, size)
    && unread < c.SubBlocks() && Ahead(lowRate.write, lowRate.read, lowRate.size) == Samples(unread, size)
  }

  lemma AlignedOneUnread(c: Config, blocks: Positions, spectra: Positions, ffts: Positions, lowRate: Positions,
                         slot: nat, unread: nat)
    requires c.Valid() && Aligned(c, blocks, spectra, ffts, lowRate, slot, unread)
    ensures lowRate.Valid() && 0 < c.SubBlockSize() <= lowRate.size && blocks.Valid() && blocks.size == c.Slots()
    ensures Aligned(c, blocks, spectra, ffts,
                    lowRate.(read := Wrapped(lowRate.write + c.SubBlockSize(), lowRate.size)), slot, 1)
  {
    SamplesOrder(1, c.SubBlocks(), c.SubBlockSize());
    hide Samples;
  }

  lemma InitiallyAligned(c: Config)
    requires c.Valid()
    ensures c.DownSampledBufferSize() == Samples(c.SubBlocks(), c.SubBlockSize())
    ensures var ring := Positions(c.Slots(), 0, 0);
            Aligned(c, ring, ring, ring, Positions(c.DownSampledBufferSize(), 0, 0), 0, 0)
  {
    c.Sizes();
    SamplesOrder(0, c.SubBlocks(), c.SubBlockSize());
  }

  /** RenderDelayBufferImpl. The FFT, the spectrum and the decimator are opaque: two functions and a parameter. */
  class RenderDelayBuffer<Block, Fft, Spectrum> {
    const config: Config
    const numBands: nat
    const subBlockSize: nat
    const blockBuffer: array<Block>
    const spectrumBuffer: array<Spectrum>
    const fftBuffer: array<Fft>
    const lowRateBuffer: array<real>
    const paddedFft: (Block, Block) -> Fft
    const spectrum: Fft -> Spectrum
    ghost const zeroBlock: Block
    ghost const zeroFft: Fft
    ghost const zeroSpectrum: Spectrum
    var blocks: Positions
    var spectra: Positions
    var ffts: Positions
    var lowRate: Positions
    var delay: Option<nat>
    var externalDelay: Option<nat>
    var externalDelayVerified: bool
    var minLatencyBlocks: nat
    var excessRenderDetectionCounter: nat
    // Every block inserted so far, and the decimated signal.
    ghost var inserted: seq<Block>
    ghost var stream: seq<real>
    // The low-rate write position and the unread part, in sub-blocks.
    ghost var lowRateSlot: nat
    ghost var unread: nat

    ghost predicate Separate() {
      && blockBuffer as object != spectrumBuffer && blockBuffer as object != fftBuffer
      && blockBuffer as object != lowRateBuffer && spectrumBuffer as object != fftBuffer
      && spectrumBuffer as object != lowRateBuffer && fftBuffer as object != lowRateBuffer
    }

    ghost predicate Indexed()
      reads this
    {
      && config.Valid() && Separate()
      && blockBuffer.Length == spectrumBuffer.Length == fftBuffer.Length == blocks.size
      && lowRateBuffer.Length == lowRate.size
      && subBlockSize == config.SubBlockSize()
      && Aligned(config, blocks, spectra, ffts, lowRate, lowRateSlot, unread)
    }

    ghost function Ffts(history: seq<Block>): (r: seq<Fft>)
      ensures |r| == |history|
      ensures forall i :: 0 <= i < |r| ==> r[i] == paddedFft(history[i], At(history, i - 1, zeroBlock))
    {
      seq(|history|, i requires 0 <= i < |history| => paddedFft(history[i], At(history, i - 1, zeroBlock)))
    }

    ghost function Spectra(history: seq<Block>): (r: seq<Spectrum>)
      ensures |r| == |history|
      ensures forall i :: 0 <= i < |r| ==> r[i] == spectrum(Ffts(history)[i])
    {
      seq(|history|, i requires 0 <= i < |history| => spectrum(Ffts(history)[i]))
    }

    /** The rings hold the history, the block ring going up and the others going down. */
    ghost predicate Filled()
      reads this, blockBuffer, spectrumBuffer, fftBuffer, lowRateBuffer
    {
      && HoldsBackward(blockBuffer[..], blocks.write, inserted, zeroBlock)
      && HoldsForward(fftBuffer[..], ffts.write, Ffts(inserted), zeroFft)
      && HoldsForward(spectrumBuffer[..], spectra.write, Spectra(inserted), zeroSpectrum)
      && HoldsForward(lowRateBuffer[..], lowRate.write, stream, 0.0)
    }

    ghost predicate Valid()
      reads this, blockBuffer, spectrumBuffer, fftBuffer, lowRateBuffer
    {
      Indexed() && Filled()
    }

    /** The state as the specification sees it. */
    ghost function State(): Control
      reads this
      requires blocks.Valid()
    {
      Control(Behind(blocks.write, blocks.read, blocks.size), unread, delay, externalDelay, minLatencyBlocks,
              excessRenderDetectionCounter)
    }

    constructor (config: Config, numBands: nat, paddedFft: (Block, Block) -> Fft, spectrum: Fft -> Spectrum,
                 zeroBlock: Block, zeroFft: Fft, zeroSpectrum: Spectrum)
      requires config.Valid()
      ensures Valid() && State() == Run(config, [])
      ensures this.config == config && inserted == [] && stream == []
    {
      config.Sizes();
      InitiallyAligned(config);
      var slots, samples := config.RenderDelayBufferSize(), config.DownSampledBufferSize();
      this.config, this.numBands := config, numBands;
      this.paddedFft, this.spectrum := paddedFft, spectrum;
      this.zeroBlock, this.zeroFft, this.zeroSpectrum := zeroBlock, zeroFft, zeroSpectrum;
      subBlockSize := config.SubBlockSize();
      blockBuffer := new Block[slots](_ => zeroBlock);
      spectrumBuffer := new Spectrum[slots](_ => zeroSpectrum);
      fftBuffer := new Fft[slots](_ => zeroFft);
      lowRateBuffer := new real[samples](_ => 0.0);
      blocks, spectra, ffts := Positions(slots, 0, 0), Positions(slots, 0, 0), Positions(slots, 0, 0);
      lowRate := Positions(samples, 0, 0);
      delay, externalDelay, externalDelayVerified := Some(config.defaultDelay), None, false;
      minLatencyBlocks, excessRenderDetectionCounter := 0, 0;
      inserted, stream, lowRateSlot, unread := [], [], 0, 0;
      new;
      hide Aligned;
      InitiallyFilled(blockBuffer[..], zeroBlock);
      InitiallyFilled(fftBuffer[..], zeroFft);
      InitiallyFilled(spectrumBuffer[..], zeroSpectrum);
      InitiallyFilled(lowRateBuffer[..], 0.0);
      assert Ffts(inserted) == [] && Spectra(inserted) == [];
      hide HoldsForward, HoldsBackward, At;
      Reset();
    }

    /** Unread sub-blocks: the distance between the low-rate positions. */
    function BufferLatency(): (blocksUnread: nat)
      reads this
      requires Indexed()
      ensures blocksUnread == unread
    {
      SamplesOrder(unread, config.SubBlocks(), subBlockSize);
      RemainderIs(lowRate.size + lowRate.read - lowRate.write, lowRate.size,
                  if lowRate.write <= lowRate.read then 1 else 0, Samples(unread, subBlockSize));
      (lowRate.size + lowRate.read - lowRate.write) % lowRate.size / subBlockSize
    }

    function ComputeDelay(): (r: int)
      reads this
      requires Indexed()
      ensures r == State().ComputeDelay()
    {
      var internalDelay := if spectra.read >= spectra.write then spectra.read - spectra.write
                           else spectra.size + spectra.read - spectra.write;
      internalDelay - BufferLatency()
    }

    function MaxDelay(): (r: nat)
      reads this
      requires Indexed()
      ensures r == config.SubBlocks()
    {
      blocks.size - 1 - config.filterLength
    }

    method ApplyTotalDelay(totalDelay: nat)
      requires Indexed() && totalDelay <= config.Slots()
      modifies this`blocks, this`spectra, this`ffts
      ensures Indexed()
      ensures blocks.write == old(blocks.write) && spectra.write == old(spectra.write) && ffts.write == old(ffts.write)
      ensures State() == old(State()).(gap := if totalDelay == config.Slots() then 0 else totalDelay)
    {
      hide Samples;
      ReadAtDelay(blocks.write, totalDelay, blocks.size);
      blocks := blocks.(read := blocks.OffsetIndex(blocks.write, -(totalDelay as int)));
      spectra := spectra.(read := spectra.OffsetIndex(spectra.write, totalDelay));
      ffts := ffts.(read := ffts.OffsetIndex(ffts.write, totalDelay));
    }

    /** The block at the read position is as many inserted blocks back as reading is behind writing. */
    lemma BlockRead()
      requires Valid()
      ensures BlockAt(0) == At(inserted, |inserted| - 1 - State().gap, zeroBlock)
    {
      hide Samples, Mirror, Ahead, At;
      assert BlockAt(0) == blockBuffer[..][blocks.read];
    }

    method Reset()
      requires Indexed()
      modifies this`blocks, this`spectra, this`ffts, this`lowRate, this`unread, this`delay, this`externalDelayVerified,
               this`minLatencyBlocks, this`excessRenderDetectionCounter
      ensures Indexed() && State() == ResetStep(config, old(State()))
      ensures blocks.write == old(blocks.write) && spectra.write == old(spectra.write)
      ensures ffts.write == old(ffts.write) && lowRate.write == old(lowRate.write)
      ensures IsReset(config, externalDelay, State())
      ensures old(Filled()) && externalDelay.None? && config.defaultDelay < config.Slots() ==>
                BlockAt(0) == At(inserted, |inserted| - 1 - config.defaultDelay, zeroBlock)
    {
      hide Aligned, Samples, Mirror, Behind, Ahead, HoldsBackward, HoldsForward, At;
      ghost var filled := Filled();
      ResetDelays();
      if filled && externalDelay.None? && config.defaultDelay < config.Slots() {
        BlockRead();
      }
    }

    method ResetDelays()
      requires Indexed()
      modifies this`blocks, this`spectra, this`ffts, this`lowRate, this`unread, this`delay, this`externalDelayVerified,
               this`minLatencyBlocks, this`excessRenderDetectionCounter
      ensures Indexed() && State() == ResetStep(config, old(State()))
      ensures blocks.write == old(blocks.write) && spectra.write == old(spectra.write)
      ensures ffts.write == old(ffts.write) && lowRate.write == old(lowRate.write)
      ensures IsReset(config, externalDelay, State())
    {
      AlignedOneUnread(config, blocks, spectra, ffts, lowRate, lowRateSlot, unread);
      hide Aligned, Samples, Mirror, Behind, Ahead, IsReset;
      ResetIs(config, State());
      minLatencyBlocks := 0;
      excessRenderDetectionCounter := 0;
      lowRate := lowRate.(read := lowRate.OffsetIndex(lowRate.write, subBlockSize));
      unread := 1;
      match externalDelay {
        case Some(external) =>
          var headroom := 2;
          var delayToSet := if external <= headroom then 1 else external - headroom;
          delayToSet := if delayToSet < MaxDelay() then delayToSet else MaxDelay();
          ApplyTotalDelay(delayToSet);
          delay := Some(ComputeDelay());
          externalDelayVerified := false;
        case None =>
          ApplyTotalDelay(config.defaultDelay);
          delay := None;
      }
    }

    predicate AtRenderOverrun()
      reads this
      requires Indexed()
      ensures AtRenderOverrun() <==> unread == 0 || State().gap == 0
    {
      SamplesOrder(unread, config.SubBlocks(), subBlockSize);
      lowRate.read == lowRate.write || blocks.read == blocks.write
    }

    predicate AtRenderUnderrun()
      reads this
      requires Indexed()
      ensures AtRenderUnderrun() <==> unread == 0
    {
      SamplesOrder(unread, config.SubBlocks(), subBlockSize);
      lowRate.read == lowRate.write
    }

    method IncrementWriteIndices()
      requires Indexed()
      modifies this`blocks, this`spectra, this`ffts, this`lowRate, this`lowRateSlot, this`unread
      ensures Indexed()
      ensures blocks.write == Wrapped(old(blocks.write) + 1, blocks.size)
      ensures ffts.write == Wrapped(old(ffts.write) - 1, ffts.size)
      ensures spectra.write == Wrapped(old(spectra.write) - 1, spectra.size)
      ensures lowRate.write == Wrapped(old(lowRate.write) - subBlockSize, lowRate.size)
      ensures lowRate.write + subBlockSize <= lowRate.size
      ensures var gap, latency := old(State().gap) + 1, old(unread) + 1;
              State() == old(State()).(gap := if gap == config.Slots() then 0 else gap,
                                       latency := if latency == config.SubBlocks() then 0 else latency)
    {
      hide Samples, Wrapped, Mirror, Behind, Ahead;
      LowRateWriteStep(lowRateSlot, unread, config.SubBlocks(), subBlockSize, lowRate.read);
      WriteStep(blocks.write, blocks.read, blocks.size);
      lowRate := lowRate.UpdateWriteIndex(-(subBlockSize as int));
      blocks := blocks.IncWriteIndex();
      spectra := spectra.DecWriteIndex();
      ffts := ffts.DecWriteIndex();
      lowRateSlot := if lowRateSlot == 0 then config.SubBlocks() - 1 else lowRateSlot - 1;
      unread := if unread + 1 == config.SubBlocks() then 0 else unread + 1;
    }

    /** The slots at the write positions take the new block, its FFT with the block before it, the FFT's spectrum, and
        the decimated block in reverse, which never crosses the end of its buffer. */
    method InsertBlock(block: Block, decimated: seq<real>, previousWrite: nat)
      requires Indexed() && |decimated| == subBlockSize && lowRate.write + subBlockSize <= lowRate.size
      requires previousWrite < blocks.size && blocks.write == Wrapped(previousWrite + 1, blocks.size)
      requires HoldsBackward(blockBuffer[..], previousWrite, inserted, zeroBlock)
      requires HoldsForward(fftBuffer[..], Wrapped(ffts.write + 1, ffts.size), Ffts(inserted), zeroFft)
      requires HoldsForward(spectrumBuffer[..], Wrapped(spectra.write + 1, spectra.size), Spectra(inserted),
                            zeroSpectrum)
      requires HoldsForward(lowRateBuffer[..], Wrapped(lowRate.write + subBlockSize, lowRate.size), stream, 0.0)
      modifies this`inserted, this`stream, blockBuffer, spectrumBuffer, fftBuffer, lowRateBuffer
      ensures Filled() && inserted == old(inserted) + [block] && stream == old(stream) + decimated
    {
      hide Samples, HoldsBackward, HoldsForward, At, Ffts, Spectra;
      BlockBefore(blockBuffer[..], previousWrite, inserted, zeroBlock, block);
      PushSpectra(inserted, block, fftBuffer[..], spectrumBuffer[..], ffts.write);
      PushChunkForward(lowRateBuffer[..], lowRate.write, stream, decimated);
      WriteSlots(block, decimated, previousWrite);
      inserted := inserted + [block];
      stream := stream + decimated;
    }

    method WriteSlots(block: Block, decimated: seq<real>, previousWrite: nat)
      requires Separate() && lowRate.write + |decimated| <= lowRateBuffer.Length
      requires previousWrite < blockBuffer.Length && blocks.write < blockBuffer.Length && previousWrite != blocks.write
      requires ffts.write < fftBuffer.Length && spectra.write < spectrumBuffer.Length
      modifies blockBuffer, spectrumBuffer, fftBuffer, lowRateBuffer
      ensures blockBuffer[..] == old(blockBuffer[..])[blocks.write := block]
      ensures var x := paddedFft(block, old(blockBuffer[previousWrite]));
              && fftBuffer[..] == old(fftBuffer[..])[ffts.write := x]
              && spectrumBuffer[..] == old(spectrumBuffer[..])[spectra.write := spectrum(x)]
      ensures lowRateBuffer[..] == Splice(old(lowRateBuffer[..]), lowRate.write, Reversed(decimated))
    {
      blockBuffer[blocks.write] := block;
      CopyReversed(lowRateBuffer, lowRate.write, decimated);
      fftBuffer[ffts.write] := paddedFft(block, blockBuffer[previousWrite]);
      spectrumBuffer[spectra.write] := spectrum(fftBuffer[ffts.write]);
    }

    lemma FftsStep(history: seq<Block>, block: Block)
      ensures var x := paddedFft(block, At(history, |history| - 1, zeroBlock));
              && Ffts(history + [block]) == Ffts(history) + [x]
              && Spectra(history + [block]) == Spectra(history) + [spectrum(x)]
    {
      var x := paddedFft(block, At(history, |history| - 1, zeroBlock));
      forall i | 0 <= i < |history|
        ensures Ffts(history + [block])[i] == Ffts(history)[i]
      {
      }
      assert Ffts(history + [block]) == Ffts(history) + [x];
      hide Ffts;
      assert Spectra(history + [block]) == Spectra(history) + [spectrum(x)];
    }

    lemma PushSpectra(history: seq<Block>, block: Block, f: seq<Fft>, s: seq<Spectrum>, write: nat)
      requires write < |f| == |s|
      requires HoldsForward(f, Wrapped(write + 1, |f|), Ffts(history), zeroFft)
      requires HoldsForward(s, Wrapped(write + 1, |s|), Spectra(history), zeroSpectrum)
      ensures var x := paddedFft(block, At(history, |history| - 1, zeroBlock));
              && HoldsForward(f[write := x], write, Ffts(history + [block]), zeroFft)
              && HoldsForward(s[write := spectrum(x)], write, Spectra(history + [block]), zeroSpectrum)
    {
      var x := paddedFft(block, At(history, |history| - 1, zeroBlock));
      hide HoldsForward, Ffts, Spectra;
      FftsStep(history, block);
      PushOneForward(f, write, Ffts(history), zeroFft, x);
      PushOneForward(s, write, Spectra(history), zeroSpectrum, spectrum(x));
    }

    /** A render block arrives. */
    method Insert(block: Block, decimated: seq<real>) returns (event: BufferingEvent)
      requires Valid() && |decimated| == subBlockSize
      modifies this, blockBuffer, spectrumBuffer, fftBuffer, lowRateBuffer
      ensures Valid() && State() == InsertStep(config, old(State()))
      ensures event == if Overruns(config, old(State())) then RenderOverrun else NoEvent
      ensures inserted == old(inserted) + [block] && stream == old(stream) + decimated
    {
      hide HoldsBackward, HoldsForward, Samples, Mirror, Behind, Ahead, At;
      var previousWrite := blocks.write;
      IncrementWriteIndices();
      event := if AtRenderOverrun() then RenderOverrun else NoEvent;
      InsertBlock(block, decimated, previousWrite);
      if event != NoEvent {
        Reset();
      }
    }

    method IncrementReadIndices()
      requires Indexed()
      modifies this`blocks, this`spectra, this`ffts
      ensures Indexed()
      ensures blocks.write == old(blocks.write) && spectra.write == old(spectra.write) && ffts.write == old(ffts.write)
      ensures var gap := old(State()).gap; State() == old(State()).(gap := if gap == 0 then 0 else gap - 1)
    {
      hide Samples;
      MirrorsAgree(blocks.write, blocks.read, blocks.size);
      if blocks.read != blocks.write {
        ReadStep(blocks.write, blocks.read, blocks.size);
        blocks := blocks.IncReadIndex();
        spectra := spectra.DecReadIndex();
        ffts := ffts.DecReadIndex();
      }
    }

    method IncrementLowRateReadIndices()
      requires Indexed() && unread > 0
      modifies this`lowRate, this`unread
      ensures Indexed() && State() == old(State()).(latency := old(unread) - 1)
      ensures lowRate.write == old(lowRate.write)
    {
      LowRateReadStep(lowRate.write, unread, config.SubBlocks(), subBlockSize, lowRate.read);
      hide Samples;
      lowRate := lowRate.UpdateReadIndex(-(subBlockSize as int));
      unread := unread - 1;
    }

    method DetectExcessRenderBlocks() returns (detected: bool)
      requires Indexed()
      modifies this`minLatencyBlocks, this`excessRenderDetectionCounter
      ensures Indexed() && detected == ExcessDetected(config, old(State()))
      ensures State() == if ClosesInterval(config, old(State()))
                         then old(State()).(minLatency := unread, counter := 0)
                         else old(State()).(minLatency := Min(old(minLatencyBlocks), unread),
                                            counter := old(excessRenderDetectionCounter) + 1)
    {
      detected := false;
      var latencyBlocks := BufferLatency();
      minLatencyBlocks := if latencyBlocks < minLatencyBlocks then latencyBlocks else minLatencyBlocks;
      excessRenderDetectionCounter := excessRenderDetectionCounter + 1;
      if excessRenderDetectionCounter >= config.detectionInterval {
        detected := minLatencyBlocks > config.maxExcess;
        minLatencyBlocks := latencyBlocks;
        excessRenderDetectionCounter := 0;
      }
    }

    /** A capture block is about to be processed. */
    method PrepareCaptureProcessing() returns (event: BufferingEvent)
      requires Valid()
      modifies this
      ensures Valid() && State() == CaptureStep(config, old(State()))
      ensures event == if ExcessDetected(config, old(State())) then RenderOverrun
                       else if old(State()).latency == 0 then RenderUnderrun else NoEvent
      ensures inserted == old(inserted) && stream == old(stream)
    {
      hide HoldsBackward, HoldsForward, Samples, Mirror, Behind, Ahead, Wrapped, At;
      event := NoEvent;
      var excess := DetectExcessRenderBlocks();
      if excess {
        Reset();
        event := RenderOverrun;
      } else if AtRenderUnderrun() {
        IncrementReadIndices();
        if delay.Some? && delay.value > 0 {
          delay := Some(delay.value - 1);
        }
        event := RenderUnderrun;
      } else {
        IncrementLowRateReadIndices();
        IncrementReadIndices();
      }
    }

    function MapDelayToTotalDelay(externalDelayBlocks: nat): nat
      reads this
      requires Indexed()
    {
      BufferLatency() + externalDelayBlocks
    }

    /** The delay estimator reports a delay. */
    method AlignFromDelay(newDelay: nat) returns (changed: bool)
      requires Valid()
      modifies this
      ensures Valid() && State() == AlignStep(config, old(State()), newDelay)
      ensures changed <==> old(delay) != Some(newDelay)
      ensures inserted == old(inserted) && stream == old(stream)
    {
      hide HoldsBackward, HoldsForward, Samples;
      if !externalDelayVerified && externalDelay.Some? && delay.Some? {
        externalDelayVerified := true;
      }
      if delay.Some? && delay.value == newDelay {
        return false;
      }
      delay := Some(newDelay);
      var totalDelay := MapDelayToTotalDelay(newDelay);
      totalDelay := if totalDelay < MaxDelay() then totalDelay else MaxDelay();
      ApplyTotalDelay(totalDelay);
      return true;
    }

    method SetAudioBufferDelay(delayMs: nat)
      requires Valid()
      modifies this`externalDelay
      ensures Valid() && State() == Step(config, old(State()), SetExternal(delayMs / if numBands == 1 then 2 else 4))
    {
      externalDelay := Some(delayMs / if numBands == 1 then 2 else 4);
    }

    /** RenderBuffer::Block and RenderBuffer::Spectrum, views at an offset from the read positions. */
    function BlockAt(offset: int): Block
      reads this, blockBuffer
      requires Indexed() && 0 <= blocks.size + offset && offset <= blocks.size
    {
      blockBuffer[blocks.OffsetIndex(blocks.read, offset)]
    }

    function SpectrumAt(offset: int): Spectrum
      reads this, spectrumBuffer
      requires Indexed() && 0 <= spectra.size + offset && offset <= spectra.size
    {
      spectrumBuffer[spectra.OffsetIndex(spectra.read, offset)]
    }

    function Headroom(): (r: int)
      reads this
      requires Indexed()
      ensures r == if State().gap == 0 then config.Slots() else State().gap
    {
      MirrorsAgree(blocks.write, blocks.read, blocks.size);
      if ffts.write < ffts.read then ffts.read - ffts.write else ffts.size - ffts.write + ffts.read
    }

    /** The index, in the history, of the block k before the one at the read position. */
    ghost function Viewed(k: nat): int
      reads this
      requires Indexed() && k <= blocks.size
      ensures Viewed(k) < |inserted|
    {
      MirrorsAgree(blocks.write, blocks.read, blocks.size);
      |inserted| - 1 - Wrapped(State().gap + k, blocks.size)
    }

    /** Going back k blocks or forward k spectra from the read positions reaches the same inserted block, and the
        spectrum is that of its FFT with the block inserted just before it. */
    lemma ViewsAgree(k: nat)
      requires Valid() && k <= blocks.size
      ensures BlockAt(-(k as int)) == At(inserted, Viewed(k), zeroBlock)
      ensures SpectrumAt(k) ==
              if Viewed(k) < 0 then zeroSpectrum
              else spectrum(paddedFft(inserted[Viewed(k)], At(inserted, Viewed(k) - 1, zeroBlock)))
    {
      SpectrumViewed(k);
      OffsetViews(blocks.write, blocks.read, k, blocks.size);
      var p := Wrapped(blocks.read - k, blocks.size);
      hide Wrapped, Mirror, Behind, Ahead, Samples;
      assert BlockAt(-(k as int)) == blockBuffer[..][p];
    }

    lemma SpectrumViewed(k: nat)
      requires Valid() && k <= blocks.size
      ensures SpectrumAt(k) ==
              if Viewed(k) < 0 then zeroSpectrum
              else spectrum(paddedFft(inserted[Viewed(k)], At(inserted, Viewed(k) - 1, zeroBlock)))
    {
      OffsetViews(blocks.write, blocks.read, k, blocks.size);
      var p := Wrapped(spectra.read + k, spectra.size);
      hide Wrapped, Mirror, Behind, Ahead, Samples;
      assert SpectrumAt(k) == spectrumBuffer[..][p];
      if Viewed(k) >= 0 {
        assert Spectra(inserted)[Viewed(k)] == spectrum(Ffts(inserted)[Viewed(k)]);
      }
    }

    static lemma OffsetViews(write: nat, read: nat, k: nat, n: nat)
      requires write < n && read < n && k <= n
      ensures Behind(write, Wrapped(read - k, n), n) == Wrapped(Behind(write, read, n) + k, n)
      ensures Ahead(Mirror(write, n), Wrapped(Mirror(read, n) + k, n), n) == Wrapped(Behind(write, read, n) + k, n)
    {
    }
  }
}
