/** Multiband signals: one sequence of samples a band. */
module Bands {

  type Sample = real
  type Bands = seq<seq<Sample>>

  ghost predicate Uniform(b: Bands, n: nat, len: nat) {
    |b| == n && forall j: nat :: j < n ==> |b[j]| == len
  }

  ghost predicate AllUniform(blocks: seq<Bands>, n: nat, len: nat) {
    forall i: nat :: i < |blocks| ==> Uniform(blocks[i], n, len)
  }

  function Zeros(n: nat): (r: seq<Sample>)
    ensures |r| == n
  {
    seq(n, _ => 0.0)
  }

  function Silence(n: nat, len: nat): (r: Bands)
    ensures |r| == n
  {
    seq(n, _ => Zeros(len))
  }

  /** One signal after another. */
  function Cat(a: Bands, b: Bands): (r: Bands)
    requires |a| == |b|
    ensures |r| == |a|
  {
    seq(|a|, j requires 0 <= j < |a| => a[j] + b[j])
  }

  function Slice(b: Bands, lo: nat, hi: nat): (r: Bands)
    requires lo <= hi && forall j: nat :: j < |b| ==> hi <= |b[j]|
    ensures |r| == |b|
  {
    seq(|b|, j requires 0 <= j < |b| => b[j][lo..hi])
  }

  /** Two pieces hold, in order, what two other pieces hold. */
  ghost predicate Joined(first: Bands, rest: Bands, before: Bands, added: Bands) {
    && |first| == |rest| == |before| == |added|
    && forall j: nat :: j < |first| ==> first[j] + rest[j] == before[j] + added[j]
  }

  function Band(b: Bands, j: nat): seq<Sample> {
    if j < |b| then b[j] else []
  }

  /** One band of a sequence of blocks. */
  function Flat(blocks: seq<Bands>, j: nat): seq<Sample> {
    if blocks == [] then [] else Flat(blocks[..|blocks| - 1], j) + Band(blocks[|blocks| - 1], j)
  }

  /** Sample t of block i is at place i * len + t. */
  lemma {:induction false} FlatSamples(blocks: seq<Bands>, n: nat, len: nat, j: nat, i: nat, t: nat)
    requires AllUniform(blocks, n, len) && j < n && i < |blocks| && t < len
    ensures |Flat(blocks, j)| == |blocks| * len && 0 <= i * len + t < |Flat(blocks, j)|
    ensures Flat(blocks, j)[i * len + t] == blocks[i][j][t]
  {
    var k := |blocks| - 1;
    var before, last := Flat(blocks[..k], j), blocks[k][j];
    assert Flat(blocks, j) == before + last && |last| == len;
    FlatLength(blocks[..k], n, len, j);
    hide Flat;
    OneMore(k, len);
    if i < k {
      FlatSamples(blocks[..k], n, len, j, i, t);
      hide *;
    } else {
      assert last[t] == (before + last)[|before| + t];
    }
  }

  lemma OneMore(k: nat, len: nat)
    ensures 0 <= k * len && (k + 1) * len == k * len + len
  {
  }

  lemma {:induction false} FlatLength(blocks: seq<Bands>, n: nat, len: nat, j: nat)
    requires AllUniform(blocks, n, len) && j < n
    ensures |Flat(blocks, j)| == |blocks| * len
  {
    if blocks != [] {
      FlatLength(blocks[..|blocks| - 1], n, len, j);
      OneMore(|blocks| - 1, len);
    }
  }

  lemma AllUniformSnoc(blocks: seq<Bands>, b: Bands, n: nat, len: nat)
    requires AllUniform(blocks, n, len) && Uniform(b, n, len)
    ensures AllUniform(blocks + [b], n, len)
  {
    hide Uniform;
  }

  lemma FlatSnoc(blocks: seq<Bands>, b: Bands, j: nat)
    ensures Flat(blocks + [b], j) == Flat(blocks, j) + Band(b, j)
  {
    assert (blocks + [b])[..|blocks|] == blocks;
  }
}

/** The block processor, seen from outside: each captured block is answered by a block that may depend on all that
    came before. */
module BlockProcessing {
  import opened Bands

  const BLOCK_SIZE: nat := 64

  datatype Event = Captured(levelChange: bool, saturated: bool, block: Bands) | Rendered(block: Bands)

  type Processor = seq<Event> -> Bands

  /** The captured blocks in order. */
  function Inputs(events: seq<Event>): seq<Bands> {
    if events == [] then []
    else
      var e := events[|events| - 1];
      Inputs(events[..|events| - 1]) + if e.Captured? then [e.block] else []
  }

  /** The rendered blocks in order. */
  function Renders(events: seq<Event>): seq<Bands> {
    if events == [] then []
    else
      var e := events[|events| - 1];
      Renders(events[..|events| - 1]) + if e.Rendered? then [e.block] else []
  }

  /** The processed blocks in order. */
  function Outputs(process: Processor, events: seq<Event>): seq<Bands> {
    if events == [] then []
    else
      Outputs(process, events[..|events| - 1]) + if events[|events| - 1].Captured? then [process(events)] else []
  }

  lemma EventsSnoc(process: Processor, events: seq<Event>, e: Event)
    ensures e.Captured? ==>
              && Inputs(events + [e]) == Inputs(events) + [e.block] && Renders(events + [e]) == Renders(events)
              && Outputs(process, events + [e]) == Outputs(process, events) + [process(events + [e])]
    ensures e.Rendered? ==>
              && Renders(events + [e]) == Renders(events) + [e.block] && Inputs(events + [e]) == Inputs(events)
              && Outputs(process, events + [e]) == Outputs(process, events)
  {
    assert (events + [e])[..|events|] == events;
  }

  /** A history that asks for an answer: it ends in a captured block of the right shape. */
  ghost predicate Asks(events: seq<Event>, n: nat) {
    && events != [] && events[|events| - 1].Captured?
    && Uniform(events[|events| - 1].block, n, BLOCK_SIZE)
  }

  /** A processor that answers blocks of the right shape with blocks of that shape. */
  ghost predicate KeepsShape(process: Processor, n: nat) {
    forall events: seq<Event> :: Asks(events, n) ==> Uniform(process(events), n, BLOCK_SIZE)
  }

  /** A processor that answers every block of the right shape with that block. */
  ghost predicate IsIdentity(process: Processor, n: nat) {
    forall events: seq<Event> :: Asks(events, n) ==> process(events) == events[|events| - 1].block
  }

  lemma {:induction false} IdentityCopies(process: Processor, n: nat, events: seq<Event>)
    requires IsIdentity(process, n) && AllUniform(Inputs(events), n, BLOCK_SIZE)
    ensures Outputs(process, events) == Inputs(events)
  {
    if events != [] {
      var last := events[|events| - 1];
      var before := Inputs(events[..|events| - 1]);
      assert forall i: nat :: i < |before| ==> before[i] == Inputs(events)[i];
      IdentityCopies(process, n, events[..|events| - 1]);
      if last.Captured? {
        assert Inputs(events)[|before|] == last.block;
        assert Asks(events, n);
      }
    }
  }

  /** The processor that hands every block back. */
  function Echo(events: seq<Event>): Bands {
    if events == [] then [] else events[|events| - 1].block
  }

  lemma EchoIsIdentity(n: nat)
    ensures IsIdentity(Echo, n) && KeepsShape(Echo, n)
  {
  }

  class BlockProcessor {
    const process: Processor
    var events: seq<Event>

    constructor (process: Processor)
      ensures this.process == process && events == []
    {
      this.process := process;
      events := [];
    }

    method ProcessCapture(levelChange: bool, saturated: bool, block: Bands) returns (processed: Bands)
      modifies this
      ensures events == old(events) + [Captured(levelChange, saturated, block)] && processed == process(events)
    {
      events := events + [Captured(levelChange, saturated, block)];
      processed := process(events);
    }

    method BufferRender(block: Bands)
      modifies this
      ensures events == old(events) + [Rendered(block)]
    {
      events := events + [Rendered(block)];
    }
  }
}

/** From 80-sample sub-frames to 64-sample blocks and back. */
module Framing {
  import opened RingBuffers
  import opened Bands
  import opened BlockProcessing

  const SUB_FRAME_LENGTH: nat := 80

  class AudioBuffer {
    var splitBands: Bands

    constructor (splitBands: Bands)
      ensures this.splitBands == splitBands
    {
      this.splitBands := splitBands;
    }
  }

  class FrameBlocker {
    const numBands: nat
    var buffer: Bands

    constructor (numBands: nat)
      ensures this.numBands == numBands && Uniform(buffer, numBands, 0)
    {
      this.numBands := numBands;
      buffer := seq(numBands, _ => []);
    }

    /** Takes the first block out of what is stored followed by the sub-frame, and stores the rest. */
    method InsertSubFrameAndExtractBlock(subFrame: Bands) returns (block: Bands)
      requires exists fill: nat :: fill <= BLOCK_SIZE - 16 && Uniform(buffer, numBands, fill)
      requires Uniform(subFrame, numBands, SUB_FRAME_LENGTH)
      modifies this
      ensures Uniform(block, numBands, BLOCK_SIZE) && Joined(block, buffer, old(buffer), subFrame)
    {
      ghost var was := buffer;
      block := seq(numBands, _ => []);
      for i := 0 to numBands
        modifies this
        invariant |block| == |buffer| == numBands
        invariant forall j: nat :: j < i ==> |block[j]| == BLOCK_SIZE && block[j] + buffer[j] == was[j] + subFrame[j]
        invariant forall j: nat :: i <= j < numBands ==> buffer[j] == was[j]
      {
        var samplesToBlock := BLOCK_SIZE - |buffer[i]|;
        block := block[i := buffer[i] + subFrame[i][..samplesToBlock]];
        buffer := buffer[i := subFrame[i][samplesToBlock..]];
        assert block[i] + buffer[i] == was[i] + subFrame[i];
      }
    }

    method IsBlockAvailable() returns (available: bool)
      requires |buffer| == numBands > 0
      ensures available == (|buffer[0]| == BLOCK_SIZE)
    {
      available := BLOCK_SIZE == |buffer[0]|;
    }

    method ExtractBlock() returns (block: Bands)
      requires Uniform(buffer, numBands, BLOCK_SIZE)
      modifies this
      ensures block == old(buffer) && Uniform(buffer, numBands, 0)
    {
      ghost var was := buffer;
      block := seq(numBands, _ => []);
      for i := 0 to numBands
        modifies this
        invariant |block| == |buffer| == numBands
        invariant forall j: nat :: j < i ==> block[j] == was[j] && buffer[j] == []
        invariant forall j: nat :: i <= j < numBands ==> buffer[j] == was[j]
      {
        block := block[i := buffer[i]];
        buffer := buffer[i := []];
      }
    }
  }

  class BlockFramer {
    const numBands: nat
    var buffer: Bands

    constructor (numBands: nat)
      ensures this.numBands == numBands && buffer == Silence(numBands, BLOCK_SIZE)
    {
      this.numBands := numBands;
      buffer := Silence(numBands, BLOCK_SIZE);
    }

    method InsertBlock(block: Bands)
      requires Uniform(block, numBands, BLOCK_SIZE) && Uniform(buffer, numBands, 0)
      modifies this
      ensures buffer == block
    {
      for i := 0 to numBands
        modifies this
        invariant |buffer| == numBands
        invariant forall j: nat :: j < i ==> buffer[j] == block[j]
        invariant forall j: nat :: i <= j < numBands ==> buffer[j] == []
      {
        buffer := buffer[i := block[i] + buffer[i]];
      }
    }

    /** Writes into the frame the first sub-frame of what is stored followed by the block, and stores the rest. */
    method InsertBlockAndExtractSubFrame(block: Bands, frame: AudioBuffer, start: nat) returns (ghost subFrame: Bands)
      requires Uniform(block, numBands, BLOCK_SIZE)
      requires exists fill: nat :: 16 <= fill <= BLOCK_SIZE && Uniform(buffer, numBands, fill)
      requires |frame.splitBands| == numBands
      requires forall j: nat :: j < numBands ==> start + SUB_FRAME_LENGTH <= |frame.splitBands[j]|
      modifies this, frame
      ensures Uniform(subFrame, numBands, SUB_FRAME_LENGTH) && Joined(subFrame, buffer, old(buffer), block)
      ensures |frame.splitBands| == numBands
      ensures forall j: nat :: j < numBands ==>
                                 frame.splitBands[j] == Splice(old(frame.splitBands)[j], start, subFrame[j])
    {
      ghost var was, frameWas := buffer, frame.splitBands;
      subFrame := seq(numBands, _ => []);
      for i := 0 to numBands
        modifies this, frame
        invariant |subFrame| == |buffer| == |frame.splitBands| == numBands
        invariant forall j: nat :: j < i ==>
                    |subFrame[j]| == SUB_FRAME_LENGTH && subFrame[j] + buffer[j] == was[j] + block[j]
        invariant forall j: nat :: j < i ==> frame.splitBands[j] == Splice(frameWas[j], start, subFrame[j])
        invariant forall j: nat :: i <= j < numBands ==> buffer[j] == was[j] && frame.splitBands[j] == frameWas[j]
      {
        var samplesToFrame := SUB_FRAME_LENGTH - |buffer[i]|;
        var band := Splice(frame.splitBands[i], start, buffer[i]);
        band := Splice(band, start + |buffer[i]|, block[i][..samplesToFrame]);
        subFrame := subFrame[i := buffer[i] + block[i][..samplesToFrame]];
        SpliceTwice(frameWas[i], start, buffer[i], block[i][..samplesToFrame]);
        frame.splitBands := frame.splitBands[i := band];
        buffer := buffer[i := block[i][samplesToFrame..]];
        assert subFrame[i] + buffer[i] == was[i] + block[i];
      }
    }
  }

  lemma SpliceTwice(s: seq<Sample>, start: nat, x: seq<Sample>, y: seq<Sample>)
    requires start + |x| + |y| <= |s|
    ensures Splice(Splice(s, start, x), start + |x|, y) == Splice(s, start, x + y)
  {
  }
}

/** A fixed delay of each band, in a ring written in place. */
module BlockDelay {
  import opened Bands
  import opened Circular
  import opened Framing

  /** What a ring holds, oldest first. */
  function Pending(ring: seq<Sample>, i: nat): (r: seq<Sample>)
    requires i <= |ring|
    ensures |r| == |ring|
  {
    ring[i..] + ring[..i]
  }

  /** Swapping a sample with the slot at the index takes the oldest out and puts the sample in last. */
  lemma SwapOne(ring: seq<Sample>, i: nat, x: Sample)
    requires i < |ring|
    ensures [ring[i]] + Pending(ring[i := x], Next(i, |ring|)) == Pending(ring, i) + [x]
  {
    var next := Next(i, |ring|);
    var r := ring[i := x];
    if next == 0 {
      assert r[next..] == ring[..i] + [x] && r[..next] == [];
    } else {
      assert r[next..] == ring[i + 1..] && r[..next] == ring[..i] + [x];
      assert ring[i..] == [ring[i]] + ring[i + 1..];
    }
  }

  lemma SwapMany(out: seq<Sample>, ring: seq<Sample>, i: nat, x: Sample, all: seq<Sample>)
    requires i < |ring| && out + Pending(ring, i) == all
    ensures (out + [ring[i]]) + Pending(ring[i := x], Next(i, |ring|)) == all + [x]
  {
    SwapOne(ring, i, x);
    var a, b := [ring[i]], Pending(ring[i := x], Next(i, |ring|));
    hide Pending, Next;
    assert (out + a) + b == out + (a + b);
    assert out + (Pending(ring, i) + [x]) == (out + Pending(ring, i)) + [x];
  }

  class BlockDelayBuffer {
    const frameLength: nat
    const delay: nat
    var buf: Bands
    var lastInsert: nat

    ghost predicate Valid()
      reads this
    {
      && (forall j: nat :: j < |buf| ==> |buf[j]| == delay)
      && |buf| > 0
      && (if delay == 0 then lastInsert == 0 else lastInsert < delay)
    }

    /** The delayed samples of a band, oldest first. */
    ghost function PendingOf(j: nat): seq<Sample>
      requires Valid() && j < |buf|
      reads this
    {
      Pending(buf[j], lastInsert)
    }

    constructor (numBands: nat, frameLength: nat, delay: nat)
      requires numBands > 0
      ensures Valid() && |buf| == numBands && this.frameLength == frameLength && this.delay == delay
      ensures forall j: nat :: j < numBands ==> PendingOf(j) == Zeros(delay)
    {
      this.frameLength := frameLength;
      this.delay := delay;
      buf := Silence(numBands, delay);
      lastInsert := 0;
    }

    /** Replaces a frame by what was put in the given number of samples ago, and keeps the frame's last samples. */
    method DelaySignal(frame: AudioBuffer)
      requires Valid() && Uniform(frame.splitBands, |buf|, frameLength)
      modifies this, frame
      ensures Valid() && |buf| == |old(buf)| && Uniform(frame.splitBands, |buf|, frameLength)
      ensures forall j: nat :: j < |buf| ==>
                                 frame.splitBands[j] + PendingOf(j) == old(PendingOf(j)) + old(frame.splitBands)[j]
    {
      if delay == 0 {
        return;
      }
      var iStart := lastInsert;
      ghost var n, was, input := |buf|, buf, frame.splitBands;
      var i := 0;
      for j := 0 to |buf|
        modifies this`buf, frame
        invariant |buf| == n && Uniform(buf, n, delay) && Uniform(frame.splitBands, n, frameLength)
        invariant j > 0 ==> i == Advance(iStart, delay, frameLength)
        invariant forall k: nat :: k < j ==>
                                     frame.splitBands[k] + Pending(buf[k], Advance(iStart, delay, frameLength))
                                     == Pending(was[k], iStart) + input[k]
        invariant forall k: nat :: j <= k < n ==> buf[k] == was[k] && frame.splitBands[k] == input[k]
      {
        var band, ring;
        ring, band, i := DelayBand(buf[j], frame.splitBands[j], iStart);
        hide Pending, Advance;
        buf := buf[j := ring];
        frame.splitBands := frame.splitBands[j := band];
      }
      lastInsert := i;
    }

    /** The inner loop over the samples of one band. */
    static method DelayBand(buf: seq<Sample>, frame: seq<Sample>, iStart: nat)
      returns (ring: seq<Sample>, band: seq<Sample>, i: nat)
      requires iStart < |buf|
      ensures |ring| == |buf| && |band| == |frame| && i == Advance(iStart, |buf|, |frame|)
      ensures band + Pending(ring, i) == Pending(buf, iStart) + frame
    {
      ring, band, i := buf, frame, iStart;
      assert band[..0] + Pending(ring, i) == Pending(buf, iStart) + frame[..0];
      for k := 0 to |frame|
        invariant |ring| == |buf| && |band| == |frame| && i == Advance(iStart, |buf|, k)
        invariant band[..k] + Pending(ring, i) == Pending(buf, iStart) + frame[..k]
        invariant band[k..] == frame[k..]
      {
        SwapMany(band[..k], ring, i, frame[k], Pending(buf, iStart) + frame[..k]);
        hide Pending;
        var tmp := ring[i];
        ghost var done := band[..k];
        ring := ring[i := band[k]];
        band := band[k := tmp];
        assert band[..k + 1] == done + [tmp];
        assert Pending(buf, iStart) + frame[..k + 1] == (Pending(buf, iStart) + frame[..k]) + [frame[k]];
        i := if i < |ring| - 1 then i + 1 else 0;
      }
      assert band[..|frame|] == band && frame[..|frame|] == frame;
    }
  }
}

/** The capture and render paths of the echo canceller. */
module EchoCanceller3 {
  import opened RingBuffers
  import opened Bands
  import opened BlockProcessing
  import opened Framing
  import opened BlockDelay

  /** Blocker and framer together always store one block: all that went into the blocker is in the captured blocks or
      still stored, and all that left the framer, with what it stores, is one block of silence and the processed
      blocks. */
  ghost predicate Framed(process: Processor, events: seq<Event>, delayed: Bands, emitted: Bands, blocker: Bands,
                         framer: Bands, n: nat, fill: nat) {
    && fill <= BLOCK_SIZE && Uniform(blocker, n, fill) && Uniform(framer, n, BLOCK_SIZE - fill)
    && |delayed| == |emitted| == n
    && AllUniform(Inputs(events), n, BLOCK_SIZE)
    && (forall j: nat :: j < n ==> delayed[j] == Flat(Inputs(events), j) + blocker[j])
    && (forall j: nat :: j < n ==> emitted[j] + framer[j] == Zeros(BLOCK_SIZE) + Flat(Outputs(process, events), j))
  }

  ghost predicate Blocked(events: seq<Event>, renderInput: Bands, blocker: Bands, n: nat, fill: nat) {
    && fill <= BLOCK_SIZE && Uniform(blocker, n, fill) && |renderInput| == n
    && (forall j: nat :: j < n ==> renderInput[j] == Flat(Renders(events), j) + blocker[j])
  }

  lemma Regroup(a: seq<Sample>, b: seq<Sample>, c: seq<Sample>, d: seq<Sample>, e: seq<Sample>)
    requires b + c == d + e
    ensures (a + b) + c == (a + d) + e
  {
    assert (a + b) + c == a + (b + c);
    assert (a + d) + e == a + (d + e);
  }

  /** A sub-frame keeps the relation and moves 16 samples of the stored block from the framer to the blocker. */
  lemma FramedSubFrame(process: Processor, events: seq<Event>, e: Event, delayed: Bands, emitted: Bands, blocker: Bands,
                       framer: Bands, n: nat, fill: nat, sub: Bands, blocker': Bands, out: Bands, framer': Bands)
    requires Framed(process, events, delayed, emitted, blocker, framer, n, fill) && fill <= BLOCK_SIZE - 16
    requires e.Captured? && KeepsShape(process, n) && Uniform(sub, n, SUB_FRAME_LENGTH)
    requires Uniform(e.block, n, BLOCK_SIZE) && Joined(e.block, blocker', blocker, sub)
    requires Uniform(out, n, SUB_FRAME_LENGTH) && Joined(out, framer', framer, process(events + [e]))
    ensures Framed(process, events + [e], Cat(delayed, sub), Cat(emitted, out), blocker', framer', n, fill + 16)
  {
    EventsSnoc(process, events, e);
    var p := process(events + [e]);
    assert Asks(events + [e], n);
    assert Uniform(p, n, BLOCK_SIZE);
    AllUniformSnoc(Inputs(events), e.block, n, BLOCK_SIZE);
    hide Flat, Inputs, Outputs, Zeros, KeepsShape, Asks, AllUniform, Cat;
    forall j: nat | j < n
      ensures |blocker'[j]| == fill + 16 && |framer'[j]| == BLOCK_SIZE - fill - 16
      ensures Cat(delayed, sub)[j] == Flat(Inputs(events + [e]), j) + blocker'[j]
      ensures Cat(emitted, out)[j] + framer'[j] == Zeros(BLOCK_SIZE) + Flat(Outputs(process, events + [e]), j)
    {
      FlatSnoc(Inputs(events), e.block, j);
      FlatSnoc(Outputs(process, events), p, j);
      SubFrameBand(Flat(Inputs(events), j), blocker[j], sub[j], e.block[j], blocker'[j],
                   Zeros(BLOCK_SIZE), Flat(Outputs(process, events), j), framer[j], p[j], out[j], framer'[j],
                   emitted[j]);
    }
  }

  lemma SubFrameBand(x: seq<Sample>, b: seq<Sample>, sub: seq<Sample>, block: seq<Sample>, b': seq<Sample>,
                     z: seq<Sample>, y: seq<Sample>, f: seq<Sample>, p: seq<Sample>, out: seq<Sample>,
                     f': seq<Sample>, e: seq<Sample>)
    requires block + b' == b + sub && out + f' == f + p && e + f == z + y
    requires |sub| == |out| == SUB_FRAME_LENGTH && |block| == |p| == BLOCK_SIZE
    ensures |b'| == |b| + 16 && |f'| == |f| - 16
    ensures (x + b) + sub == (x + block) + b' && (e + out) + f' == z + (y + p)
  {
    assert |block + b'| == |b + sub| && |out + f'| == |f + p|;
    Regroup(x, b, sub, block, b');
    Regroup(e, out, f', f, p);
    assert (z + y) + p == z + (y + p);
  }

  lemma RemainingBand(z: seq<Sample>, y: seq<Sample>, e: seq<Sample>, f: seq<Sample>, p: seq<Sample>)
    requires e + f == z + y && |f| == 0
    ensures e + p == z + (y + p)
  {
    assert e == e + f;
    assert z + (y + p) == (z + y) + p;
  }

  lemma FramedRemaining(process: Processor, events: seq<Event>, e: Event, delayed: Bands, emitted: Bands,
                        blocker: Bands, framer: Bands, n: nat, blocker': Bands, framer': Bands)
    requires Framed(process, events, delayed, emitted, blocker, framer, n, BLOCK_SIZE)
    requires e.Captured? && e.block == blocker && KeepsShape(process, n)
    requires Uniform(blocker', n, 0) && framer' == process(events + [e])
    ensures Framed(process, events + [e], delayed, emitted, blocker', framer', n, 0)
  {
    EventsSnoc(process, events, e);
    assert Asks(events + [e], n);
    assert Uniform(framer', n, BLOCK_SIZE);
    AllUniformSnoc(Inputs(events), e.block, n, BLOCK_SIZE);
    hide Flat, Inputs, Outputs, Zeros, KeepsShape, Asks, AllUniform;
    forall j: nat | j < n
      ensures delayed[j] == Flat(Inputs(events + [e]), j) + blocker'[j]
      ensures emitted[j] + framer'[j] == Zeros(BLOCK_SIZE) + Flat(Outputs(process, events + [e]), j)
    {
      FlatSnoc(Inputs(events), e.block, j);
      FlatSnoc(Outputs(process, events), framer', j);
      RemainingBand(Zeros(BLOCK_SIZE), Flat(Outputs(process, events), j), emitted[j], framer[j], framer'[j]);
      assert blocker'[j] == [];
    }
  }

  lemma RenderedKeepsFramed(process: Processor, events: seq<Event>, e: Event, delayed: Bands, emitted: Bands,
                            blocker: Bands, framer: Bands, n: nat, fill: nat)
    requires Framed(process, events, delayed, emitted, blocker, framer, n, fill) && e.Rendered?
    ensures Framed(process, events + [e], delayed, emitted, blocker, framer, n, fill)
  {
    EventsSnoc(process, events, e);
  }

  lemma CapturedKeepsBlocked(process: Processor, events: seq<Event>, e: Event, renderInput: Bands, blocker: Bands,
                             n: nat, fill: nat)
    requires Blocked(events, renderInput, blocker, n, fill) && e.Captured?
    ensures Blocked(events + [e], renderInput, blocker, n, fill)
  {
    EventsSnoc(process, events, e);
  }

  lemma BlockedSubFrame(process: Processor, events: seq<Event>, e: Event, renderInput: Bands, blocker: Bands, n: nat,
                        fill: nat, sub: Bands, blocker': Bands)
    requires Blocked(events, renderInput, blocker, n, fill) && fill <= BLOCK_SIZE - 16
    requires e.Rendered? && Uniform(sub, n, SUB_FRAME_LENGTH)
    requires Uniform(e.block, n, BLOCK_SIZE) && Joined(e.block, blocker', blocker, sub)
    ensures Blocked(events + [e], Cat(renderInput, sub), blocker', n, fill + 16)
  {
    EventsSnoc(process, events, e);
    forall j: nat | j < n
      ensures |blocker'[j]| == fill + 16
      ensures Cat(renderInput, sub)[j] == Flat(Renders(events + [e]), j) + blocker'[j]
    {
      FlatSnoc(Renders(events), e.block, j);
      assert |e.block[j] + blocker'[j]| == |blocker[j] + sub[j]|;
      Regroup(Flat(Renders(events), j), blocker[j], sub[j], e.block[j], blocker'[j]);
    }
  }

  lemma BlockedRemaining(process: Processor, events: seq<Event>, e: Event, renderInput: Bands, blocker: Bands, n: nat,
                         blocker': Bands)
    requires Blocked(events, renderInput, blocker, n, BLOCK_SIZE) && e.Rendered? && e.block == blocker
    requires Uniform(blocker', n, 0)
    ensures Blocked(events + [e], renderInput, blocker', n, 0)
  {
    EventsSnoc(process, events, e);
    forall j: nat | j < n
      ensures renderInput[j] == Flat(Renders(events + [e]), j) + blocker'[j]
    {
      FlatSnoc(Renders(events), e.block, j);
      assert blocker'[j] == [];
    }
  }

  /** The fixed delay: what went on to the blocker, with what is still pending, is silence and then the input. */
  ghost predicate Delayed(input: Bands, delayed: Bands, pending: Bands, delay: nat, n: nat) {
    && |input| == |delayed| == |pending| == n
    && forall j: nat :: j < n ==>
                          |delayed[j]| == |input[j]| && |pending[j]| == delay
                          && delayed[j] + pending[j] == Zeros(delay) + input[j]
  }

  /** With any processor, the output is one block of silence followed by the processed blocks. */
  lemma OutputIsProcessed(process: Processor, events: seq<Event>, delayed: Bands, emitted: Bands, blocker: Bands,
                          framer: Bands, n: nat, fill: nat, j: nat)
    requires Framed(process, events, delayed, emitted, blocker, framer, n, fill) && j < n
    ensures emitted[j] <= Zeros(BLOCK_SIZE) + Flat(Outputs(process, events), j)
    ensures |emitted[j]| == |Flat(Outputs(process, events), j)| + fill
    ensures Flat(Inputs(events), j) <= delayed[j] && |delayed[j]| == |Flat(Inputs(events), j)| + fill
  {
    assert emitted[j] + framer[j] == Zeros(BLOCK_SIZE) + Flat(Outputs(process, events), j);
    assert |emitted[j] + framer[j]| == |emitted[j]| + |framer[j]|;
  }

  /** Sample by sample: silence for one block and the fixed delay, and then the input. */
  lemma DelayedSamples(input: seq<Sample>, delay: nat, t: nat)
    requires t < |input|
    ensures (Zeros(BLOCK_SIZE + delay) + input)[..|input|][t] == if t < 64 + delay then 0.0 else input[t - 64 - delay]
  {
  }

  /** With a processor that answers every block with itself, the path is a pure delay of one block and the fixed
      delay. */
  lemma {:induction false} PureDelay(process: Processor, events: seq<Event>, input: Bands, delayed: Bands,
                                     pending: Bands, emitted: Bands, blocker: Bands, framer: Bands, n: nat,
                                     fill: nat, delay: nat, j: nat)
    requires Framed(process, events, delayed, emitted, blocker, framer, n, fill) && j < n
    requires Delayed(input, delayed, pending, delay, n) && Outputs(process, events) == Inputs(events)
    ensures |emitted| == |input| == n && |emitted[j]| == |input[j]|
    ensures emitted[j] == (Zeros(BLOCK_SIZE + delay) + input[j])[..|input[j]|]
  {
    OutputIsProcessed(process, events, delayed, emitted, blocker, framer, n, fill, j);
    var x := Flat(Inputs(events), j);
    DelayTwice(emitted[j], x, delayed[j], pending[j], input[j], delay);
  }

  /** A pure delay: every band is silence and then the input, cut to the input's length. */
  ghost predicate DelayedBy(output: Bands, input: Bands, delay: nat) {
    && |output| == |input|
    && forall j: nat :: j < |input| ==>
                          |output[j]| == |input[j]| && output[j] == (Zeros(delay) + input[j])[..|input[j]|]
  }

  lemma DelayTwice(emitted: seq<Sample>, x: seq<Sample>, delayed: seq<Sample>, pending: seq<Sample>, input: seq<Sample>,
                   delay: nat)
    requires emitted <= Zeros(BLOCK_SIZE) + x && x <= delayed
    requires delayed + pending == Zeros(delay) + input
    requires |emitted| == |delayed| == |input|
    ensures emitted == (Zeros(BLOCK_SIZE + delay) + input)[..|input|]
  {
    var z := Zeros(BLOCK_SIZE + delay) + input;
    forall k: nat | k < |input|
      ensures emitted[k] == z[k]
    {
      assert emitted[k] == (Zeros(BLOCK_SIZE) + x)[k];
      if k >= BLOCK_SIZE {
        assert emitted[k] == x[k - BLOCK_SIZE] == delayed[k - BLOCK_SIZE] == (delayed + pending)[k - BLOCK_SIZE];
        assert emitted[k] == (Zeros(delay) + input)[k - BLOCK_SIZE];
      }
    }
  }

  /** A frame holds a sub-frame at 8 kHz and two otherwise. */
  function SubFrameView(frame: Bands, index: nat): (r: Bands)
    requires forall j: nat :: j < |frame| ==> (index + 1) * SUB_FRAME_LENGTH <= |frame[j]|
  {
    Slice(frame, index * SUB_FRAME_LENGTH, (index + 1) * SUB_FRAME_LENGTH)
  }

  class EchoCanceller3 {
    const sampleRateHz: int
    const numBands: nat
    const frameLength: nat
    const outputFramer: BlockFramer
    const captureBlocker: FrameBlocker
    const renderBlocker: FrameBlocker
    const blockProcessor: BlockProcessor
    const blockDelayBuffer: BlockDelayBuffer
    /** All the capture frames so far, all that left the fixed delay, all the output frames, all the render frames. */
    ghost var input: Bands
    ghost var delayed: Bands
    ghost var emitted: Bands
    ghost var renderInput: Bands

    ghost predicate Shaped() {
      && numBands > 0
      && frameLength == FrameLength(sampleRateHz)
      && captureBlocker != renderBlocker
      && outputFramer.numBands == captureBlocker.numBands == renderBlocker.numBands == numBands
      && blockDelayBuffer.frameLength == frameLength
      && KeepsShape(blockProcessor.process, numBands)
    }

    ghost predicate CaptureIs(fill: nat)
      reads this, captureBlocker, outputFramer, blockProcessor
    {
      Framed(blockProcessor.process, blockProcessor.events, delayed, emitted, captureBlocker.buffer,
             outputFramer.buffer, numBands, fill)
    }

    ghost predicate RenderIs(fill: nat)
      reads this, renderBlocker, blockProcessor
    {
      Blocked(blockProcessor.events, renderInput, renderBlocker.buffer, numBands, fill)
    }

    /** Between frames the fill of a blocker is a multiple of what a frame leaves behind, and never a whole block. */
    ghost predicate Between(fill: nat) {
      fill == 0 || fill == 32 || (sampleRateHz == 8000 && (fill == 16 || fill == 48))
    }

    ghost function PendingBands(): (r: Bands)
      requires blockDelayBuffer.Valid()
      reads blockDelayBuffer
    {
      seq(|blockDelayBuffer.buf|, j requires 0 <= j < |blockDelayBuffer.buf| reads blockDelayBuffer
                                    requires blockDelayBuffer.Valid() => blockDelayBuffer.PendingOf(j))
    }

    ghost predicate Valid()
      reads this, captureBlocker, renderBlocker, outputFramer, blockProcessor, blockDelayBuffer
    {
      && Shaped()
      && (exists fill: nat :: Between(fill) && CaptureIs(fill))
      && (exists fill: nat :: Between(fill) && RenderIs(fill))
      && blockDelayBuffer.Valid()
      && Delayed(input, delayed, PendingBands(), blockDelayBuffer.delay, numBands)
    }

    /** Whatever frames have been processed: an identity processor makes the path a pure delay of every band. */
    lemma OutputIsDelayedInput(j: nat)
      requires Valid() && IsIdentity(blockProcessor.process, numBands) && j < numBands
      ensures |input| == |emitted| == numBands && |emitted[j]| == |input[j]|
      ensures emitted[j] == (Zeros(BLOCK_SIZE + blockDelayBuffer.delay) + input[j])[..|input[j]|]
    {
      hide Delayed, Blocked, IsIdentity, KeepsShape, PendingBands, Uniform, Flat;
      var fill: nat :| Between(fill) && CaptureIs(fill);
      InputsUniform(blockProcessor.process, blockProcessor.events, delayed, emitted, captureBlocker.buffer,
                    outputFramer.buffer, numBands, fill);
      hide Framed;
      IdentityCopies(blockProcessor.process, numBands, blockProcessor.events);
      PureDelay(blockProcessor.process, blockProcessor.events, input, delayed, PendingBands(), emitted,
                captureBlocker.buffer, outputFramer.buffer, numBands, fill, blockDelayBuffer.delay, j);
    }

    lemma AllBandsDelayed()
      requires Valid() && IsIdentity(blockProcessor.process, numBands)
      ensures |emitted| == |input| == numBands
      ensures DelayedBy(emitted, input, BLOCK_SIZE + blockDelayBuffer.delay)
    {
      assert numBands > 0;
      hide Valid, IsIdentity;
      OutputIsDelayedInput(0);
      forall j: nat | j < numBands
        ensures |emitted[j]| == |input[j]|
        ensures emitted[j] == (Zeros(BLOCK_SIZE + blockDelayBuffer.delay) + input[j])[..|input[j]|]
      {
        OutputIsDelayedInput(j);
      }
    }

    /** Any processor sees the delayed input in order, and the output is silence and then its answers in order. */
    lemma OutputIsAnswers(j: nat)
      requires Valid() && j < numBands
      ensures |delayed| == |emitted| == |renderInput| == numBands
      ensures emitted[j] <= Zeros(BLOCK_SIZE) + Flat(Outputs(blockProcessor.process, blockProcessor.events), j)
      ensures Flat(Inputs(blockProcessor.events), j) <= delayed[j]
      ensures |delayed[j]| - |Flat(Inputs(blockProcessor.events), j)| < BLOCK_SIZE
      ensures Flat(Renders(blockProcessor.events), j) <= renderInput[j]
      ensures |renderInput[j]| - |Flat(Renders(blockProcessor.events), j)| < BLOCK_SIZE
    {
      var fill: nat :| Between(fill) && CaptureIs(fill);
      OutputIsProcessed(blockProcessor.process, blockProcessor.events, delayed, emitted, captureBlocker.buffer,
                        outputFramer.buffer, numBands, fill, j);
      var renderFill: nat :| Between(renderFill) && RenderIs(renderFill);
    }

    constructor (sampleRateHz: int, numBands: nat, process: Processor, fixedCaptureDelaySamples: nat)
      requires numBands > 0 && KeepsShape(process, numBands)
      ensures Valid() && blockProcessor.process == process && blockDelayBuffer.delay == fixedCaptureDelaySamples
      ensures input == delayed == emitted == renderInput == Silence(numBands, 0)
      ensures this.sampleRateHz == sampleRateHz && this.numBands == numBands
      ensures blockProcessor.events == []
      ensures frameLength == FrameLength(sampleRateHz)
      ensures fresh(captureBlocker) && fresh(renderBlocker) && fresh(outputFramer)
      ensures fresh(blockProcessor) && fresh(blockDelayBuffer)
    {
      this.sampleRateHz := sampleRateHz;
      this.numBands := numBands;
      var frameLength := FrameLength(sampleRateHz);
      this.frameLength := frameLength;
      var framer := new BlockFramer(numBands);
      var blocker := new FrameBlocker(numBands);
      var blocker' := new FrameBlocker(numBands);
      var processor := new BlockProcessor(process);
      var delayBuffer := new BlockDelayBuffer(numBands, frameLength, fixedCaptureDelaySamples);
      outputFramer, captureBlocker, renderBlocker, blockProcessor, blockDelayBuffer :=
        framer, blocker, blocker', processor, delayBuffer;
      input := Silence(numBands, 0);
      delayed := Silence(numBands, 0);
      emitted := Silence(numBands, 0);
      renderInput := Silence(numBands, 0);
      new;
      InitiallyFramed(process, captureBlocker.buffer, numBands);
      InitiallyBlocked(renderBlocker.buffer, numBands);
      InitiallyDelayed(PendingBands(), fixedCaptureDelaySamples, numBands);
      hide Framed, Blocked, Delayed;
      assert CaptureIs(0) && RenderIs(0);
    }

    method ProcessCaptureFrameContent(capture: AudioBuffer, levelChange: bool, saturatedMicrophoneSignal: bool,
                                      subFrameIndex: nat, ghost fill: nat) returns (ghost out: Bands)
      requires Shaped() && CaptureIs(fill) && fill <= BLOCK_SIZE - 16
      requires |capture.splitBands| == numBands
      requires forall j: nat :: j < numBands ==> (subFrameIndex + 1) * SUB_FRAME_LENGTH <= |capture.splitBands[j]|
      modifies this`delayed, this`emitted, captureBlocker, outputFramer, blockProcessor, capture
      ensures CaptureIs(fill + 16)
      ensures exists e: Event :: CapturedWith(e, levelChange, saturatedMicrophoneSignal)
                                 && blockProcessor.events == old(blockProcessor.events) + [e]
      ensures delayed == Cat(old(delayed), SubFrameView(old(capture.splitBands), subFrameIndex))
      ensures Uniform(out, numBands, SUB_FRAME_LENGTH) && emitted == Cat(old(emitted), out)
      ensures |capture.splitBands| == numBands
      ensures forall j: nat :: j < numBands ==>
                                 capture.splitBands[j] ==
                                 Splice(old(capture.splitBands)[j], subFrameIndex * SUB_FRAME_LENGTH, out[j])
    {
      ghost var sub, blocker, framer, events :=
        SubFrameView(capture.splitBands, subFrameIndex), captureBlocker.buffer, outputFramer.buffer,
        blockProcessor.events;
      SubFrameShape(capture.splitBands, subFrameIndex, numBands);
      FramedShape(blockProcessor.process, events, delayed, emitted, blocker, framer, numBands, fill);
      hide Framed, Joined, Uniform, KeepsShape, Asks, SubFrameView, Cat, Splice;
      var block := captureBlocker.InsertSubFrameAndExtractBlock(SubFrameView(capture.splitBands, subFrameIndex));
      ghost var e := Captured(levelChange, saturatedMicrophoneSignal, block);
      block := blockProcessor.ProcessCapture(levelChange, saturatedMicrophoneSignal, block);
      AnswerShape(blockProcessor.process, events, e, numBands);
      out := outputFramer.InsertBlockAndExtractSubFrame(block, capture, subFrameIndex * SUB_FRAME_LENGTH);
      FramedSubFrame(blockProcessor.process, events, e, delayed, emitted, blocker, framer, numBands, fill, sub,
                     captureBlocker.buffer, out, outputFramer.buffer);
      delayed := Cat(delayed, sub);
      emitted := Cat(emitted, out);
    }

    method ProcessRemainingCaptureFrameContent(levelChange: bool, saturatedMicrophoneSignal: bool, ghost fill: nat)
      requires Shaped() && CaptureIs(fill)
      modifies captureBlocker, outputFramer, blockProcessor
      ensures CaptureIs(if fill == BLOCK_SIZE then 0 else fill)
      ensures blockProcessor.events == old(blockProcessor.events)
           || exists e: Event :: CapturedWith(e, levelChange, saturatedMicrophoneSignal)
                                 && blockProcessor.events == old(blockProcessor.events) + [e]
    {
      var available := captureBlocker.IsBlockAvailable();
      if !available {
        return;
      }
      ghost var blocker, framer, events := captureBlocker.buffer, outputFramer.buffer, blockProcessor.events;
      var block := captureBlocker.ExtractBlock();
      ghost var e := Captured(levelChange, saturatedMicrophoneSignal, block);
      block := blockProcessor.ProcessCapture(levelChange, saturatedMicrophoneSignal, block);
      outputFramer.InsertBlock(block);
      FramedRemaining(blockProcessor.process, events, e, delayed, emitted, blocker, framer, numBands,
                      captureBlocker.buffer, outputFramer.buffer);
    }

    method BufferRenderFrameContent(renderFrame: Bands, subFrameIndex: nat, ghost fill: nat, ghost captureFill: nat)
      requires Shaped() && CaptureIs(captureFill) && RenderIs(fill) && fill <= BLOCK_SIZE - 16
      requires |renderFrame| == numBands
      requires forall j: nat :: j < numBands ==> (subFrameIndex + 1) * SUB_FRAME_LENGTH <= |renderFrame[j]|
      modifies this`renderInput, renderBlocker, blockProcessor
      ensures CaptureIs(captureFill) && RenderIs(fill + 16)
      ensures OnlyRendered(old(blockProcessor.events), blockProcessor.events)
      ensures renderInput == Cat(old(renderInput), SubFrameView(renderFrame, subFrameIndex))
    {
      ghost var sub, blocker, events := SubFrameView(renderFrame, subFrameIndex),
                                          renderBlocker.buffer, blockProcessor.events;
      var block := renderBlocker.InsertSubFrameAndExtractBlock(SubFrameView(renderFrame, subFrameIndex));
      hide Framed, Joined;
      blockProcessor.BufferRender(block);
      BlockedSubFrame(blockProcessor.process, events, Rendered(block), renderInput, blocker, numBands, fill, sub,
                      renderBlocker.buffer);
      RenderedKeepsFramed(blockProcessor.process, events, Rendered(block), delayed, emitted, captureBlocker.buffer,
                          outputFramer.buffer, numBands, captureFill);
      renderInput := Cat(renderInput, sub);
    }

    method BufferRemainingRenderFrameContent(ghost fill: nat, ghost captureFill: nat)
      requires Shaped() && CaptureIs(captureFill) && RenderIs(fill)
      modifies renderBlocker, blockProcessor
      ensures CaptureIs(captureFill) && RenderIs(if fill == BLOCK_SIZE then 0 else fill)
      ensures OnlyRendered(old(blockProcessor.events), blockProcessor.events)
    {
      var available := renderBlocker.IsBlockAvailable();
      if !available {
        return;
      }
      ghost var blocker, events := renderBlocker.buffer, blockProcessor.events;
      var block := renderBlocker.ExtractBlock();
      blockProcessor.BufferRender(block);
      BlockedRemaining(blockProcessor.process, events, Rendered(block), renderInput, blocker, numBands,
                       renderBlocker.buffer);
      RenderedKeepsFramed(blockProcessor.process, events, Rendered(block), delayed, emitted, captureBlocker.buffer,
                          outputFramer.buffer, numBands, captureFill);
    }

    /** One render frame out of the queue. */
    method BufferRenderFrame(renderFrame: Bands, ghost captureFill: nat)
      requires Shaped() && CaptureIs(captureFill) && (exists fill: nat :: Between(fill) && RenderIs(fill))
      requires Uniform(renderFrame, numBands, frameLength)
      modifies this`renderInput, renderBlocker, blockProcessor
      ensures CaptureIs(captureFill) && (exists fill: nat :: Between(fill) && RenderIs(fill))
      ensures OnlyRendered(old(blockProcessor.events), blockProcessor.events)
      ensures renderInput == Cat(old(renderInput), renderFrame)
    {
      ghost var fill: nat :| Between(fill) && RenderIs(fill);
      hide Framed, Blocked;
      ghost var was := renderInput;
      assert |was| == numBands by {
        BlockedShape(blockProcessor.events, was, renderBlocker.buffer, numBands, fill);
      }
      BufferRenderFrameContent(renderFrame, 0, fill, captureFill);
      ghost var next := fill + 16;
      if sampleRateHz != 8000 {
        TwoSubFrames(was, renderFrame, numBands);
        BufferRenderFrameContent(renderFrame, 1, next, captureFill);
        next := next + 16;
      } else {
        OneSubFrame(renderFrame, numBands);
      }
      BufferRemainingRenderFrameContent(next, captureFill);
      assert Between(if next == BLOCK_SIZE then 0 else next);
    }

    /** Hands on the render frames that are waiting, in order. */
    method EmptyRenderQueue(renderTransferQueue: seq<Bands>, ghost captureFill: nat)
      requires Shaped() && CaptureIs(captureFill) && (exists fill: nat :: Between(fill) && RenderIs(fill))
      requires AllUniform(renderTransferQueue, numBands, frameLength)
      modifies this`renderInput, renderBlocker, blockProcessor
      ensures CaptureIs(captureFill) && (exists fill: nat :: Between(fill) && RenderIs(fill))
      ensures OnlyRendered(old(blockProcessor.events), blockProcessor.events)
      ensures |old(renderInput)| == numBands
              && renderInput == CatAll(old(renderInput), renderTransferQueue, numBands, frameLength)
    {
      ghost var was, events := renderInput, blockProcessor.events;
      ghost var fill: nat :| Between(fill) && RenderIs(fill);
      BlockedShape(blockProcessor.events, was, renderBlocker.buffer, numBands, fill);
      hide Framed, Blocked;
      for i := 0 to |renderTransferQueue|
        modifies this`renderInput, renderBlocker, blockProcessor
        invariant CaptureIs(captureFill) && (exists fill: nat :: Between(fill) && RenderIs(fill))
        invariant OnlyRendered(events, blockProcessor.events)
        invariant AllUniform(renderTransferQueue[..i], numBands, frameLength)
        invariant renderInput == CatAll(was, renderTransferQueue[..i], numBands, frameLength)
      {
        CatAllSnoc(was, renderTransferQueue, i, numBands, frameLength);
        ghost var before := blockProcessor.events;
        BufferRenderFrame(renderTransferQueue[i], captureFill);
        OnlyRenderedTrans(events, before, blockProcessor.events);
      }
      assert renderTransferQueue[..|renderTransferQueue|] == renderTransferQueue;
    }

    /** The sub-frames of a capture frame, one at 8 kHz and two otherwise. */
    method ProcessSubFrames(capture: AudioBuffer, levelChange: bool, saturatedMicrophoneSignal: bool, ghost fill: nat)
      returns (ghost next: nat)
      requires Shaped() && Between(fill) && CaptureIs(fill) && Uniform(capture.splitBands, numBands, frameLength)
      modifies this`delayed, this`emitted, captureBlocker, outputFramer, blockProcessor, capture
      ensures next == (if sampleRateHz != 8000 then fill + 32 else fill + 16) && CaptureIs(next)
      ensures Uniform(capture.splitBands, numBands, frameLength)
      ensures |old(delayed)| == |old(emitted)| == numBands
      ensures delayed == Cat(old(delayed), old(capture.splitBands)) && emitted == Cat(old(emitted), capture.splitBands)
      ensures OnlyCaptured(old(blockProcessor.events), blockProcessor.events, levelChange, saturatedMicrophoneSignal)
    {
      hide Framed, Blocked, KeepsShape, OnlyCaptured, CapturedWith, SubFrameView, Cat, Splice;
      ghost var frame, delayedWas, emittedWas, events := capture.splitBands, delayed, emitted, blockProcessor.events;
      FramedShape(blockProcessor.process, blockProcessor.events, delayed, emitted, captureBlocker.buffer,
                  outputFramer.buffer, numBands, fill);
      NothingCaptured(events, levelChange, saturatedMicrophoneSignal);
      ghost var out0 := ProcessCaptureFrameContent(capture, levelChange, saturatedMicrophoneSignal, 0, fill);
      next := fill + 16;
      OnlyCapturedSnoc(events, events, blockProcessor.events, levelChange, saturatedMicrophoneSignal);
      if sampleRateHz != 8000 {
        ghost var half, before := capture.splitBands, blockProcessor.events;
        ghost var out1 := ProcessCaptureFrameContent(capture, levelChange, saturatedMicrophoneSignal, 1, next);
        OnlyCapturedSnoc(events, before, blockProcessor.events, levelChange, saturatedMicrophoneSignal);
        next := next + 16;
        WrittenSubFrames(frame, out0, half, out1, capture.splitBands, numBands);
        TwoSubFrames(delayedWas, frame, numBands);
        TwoSubFrames(emittedWas, capture.splitBands, numBands);
      } else {
        WrittenSubFrame(frame, out0, capture.splitBands, numBands);
        OneSubFrame(frame, numBands);
      }
    }

    /** A capture frame, after the fixed delay. */
    method ProcessCaptureFrame(capture: AudioBuffer, levelChange: bool, saturatedMicrophoneSignal: bool)
      requires Shaped() && (exists fill: nat :: Between(fill) && CaptureIs(fill))
      requires Uniform(capture.splitBands, numBands, frameLength)
      modifies this`delayed, this`emitted, captureBlocker, outputFramer, blockProcessor, capture
      ensures exists fill: nat :: Between(fill) && CaptureIs(fill)
      ensures Uniform(capture.splitBands, numBands, frameLength)
      ensures |old(delayed)| == |old(emitted)| == numBands
      ensures delayed == Cat(old(delayed), old(capture.splitBands)) && emitted == Cat(old(emitted), capture.splitBands)
      ensures OnlyCaptured(old(blockProcessor.events), blockProcessor.events, levelChange, saturatedMicrophoneSignal)
    {
      ghost var fill: nat :| Between(fill) && CaptureIs(fill);
      hide Framed, Blocked, KeepsShape, Uniform, OnlyCaptured, CapturedWith, Cat;
      ghost var events := blockProcessor.events;
      ghost var next := ProcessSubFrames(capture, levelChange, saturatedMicrophoneSignal, fill);
      ghost var before := blockProcessor.events;
      ProcessRemainingCaptureFrameContent(levelChange, saturatedMicrophoneSignal, next);
      OnlyCapturedSnoc(events, before, blockProcessor.events, levelChange, saturatedMicrophoneSignal);
      assert Between(if next == BLOCK_SIZE then 0 else next);
    }

    /** Replaces a capture frame by the same amount of processed output. */
    method ProcessCapture(capture: AudioBuffer, levelChange: bool, saturatedMicrophoneSignal: bool,
                          renderTransferQueue: seq<Bands>)
      requires Valid() && Uniform(capture.splitBands, numBands, frameLength)
      requires AllUniform(renderTransferQueue, numBands, frameLength)
      modifies this, captureBlocker, renderBlocker, outputFramer, blockProcessor, blockDelayBuffer, capture
      ensures Valid() && Uniform(capture.splitBands, numBands, frameLength)
      ensures |old(input)| == |old(emitted)| == |old(renderInput)| == numBands
      ensures input == Cat(old(input), old(capture.splitBands)) && emitted == Cat(old(emitted), capture.splitBands)
      ensures renderInput == CatAll(old(renderInput), renderTransferQueue, numBands, frameLength)
      ensures exists handedOver: seq<Event> ::
                OnlyRendered(old(blockProcessor.events), handedOver)
                && OnlyCaptured(handedOver, blockProcessor.events, levelChange, saturatedMicrophoneSignal)
    {
      ghost var fill: nat :| Between(fill) && CaptureIs(fill);
      FramedShape(blockProcessor.process, blockProcessor.events, delayed, emitted, captureBlocker.buffer,
                  outputFramer.buffer, numBands, fill);
      ghost var frame, pending := capture.splitBands, PendingBands();
      if blockDelayBuffer.delay > 0 {
        blockDelayBuffer.DelaySignal(capture);
      } else {
        NothingPending(pending, PendingBands(), frame, numBands);
      }
      hide Framed, Blocked;
      ghost var delayedFrame, delayedWas := capture.splitBands, delayed;
      DelayedFrame(input, delayed, pending, frame, delayedFrame, PendingBands(), blockDelayBuffer.delay, numBands,
                   frameLength);
      input := Cat(input, frame);
      hide Delayed;
      EmptyRenderQueue(renderTransferQueue, fill);
      ghost var events := blockProcessor.events;
      ghost var renderFill: nat :| Between(renderFill) && RenderIs(renderFill);
      ProcessCaptureFrame(capture, levelChange, saturatedMicrophoneSignal);
      OnlyCapturedKeepsBlocked(blockProcessor.process, events, blockProcessor.events, renderInput, renderBlocker.buffer,
                               numBands, renderFill, levelChange, saturatedMicrophoneSignal);
      assert RenderIs(renderFill);
    }

    /** The first capture frames one after another; returns all the output. */
    method ProcessFrames(frames: seq<Bands>) returns (output: Bands)
      requires Valid() && AllUniform(frames, numBands, frameLength)
      requires emitted == Silence(numBands, 0) && input == Silence(numBands, 0)
      modifies this, captureBlocker, renderBlocker, outputFramer, blockProcessor, blockDelayBuffer
      ensures Valid() && emitted == output && |output| == numBands
      ensures input == CatAll(Silence(numBands, 0), frames, numBands, frameLength)
      ensures IsIdentity(blockProcessor.process, numBands) ==>
                DelayedBy(output, CatAll(Silence(numBands, 0), frames, numBands, frameLength),
                          BLOCK_SIZE + blockDelayBuffer.delay)
    {
      ghost var start := Silence(numBands, 0);
      output := Silence(numBands, 0);
      hide Valid, Cat;
      for i := 0 to |frames|
        invariant Valid() && emitted == output && |output| == numBands
        invariant AllUniform(frames[..i], numBands, frameLength)
        invariant input == CatAll(start, frames[..i], numBands, frameLength)
      {
        CatAllSnoc(start, frames, i, numBands, frameLength);
        var capture := new AudioBuffer(frames[i]);
        ProcessCapture(capture, false, false, []);
        output := Cat(output, capture.splitBands);
      }
      assert frames[..|frames|] == frames;
      if IsIdentity(blockProcessor.process, numBands) {
        AllBandsDelayed();
      }
    }
  }

  ghost function CatAll(start: Bands, frames: seq<Bands>, n: nat, len: nat): (r: Bands)
    requires |start| == n && AllUniform(frames, n, len)
    ensures |r| == n
  {
    if frames == [] then start else Cat(CatAll(start, frames[..|frames| - 1], n, len), frames[|frames| - 1])
  }

  /** In every band, what was there and then the frames one after another. */
  lemma {:induction false} CatAllIsFlat(start: Bands, frames: seq<Bands>, n: nat, len: nat, j: nat)
    requires |start| == n && AllUniform(frames, n, len) && j < n
    ensures CatAll(start, frames, n, len)[j] == start[j] + Flat(frames, j)
  {
    if frames != [] {
      var k := |frames| - 1;
      CatAllIsFlat(start, frames[..k], n, len, j);
      var before := CatAll(start, frames[..k], n, len);
      assert Cat(before, frames[k])[j] == before[j] + frames[k][j];
      assert start[j] + (Flat(frames[..k], j) + frames[k][j]) == (start[j] + Flat(frames[..k], j)) + frames[k][j];
    }
  }

  lemma CatAllSnoc(start: Bands, frames: seq<Bands>, i: nat, n: nat, len: nat)
    requires i < |frames| && |start| == n && AllUniform(frames, n, len)
    ensures AllUniform(frames[..i], n, len) && AllUniform(frames[..i + 1], n, len)
    ensures CatAll(start, frames[..i + 1], n, len) == Cat(CatAll(start, frames[..i], n, len), frames[i])
  {
    assert frames[..i + 1][..i] == frames[..i];
  }

  lemma InitiallyFramed(process: Processor, blocker: Bands, n: nat)
    requires Uniform(blocker, n, 0)
    ensures Framed(process, [], Silence(n, 0), Silence(n, 0), blocker, Silence(n, BLOCK_SIZE), n, 0)
  {
  }

  lemma InitiallyBlocked(blocker: Bands, n: nat)
    requires Uniform(blocker, n, 0)
    ensures Blocked([], Silence(n, 0), blocker, n, 0)
  {
  }

  lemma InitiallyDelayed(pending: Bands, delay: nat, n: nat)
    requires |pending| == n && forall j: nat :: j < n ==> pending[j] == Zeros(delay)
    ensures Delayed(Silence(n, 0), Silence(n, 0), pending, delay, n)
  {
    forall j: nat | j < n
      ensures Silence(n, 0)[j] + pending[j] == Zeros(delay) + Silence(n, 0)[j]
    {
      assert Silence(n, 0)[j] == [];
    }
  }

  lemma BlockedShape(events: seq<Event>, renderInput: Bands, blocker: Bands, n: nat, fill: nat)
    requires Blocked(events, renderInput, blocker, n, fill)
    ensures |renderInput| == n
  {
  }

  lemma InputsUniform(process: Processor, events: seq<Event>, delayed: Bands, emitted: Bands, blocker: Bands,
                      framer: Bands, n: nat, fill: nat)
    requires Framed(process, events, delayed, emitted, blocker, framer, n, fill)
    ensures AllUniform(Inputs(events), n, BLOCK_SIZE)
  {
  }

  lemma FramedShape(process: Processor, events: seq<Event>, delayed: Bands, emitted: Bands, blocker: Bands,
                    framer: Bands, n: nat, fill: nat)
    requires Framed(process, events, delayed, emitted, blocker, framer, n, fill)
    ensures |delayed| == |emitted| == n && fill <= BLOCK_SIZE
    ensures Uniform(blocker, n, fill) && Uniform(framer, n, BLOCK_SIZE - fill)
  {
  }

  lemma AnswerShape(process: Processor, events: seq<Event>, e: Event, n: nat)
    requires KeepsShape(process, n) && e.Captured? && Uniform(e.block, n, BLOCK_SIZE)
    ensures Uniform(process(events + [e]), n, BLOCK_SIZE)
  {
    assert Asks(events + [e], n);
  }

  lemma SubFrameShape(frame: Bands, index: nat, n: nat)
    requires |frame| == n && forall j: nat :: j < n ==> (index + 1) * SUB_FRAME_LENGTH <= |frame[j]|
    ensures Uniform(SubFrameView(frame, index), n, SUB_FRAME_LENGTH)
  {
  }

  lemma OneSubFrame(frame: Bands, n: nat)
    requires Uniform(frame, n, SUB_FRAME_LENGTH)
    ensures SubFrameView(frame, 0) == frame
  {
    forall j: nat | j < n
      ensures SubFrameView(frame, 0)[j] == frame[j]
    {
    }
  }

  lemma TwoSubFrames(start: Bands, frame: Bands, n: nat)
    requires |start| == n && Uniform(frame, n, 2 * SUB_FRAME_LENGTH)
    ensures Cat(Cat(start, SubFrameView(frame, 0)), SubFrameView(frame, 1)) == Cat(start, frame)
  {
    forall j: nat | j < n
      ensures (start[j] + SubFrameView(frame, 0)[j]) + SubFrameView(frame, 1)[j] == start[j] + frame[j]
    {
      assert SubFrameView(frame, 0)[j] + SubFrameView(frame, 1)[j] == frame[j];
      assert (start[j] + SubFrameView(frame, 0)[j]) + SubFrameView(frame, 1)[j]
          == start[j] + (SubFrameView(frame, 0)[j] + SubFrameView(frame, 1)[j]);
    }
  }

  lemma WrittenSubFrame(frame: Bands, out: Bands, frame': Bands, n: nat)
    requires Uniform(frame, n, SUB_FRAME_LENGTH) && Uniform(out, n, SUB_FRAME_LENGTH) && |frame'| == n
    requires forall j: nat :: j < n ==> frame'[j] == Splice(frame[j], 0, out[j])
    ensures frame' == out
  {
    forall j: nat | j < n
      ensures frame'[j] == out[j]
    {
    }
  }

  lemma WrittenSubFrames(frame: Bands, out0: Bands, half: Bands, out1: Bands, frame': Bands, n: nat)
    requires Uniform(frame, n, 2 * SUB_FRAME_LENGTH) && Uniform(out0, n, SUB_FRAME_LENGTH)
    requires Uniform(out1, n, SUB_FRAME_LENGTH) && |half| == |frame'| == n
    requires forall j: nat :: j < n ==> half[j] == Splice(frame[j], 0, out0[j])
    requires forall j: nat :: j < n ==>
               |half[j]| == 2 * SUB_FRAME_LENGTH && frame'[j] == Splice(half[j], SUB_FRAME_LENGTH, out1[j])
    ensures SubFrameView(half, 1) == SubFrameView(frame, 1)
    ensures Uniform(frame', n, 2 * SUB_FRAME_LENGTH)
    ensures SubFrameView(frame', 0) == out0 && SubFrameView(frame', 1) == out1
  {
    forall j: nat | j < n
      ensures SubFrameView(half, 1)[j] == SubFrameView(frame, 1)[j]
      ensures SubFrameView(frame', 0)[j] == out0[j] && SubFrameView(frame', 1)[j] == out1[j]
    {
    }
  }

  predicate CapturedWith(e: Event, levelChange: bool, saturated: bool) {
    e.Captured? && e.levelChange == levelChange && e.saturated == saturated
  }

  /** Only captured blocks with these flags were added to a history. */
  ghost predicate OnlyCaptured(before: seq<Event>, events: seq<Event>, levelChange: bool, saturated: bool) {
    before <= events && forall i: nat :: |before| <= i < |events| ==> CapturedWith(events[i], levelChange, saturated)
  }

  /** Only rendered blocks were added to a history. */
  ghost predicate OnlyRendered(before: seq<Event>, events: seq<Event>) {
    before <= events && forall i: nat :: |before| <= i < |events| ==> events[i].Rendered?
  }

  lemma NothingCaptured(events: seq<Event>, levelChange: bool, saturated: bool)
    ensures OnlyCaptured(events, events, levelChange, saturated)
  {
  }

  lemma OnlyCapturedSnoc(start: seq<Event>, before: seq<Event>, events: seq<Event>, levelChange: bool, saturated: bool)
    requires OnlyCaptured(start, before, levelChange, saturated)
    requires events == before || exists e: Event :: CapturedWith(e, levelChange, saturated) && events == before + [e]
    ensures OnlyCaptured(start, events, levelChange, saturated)
  {
  }

  lemma OnlyRenderedTrans(a: seq<Event>, b: seq<Event>, c: seq<Event>)
    requires OnlyRendered(a, b) && OnlyRendered(b, c)
    ensures OnlyRendered(a, c)
  {
  }

  lemma {:induction false} OnlyCapturedKeepsBlocked(process: Processor, before: seq<Event>, events: seq<Event>,
                                                    renderInput: Bands, blocker: Bands, n: nat, fill: nat,
                                                    levelChange: bool, saturated: bool)
    requires OnlyCaptured(before, events, levelChange, saturated) && Blocked(before, renderInput, blocker, n, fill)
    ensures Blocked(events, renderInput, blocker, n, fill)
    decreases |events|
  {
    if |events| == |before| {
      assert events == before;
    } else {
      var k := |events| - 1;
      OnlyCapturedKeepsBlocked(process, before, events[..k], renderInput, blocker, n, fill, levelChange, saturated);
      hide Blocked;
      CapturedKeepsBlocked(process, events[..k], events[k], renderInput, blocker, n, fill);
      assert events == events[..k] + [events[k]];
    }
  }

  lemma NothingPending(pending: Bands, pending': Bands, frame: Bands, n: nat)
    requires Uniform(pending, n, 0) && |pending'| == |frame| == n && pending' == pending
    ensures forall j: nat :: j < n ==> frame[j] + pending'[j] == pending[j] + frame[j]
  {
    forall j: nat | j < n
      ensures frame[j] + pending'[j] == pending[j] + frame[j]
    {
      assert pending[j] == [];
    }
  }

  /** The fixed delay stays one over any number of frames. */
  lemma DelayedFrame(input: Bands, delayed: Bands, pending: Bands, frame: Bands, frame': Bands, pending': Bands,
                     delay: nat, n: nat, len: nat)
    requires Delayed(input, delayed, pending, delay, n)
    requires Uniform(frame, n, len) && Uniform(frame', n, len) && |pending'| == n
    requires forall j: nat :: j < n ==> frame'[j] + pending'[j] == pending[j] + frame[j]
    ensures Delayed(Cat(input, frame), Cat(delayed, frame'), pending', delay, n)
  {
    forall j: nat | j < n
      ensures |pending'[j]| == delay
      ensures (delayed[j] + frame'[j]) + pending'[j] == Zeros(delay) + (input[j] + frame[j])
    {
      assert |frame'[j] + pending'[j]| == |pending[j] + frame[j]|;
      Regroup(delayed[j], frame'[j], pending'[j], pending[j], frame[j]);
      assert Zeros(delay) + (input[j] + frame[j]) == (Zeros(delay) + input[j]) + frame[j];
    }
  }

  function FrameLength(sampleRateHz: int): nat {
    (if sampleRateHz != 8000 then 2 else 1) * SUB_FRAME_LENGTH
  }

  /** A whole run of capture frames through a new canceller whose processor hands every block back: the output is the
      input delayed by one block and the fixed delay, in every band. */
  method RunIdentity(sampleRateHz: int, numBands: nat, fixedCaptureDelaySamples: nat, frames: seq<Bands>)
    returns (output: Bands)
    requires numBands > 0 && AllUniform(frames, numBands, FrameLength(sampleRateHz))
    ensures |output| == numBands
    ensures DelayedBy(output, CatAll(Silence(numBands, 0), frames, numBands, FrameLength(sampleRateHz)),
                      BLOCK_SIZE + fixedCaptureDelaySamples)
  {
    hide *;
    EchoIsIdentity(numBands);
    var ec := new EchoCanceller3(sampleRateHz, numBands, Echo, fixedCaptureDelaySamples);
    output := ec.ProcessFrames(frames);
  }
}
