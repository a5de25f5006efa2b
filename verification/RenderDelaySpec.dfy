/** The alignment of the render buffer seen as counts of blocks: how far reading lies behind writing, how many
    sub-blocks of the low-rate buffer are unread, and the delay that is reported. */
module RenderDelaySpec {
  import opened Numbers

  const BLOCK_SIZE: nat := 64
  const MATCHED_FILTER_WINDOW_SIZE_SUB_BLOCKS: nat := 32
  const MATCHED_FILTER_ALIGNMENT_SHIFT_SIZE_SUB_BLOCKS: nat := MATCHED_FILTER_WINDOW_SIZE_SUB_BLOCKS * 3 / 4

  datatype Config = Config(
    downSamplingFactor: nat, numFilters: nat, filterLength: nat,
    defaultDelay: nat, detectionInterval: nat, maxExcess: nat)
  {
    ghost predicate Valid() {
      && 1 <= downSamplingFactor <= BLOCK_SIZE
      && defaultDelay <= Slots()
    }

    function SubBlockSize(): nat
      requires downSamplingFactor > 0
    {
      BLOCK_SIZE / downSamplingFactor
    }

    function SubBlocks(): nat {
      MATCHED_FILTER_ALIGNMENT_SHIFT_SIZE_SUB_BLOCKS * numFilters + MATCHED_FILTER_WINDOW_SIZE_SUB_BLOCKS + 1
    }

    function DownSampledBufferSize(): nat
      requires downSamplingFactor > 0
    {
      BLOCK_SIZE / downSamplingFactor * SubBlocks()
    }

    function RenderDelayBufferSize(): nat
      requires 1 <= downSamplingFactor <= BLOCK_SIZE
    {
      DownSampledBufferSize() / (BLOCK_SIZE / downSamplingFactor) + filterLength + 1
    }

    function Slots(): nat {
      SubBlocks() + filterLength + 1
    }

    /** The greatest delay that can be applied is the number of low-rate sub-blocks: more than any latency. */
    lemma {:induction false} Sizes()
      requires 1 <= downSamplingFactor <= BLOCK_SIZE
      ensures RenderDelayBufferSize() == Slots()
      ensures RenderDelayBufferSize() - 1 - filterLength == SubBlocks()
      ensures DownSampledBufferSize() == SubBlockSize() * SubBlocks() && SubBlockSize() > 0
      ensures SubBlocks() == 24 * numFilters + 33 && SubBlockSize() == 64 / downSamplingFactor
    {
      ProductQuotient(BLOCK_SIZE / downSamplingFactor, SubBlocks());
    }

    static lemma ProductQuotient(a: int, b: int)
      requires a > 0 && b >= 0
      ensures a * b / a == b
    {
      var n, d := a * b, b - a * b / a;
      assert n == a * (n / a) + n % a;
      assert a * d == n % a;
      assert d >= 1 ==> a * d >= a;
      assert d <= -1 ==> a * d <= -a;
    }
  }

  /** gap: blocks between the read and the write position; latency: unread sub-blocks of the low-rate buffer. */
  datatype Control = Control(
    gap: nat, latency: nat, delay: Option<nat>, external: Option<nat>, minLatency: nat, counter: nat)
  {
    function ComputeDelay(): int {
      gap - latency
    }
  }

  datatype Call = Insert | Capture | Reset | Align(delay: nat) | SetExternal(delay: nat)

  function Initial(c: Config): Control {
    ResetStep(c, Control(0, 0, None, None, 0, 0))
  }

  function ResetStep(c: Config, s: Control): Control {
    match s.external
    case Some(e) =>
      var gap := Min(if e <= 2 then 1 else e - 2, c.SubBlocks());
      Control(gap, 1, Some(gap - 1), s.external, 0, 0)
    case None =>
      Control(if c.defaultDelay == c.Slots() then 0 else c.defaultDelay, 1, None, None, 0, 0)
  }

  /** A render block arrives; the buffer is reset when either write position catches up with its read position. */
  predicate Overruns(c: Config, s: Control) {
    s.latency + 1 == c.SubBlocks() || s.gap + 1 == c.Slots()
  }

  function InsertStep(c: Config, s: Control): Control {
    if Overruns(c, s) then ResetStep(c, s) else s.(gap := s.gap + 1, latency := s.latency + 1)
  }

  predicate ClosesInterval(c: Config, s: Control) {
    s.counter + 1 >= c.detectionInterval
  }

  predicate ExcessDetected(c: Config, s: Control) {
    ClosesInterval(c, s) && Min(s.minLatency, s.latency) > c.maxExcess
  }

  function CaptureStep(c: Config, s: Control): Control {
    var t := if ClosesInterval(c, s) then s.(minLatency := s.latency, counter := 0)
             else s.(minLatency := Min(s.minLatency, s.latency), counter := s.counter + 1);
    if ExcessDetected(c, s) then ResetStep(c, s)
    else if s.latency == 0 then
      t.(gap := if s.gap == 0 then 0 else s.gap - 1,
         delay := if s.delay.Some? && s.delay.value > 0 then Some(s.delay.value - 1) else s.delay)
    else
      t.(gap := if s.gap == 0 then 0 else s.gap - 1, latency := s.latency - 1)
  }

  function AlignStep(c: Config, s: Control, delay: nat): Control {
    if s.delay == Some(delay) then s
    else s.(delay := Some(delay), gap := Min(c.SubBlocks(), s.latency + delay))
  }

  function Step(c: Config, s: Control, call: Call): Control {
    match call
    case Insert => InsertStep(c, s)
    case Capture => CaptureStep(c, s)
    case Reset => ResetStep(c, s)
    case Align(delay) => AlignStep(c, s, delay)
    case SetExternal(delay) => s.(external := Some(delay))
  }

  function Run(c: Config, calls: seq<Call>): Control {
    if calls == [] then Initial(c) else Step(c, Run(c, calls[..|calls| - 1]), calls[|calls| - 1])
  }

  /** Whether a call resets the buffer. */
  predicate Resets(c: Config, s: Control, call: Call) {
    match call
    case Insert => Overruns(c, s)
    case Capture => ExcessDetected(c, s)
    case Reset => true
    case Align(_) => false
    case SetExternal(_) => false
  }

  /** A reset starts with one unread sub-block and forgets what the detector recorded. Without an external delay
      reading is set the default delay behind; with one, two blocks less than that, but at least one and at most as many
      as there are sub-blocks, and the delay is reported. */
  ghost predicate IsReset(c: Config, external: Option<nat>, r: Control) {
    && r.latency == 1 && r.minLatency == 0 && r.counter == 0 && r.external == external
    && (external.None? ==> r.delay.None? && r.gap == if c.defaultDelay < c.Slots() then c.defaultDelay else 0)
    && (external.Some? ==>
          r.gap == Min(Max(external.value - 2, 1), c.SubBlocks()) && r.delay == Some(r.gap - 1))
  }

  lemma ResetIs(c: Config, s: Control)
    requires c.Valid()
    ensures IsReset(c, s.external, ResetStep(c, s))
  {
  }

  /** The external delay that was set last. */
  function LastExternal(calls: seq<Call>): Option<nat> {
    if calls == [] then None
    else if calls[|calls| - 1].SetExternal? then Some(calls[|calls| - 1].delay)
    else LastExternal(calls[..|calls| - 1])
  }

  lemma {:induction false} RunExternal(c: Config, calls: seq<Call>)
    ensures Run(c, calls).external == LastExternal(calls)
  {
    if calls != [] {
      RunExternal(c, calls[..|calls| - 1]);
    }
  }

  /** Every run whose last call resets the buffer ends in a reset state, for the external delay set last. */
  lemma RunResets(c: Config, calls: seq<Call>)
    requires c.Valid()
    requires calls == [] || Resets(c, Run(c, calls[..|calls| - 1]), calls[|calls| - 1])
    ensures IsReset(c, LastExternal(calls), Run(c, calls))
  {
    RunExternal(c, calls);
    if calls != [] {
      RunExternal(c, calls[..|calls| - 1]);
    }
  }

  function InsertCount(calls: seq<Call>): nat {
    if calls == [] then 0 else InsertCount(calls[..|calls| - 1]) + if calls[|calls| - 1].Insert? then 1 else 0
  }

  /** The index, among the inserted blocks, of the one at the read position; negative before the first. */
  function ReadIndex(c: Config, calls: seq<Call>): int {
    InsertCount(calls) - 1 - Run(c, calls).gap
  }

  /** Unless the buffer resets, reading stays with inserts, moves on by one block with every capture until it is at the
      newest one, and is set by a new alignment, at most as many blocks behind as there are sub-blocks. */
  lemma ReadIndexMoves(c: Config, calls: seq<Call>)
    requires c.Valid() && calls != [] && !Resets(c, Run(c, calls[..|calls| - 1]), calls[|calls| - 1])
    ensures var before, s, newest := calls[..|calls| - 1], Run(c, calls[..|calls| - 1]), InsertCount(calls) - 1;
            match calls[|calls| - 1]
            case Insert => ReadIndex(c, calls) == ReadIndex(c, before)
            case Capture => ReadIndex(c, calls) == Min(ReadIndex(c, before) + 1, newest)
            case Align(delay) =>
              ReadIndex(c, calls) == if s.delay == Some(delay) then ReadIndex(c, before)
                                     else newest - Min(c.SubBlocks(), s.latency + delay)
            case _ => ReadIndex(c, calls) == ReadIndex(c, before)
  {
  }

  /** Blocks inserted one after another from the start fill the buffers exactly until the low-rate buffer or the ring of
      blocks is full. */
  lemma {:induction false} BurstOverruns(c: Config, n: nat)
    requires c.Valid() && n + 2 <= c.SubBlocks() && c.defaultDelay + n < c.Slots()
    ensures var calls := seq(n, _ => Call.Insert);
            && Run(c, calls).latency == n + 1 && Run(c, calls).gap == c.defaultDelay + n
            && (Resets(c, Run(c, calls), Call.Insert) <==>
                n + 2 == c.SubBlocks() || c.defaultDelay + n + 1 == c.Slots())
  {
    if n > 0 {
      BurstOverruns(c, n - 1);
      assert seq(n, _ => Call.Insert)[..n - 1] == seq(n - 1, _ => Call.Insert);
    }
  }

  /** Whether the alignment the buffer runs with was limited to the greatest delay. */
  predicate Clamped(c: Config, calls: seq<Call>) {
    if calls == [] then false
    else
      var s, before, call := Run(c, calls[..|calls| - 1]), calls[..|calls| - 1], calls[|calls| - 1];
      if Resets(c, s, call) then false
      else if call.Align? && s.delay != Some(call.delay) then s.latency + call.delay > c.SubBlocks()
      else Clamped(c, before)
  }

  /** The reported delay, when there is one, is an upper bound on the computed one, and exact unless clamped. */
  ghost predicate Tracks(c: Config, s: Control, clamped: bool) {
    && s.latency < c.SubBlocks() && s.gap < c.Slots()
    && (s.delay.Some? ==> 0 <= s.ComputeDelay() <= s.delay.value)
    && (s.delay.Some? && !clamped ==> s.ComputeDelay() == s.delay.value)
  }

  lemma StepTracks(c: Config, s: Control, clamped: bool, call: Call, clamped': bool)
    requires c.Valid() && Tracks(c, s, clamped)
    requires clamped' == (
      if Resets(c, s, call) then false
      else if call.Align? && s.delay != Some(call.delay) then s.latency + call.delay > c.SubBlocks()
      else clamped)
    ensures Tracks(c, Step(c, s, call), clamped')
  {
  }

  /** On every run, whenever a delay is set the computed delay is at least 0 and at most that; it is equal unless the
      alignment in force was clamped. */
  lemma {:induction false} DelayTracksAlignment(c: Config, calls: seq<Call>)
    requires c.Valid()
    ensures Tracks(c, Run(c, calls), Clamped(c, calls))
  {
    if calls != [] {
      var before, call := calls[..|calls| - 1], calls[|calls| - 1];
      DelayTracksAlignment(c, before);
      StepTracks(c, Run(c, before), Clamped(c, before), call, Clamped(c, calls));
    }
  }

  /** Reading never overtakes writing: with a default delay of at least one block, on every run. */
  lemma {:induction false} ReadStaysBehind(c: Config, calls: seq<Call>)
    requires c.Valid() && 1 <= c.defaultDelay < c.Slots()
    ensures Run(c, calls).ComputeDelay() >= 0
  {
    if calls != [] {
      var before := calls[..|calls| - 1];
      ReadStaysBehind(c, before);
      DelayTracksAlignment(c, before);
      StepStaysBehind(c, Run(c, before), calls[|calls| - 1]);
    }
  }

  lemma StepStaysBehind(c: Config, s: Control, call: Call)
    requires c.Valid() && 1 <= c.defaultDelay < c.Slots()
    requires s.ComputeDelay() >= 0 && s.latency < c.SubBlocks()
    ensures Step(c, s, call).ComputeDelay() >= 0
  {
  }

  /** With a default delay of zero (or of all slots) the very first state reads ahead of what is written. */
  lemma DefaultDelayNeeded(c: Config)
    requires c.Valid()
    ensures Run(c, []).ComputeDelay() >= 0 <==> 1 <= c.defaultDelay < c.Slots()
  {
  }

  /** What happened since the last reset: inserted blocks, captures that consumed a sub-block, and the latency seen by
      each capture. */
  datatype Tally = Tally(inserts: nat, consumed: nat, latencies: seq<nat>)

  function SinceReset(c: Config, calls: seq<Call>): Tally {
    if calls == [] then Tally(0, 0, [])
    else
      var s, call := Run(c, calls[..|calls| - 1]), calls[|calls| - 1];
      var t := SinceReset(c, calls[..|calls| - 1]);
      if Resets(c, s, call) then Tally(0, 0, [])
      else if call.Insert? then t.(inserts := t.inserts + 1)
      else if call.Capture? then
        Tally(t.inserts, if s.latency > 0 then t.consumed + 1 else t.consumed, t.latencies + [s.latency])
      else t
  }

  /** The latency counts unread blocks since the last reset, starting at one, and never wraps around. */
  lemma {:induction false} LatencyCountsUnread(c: Config, calls: seq<Call>)
    requires c.Valid()
    ensures var t := SinceReset(c, calls);
            0 <= Run(c, calls).latency == 1 + t.inserts - t.consumed < c.SubBlocks()
  {
    DelayTracksAlignment(c, calls);
    if calls != [] {
      LatencyCountsUnread(c, calls[..|calls| - 1]);
    }
  }

  function Interval(c: Config): nat {
    if c.detectionInterval == 0 then 1 else c.detectionInterval
  }

  predicate MultipleOf(n: nat, i: nat)
    requires i > 0
  {
    n == 0 || (n >= i && MultipleOf(n - i, i))
  }

  lemma {:induction false} NotMultiple(m: nat, r: nat, i: nat)
    requires 0 < r < i && MultipleOf(m, i)
    ensures !MultipleOf(m + r, i)
  {
    if m > 0 {
      NotMultiple(m - i, r, i);
    }
  }

  /** The least latency the detector has recorded: nothing above zero in the first interval, afterwards the least seen
      since the call that closed the previous one. */
  ghost predicate Recorded(c: Config, s: Control, seen: seq<nat>) {
    var i := Interval(c);
    var from := |seen| - s.counter - 1;
    && s.counter < i
    && (|seen| < i ==> s.minLatency == 0 && s.counter == |seen|)
    && (i <= |seen| ==>
        && 0 <= from
        && MultipleOf(from + 1, i)
        && (forall j :: from <= j < |seen| ==> s.minLatency <= seen[j])
        && exists j :: from <= j < |seen| && s.minLatency == seen[j])
  }

  lemma {:induction false} DetectorRecords(c: Config, calls: seq<Call>)
    ensures Recorded(c, Run(c, calls), SinceReset(c, calls).latencies)
  {
    if calls != [] {
      var before, call := calls[..|calls| - 1], calls[|calls| - 1];
      DetectorRecords(c, before);
      var s, seen := Run(c, before), SinceReset(c, before).latencies;
      if !Resets(c, s, call) && call.Capture? {
        RecordOne(c, s, seen);
      }
    }
  }

  lemma RecordOne(c: Config, s: Control, seen: seq<nat>)
    requires Recorded(c, s, seen)
    ensures ExcessDetected(c, s) || Recorded(c, CaptureStep(c, s), seen + [s.latency])
  {
    var i := Interval(c);
    var seen' := seen + [s.latency];
    var s' := CaptureStep(c, s);
    if i <= |seen| {
      var from := |seen| - s.counter - 1;
      var j :| from <= j < |seen| && s.minLatency == seen[j];
      assert seen'[j] == seen[j] && seen'[|seen|] == s.latency;
      if ClosesInterval(c, s) {
        assert MultipleOf(from + 1 + i, i);
      }
    } else if ClosesInterval(c, s) {
      assert MultipleOf(0, i) && MultipleOf(i, i) && seen'[|seen|] == s.latency;
    }
  }

  /** The excess reset fires exactly when an interval other than the first closes and the latency was above the limit at
      all of its captures and at the capture that closed the interval before. */
  lemma {:induction false} ExcessFiresExactly(c: Config, calls: seq<Call>)
    ensures var seen := SinceReset(c, calls).latencies + [Run(c, calls).latency];
            var i := Interval(c);
            ExcessDetected(c, Run(c, calls)) <==>
              && MultipleOf(|seen|, i)
              && 2 * i <= |seen|
              && forall j :: |seen| - i - 1 <= j < |seen| ==> seen[j] > c.maxExcess
  {
    hide Run, SinceReset;
    DetectorRecords(c, calls);
    var s, seen := Run(c, calls), SinceReset(c, calls).latencies;
    var i := Interval(c);
    var all := seen + [s.latency];
    if i <= |seen| {
      var from := |seen| - s.counter - 1;
      var j :| from <= j < |seen| && s.minLatency == seen[j];
      assert all[j] == seen[j] && all[|seen|] == s.latency;
      if s.counter + 1 < i {
        NotMultiple(from + 1, s.counter + 1, i);
      } else {
        assert MultipleOf(from + 1 + i, i);
      }
    }
  }
}
