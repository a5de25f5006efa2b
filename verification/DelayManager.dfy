/** Delay limits of the jitter buffer, the limits on its target level, and the relative arrival delay. */
module DelayManager {
  import opened Numbers
  import opened Sums

  const MAX_BASE_MINIMUM_DELAY_MS: int := 10000
  const MAX_HISTORY_PACKETS: nat := 100
  const ONE_PACKET_Q8: int := 256

  function BufferTimeQ75(packets: nat, packetLen: int): int {
    3 * (packets * packetLen) / 4
  }

  /** The delay settings. A maximum of zero means that none is set. */
  datatype Limits = Limits(maxPackets: nat, minimum: int, maximum: int, base: int, effective: int, packetLen: int) {

    function MaxBufferTimeQ75(): int {
      BufferTimeQ75(maxPackets, packetLen)
    }

    function MinimumDelayUpperBound(): int {
      var q75 := MaxBufferTimeQ75();
      Min(if maximum > 0 then maximum else MAX_BASE_MINIMUM_DELAY_MS,
          if q75 > 0 then q75 else MAX_BASE_MINIMUM_DELAY_MS)
    }

    function WithEffectiveMinimum(): Limits {
      this.(effective := Max(minimum, Min(Max(base, 0), MinimumDelayUpperBound())))
    }

    /** A maximum that is set bounds both minima. */
    ghost predicate Bounded() {
      && 0 <= minimum <= effective && 0 <= base && 0 <= maximum && 0 <= packetLen
      && (maximum > 0 ==> minimum <= maximum && effective <= maximum)
    }
  }

  datatype Call = SetMinimum(ms: int) | SetMaximum(ms: int) | SetBase(ms: int) | SetPacketLength(ms: int) | Reset

  predicate Accepts(s: Limits, c: Call) {
    match c
    case SetMinimum(ms) => 0 <= ms <= s.MinimumDelayUpperBound()
    case SetMaximum(ms) => ms == 0 || (s.minimum <= ms && s.packetLen <= ms)
    case SetBase(ms) => 0 <= ms <= MAX_BASE_MINIMUM_DELAY_MS
    case SetPacketLength(ms) => ms > 0
    case Reset => true
  }

  /** A rejected call changes nothing. Only the three delay setters bring the effective minimum up to date. */
  function Step(s: Limits, c: Call): Limits {
    if !Accepts(s, c) then s
    else
      match c
      case SetMinimum(ms) => s.(minimum := ms).WithEffectiveMinimum()
      case SetMaximum(ms) => s.(maximum := ms).WithEffectiveMinimum()
      case SetBase(ms) => s.(base := ms).WithEffectiveMinimum()
      case SetPacketLength(ms) => s.(packetLen := ms)
      case Reset => s.(packetLen := 0)
  }

  function Initial(maxPackets: nat, base: nat): Limits {
    Limits(maxPackets, 0, 0, base, base, 0)
  }

  function Run(s: Limits, calls: seq<Call>): Limits {
    if calls == [] then s else Step(Run(s, calls[..|calls| - 1]), calls[|calls| - 1])
  }

  /** Every order of calls keeps the minima within a maximum that is set. */
  lemma {:induction false} RunBounded(maxPackets: nat, base: nat, calls: seq<Call>)
    ensures Run(Initial(maxPackets, base), calls).Bounded()
    ensures Run(Initial(maxPackets, base), calls).maxPackets == maxPackets
  {
    if calls != [] {
      RunBounded(maxPackets, base, calls[..|calls| - 1]);
      StepBounded(Run(Initial(maxPackets, base), calls[..|calls| - 1]), calls[|calls| - 1]);
    }
  }

  lemma StepBounded(s: Limits, c: Call)
    requires s.Bounded()
    ensures Step(s, c).Bounded() && Step(s, c).maxPackets == s.maxPackets
  {
    hide BufferTimeQ75;
  }

  /** After an accepted delay setter the base minimum counts as far as the bound allows, and otherwise the minimum
      itself does. */
  lemma EffectiveAfterSetter(s: Limits, c: Call)
    requires s.Bounded() && Accepts(s, c) && (c.SetMinimum? || c.SetMaximum? || c.SetBase?)
    ensures var t := Step(s, c);
            && t.effective >= t.minimum
            && (t.base <= t.MinimumDelayUpperBound() ==> t.effective >= t.base)
            && (t.effective == t.minimum || t.effective == t.base || t.effective == t.MinimumDelayUpperBound())
    ensures c.SetMinimum? ==> Step(s, c).effective <= s.MinimumDelayUpperBound()
  {
    hide BufferTimeQ75;
    StepBounded(s, c);
  }

  /** The effective minimum is not recomputed when the packet length changes: it can end up above the bound that the
      buffer then gives. */
  lemma EffectiveMinimumGoesStale()
    ensures var s := Run(Initial(200, 0), [SetPacketLength(60), SetMinimum(9000), SetPacketLength(10)]);
            s == Limits(200, 9000, 0, 0, 9000, 10) && s.MinimumDelayUpperBound() == 1500
  {
    var a := Step(Initial(200, 0), SetPacketLength(60));
    var b := Step(a, SetMinimum(9000));
    var calls := [SetPacketLength(60), SetMinimum(9000), SetPacketLength(10)];
    assert calls[..2] == [SetPacketLength(60), SetMinimum(9000)] && calls[..2][..1] == [SetPacketLength(60)];
    assert calls[..2][..1][..0] == [];
    assert Run(Initial(200, 0), calls[..2][..1]) == a;
    assert Run(Initial(200, 0), calls[..2]) == b;
  }

  /** A buffer time of zero means that none is known. */
  function BufferBound(packets: nat, packetLen: int): int {
    var q75 := BufferTimeQ75(packets, packetLen);
    if q75 > 0 then q75 else MAX_BASE_MINIMUM_DELAY_MS
  }

  /** A new packet length leaves the effective minimum within the bound exactly when it is within what the new buffer
      time allows. */
  lemma PacketLengthKeepsBound(s: Limits, ms: int)
    requires s.Bounded() && s.effective <= s.MinimumDelayUpperBound() && ms > 0
    ensures var t := Step(s, SetPacketLength(ms));
            t.effective <= t.MinimumDelayUpperBound() <==> s.effective <= BufferBound(s.maxPackets, ms)
  {
    hide BufferTimeQ75;
  }

  /** So does a reset, after which the buffer time is not known. */
  lemma ResetKeepsBound(s: Limits)
    requires s.Bounded() && s.effective <= s.MinimumDelayUpperBound()
    ensures var t := Step(s, Call.Reset);
            t.effective <= t.MinimumDelayUpperBound() <==> s.effective <= MAX_BASE_MINIMUM_DELAY_MS
  {
    assert BufferTimeQ75(s.maxPackets, 0) == 0;
    hide BufferTimeQ75;
  }

  /** An accepted delay setter brings the effective minimum back within the bound exactly when the minimum itself is
      within it: a minimum that went stale stays so until it is set anew. */
  lemma SetterRestoresBound(s: Limits, c: Call)
    requires s.Bounded() && Accepts(s, c) && (c.SetMinimum? || c.SetMaximum? || c.SetBase?)
    ensures var t := Step(s, c);
            t.effective <= t.MinimumDelayUpperBound() <==> t.minimum <= t.MinimumDelayUpperBound()
    ensures c.SetMinimum? ==> Step(s, c).effective <= Step(s, c).MinimumDelayUpperBound()
  {
    hide BufferTimeQ75;
    StepBounded(s, c);
  }

  /** The run of EffectiveMinimumGoesStale goes on: setting the base minimum to zero leaves the stale minimum. */
  lemma StaleMinimumSurvives()
    ensures var s := Run(Initial(200, 0), [SetPacketLength(60), SetMinimum(9000), SetPacketLength(10)]);
            var t := Step(s, SetBase(0));
            t.effective == 9000 && t.MinimumDelayUpperBound() == 1500
  {
    EffectiveMinimumGoesStale();
    hide Run;
  }

  function PacketsQ8(ms: int, packetLen: int): int
    requires packetLen > 0
  {
    ms * 256 / packetLen
  }

  lemma PacketsMonotone(a: int, b: int, packetLen: int)
    requires 0 <= a <= b && packetLen > 0
    ensures 0 <= PacketsQ8(a, packetLen) <= PacketsQ8(b, packetLen)
  {
    var p, q := a * 256 / packetLen, b * 256 / packetLen;
    assert a * 256 == p * packetLen + a * 256 % packetLen;
    assert b * 256 == q * packetLen + b * 256 % packetLen;
    assert q - p <= -1 ==> (q - p) * packetLen <= -packetLen;
    assert p <= -1 ==> p * packetLen <= -packetLen;
  }

  function BufferQ8(maxPackets: nat): int {
    3 * (maxPackets * 256) / 4
  }

  /** The least level that the limits allow. */
  function Lowest(s: Limits): int {
    Max(ONE_PACKET_Q8,
        if s.packetLen > 0 && s.effective > 0 then Min(PacketsQ8(s.effective, s.packetLen), BufferQ8(s.maxPackets))
        else ONE_PACKET_Q8)
  }

  /** The greatest level that the limits allow; one packet is always allowed. */
  function Highest(s: Limits): int {
    Max(ONE_PACKET_Q8,
        if s.maximum > 0 && s.packetLen > 0 then Min(PacketsQ8(s.maximum, s.packetLen), BufferQ8(s.maxPackets))
        else BufferQ8(s.maxPackets))
  }

  ghost predicate Nearest(level: int, target: int, lo: int, hi: int) {
    && lo <= level <= hi
    && (target < lo ==> level == lo)
    && (lo <= target <= hi ==> level == target)
    && (hi < target ==> level == hi)
  }

  /** The two ends never cross, which rests on the maximum bounding the effective minimum. */
  lemma LimitsAgree(s: Limits)
    requires s.Bounded()
    ensures ONE_PACKET_Q8 <= Lowest(s) <= Highest(s) <= Max(ONE_PACKET_Q8, 192 * s.maxPackets)
  {
    if s.packetLen > 0 {
      PacketsMonotone(0, s.effective, s.packetLen);
      if s.maximum > 0 {
        PacketsMonotone(s.effective, s.maximum, s.packetLen);
      }
    }
  }

  lemma PacketsAre(ms: int, packetLen: int, level: int)
    requires 0 <= ms && packetLen > 0
    ensures level >= PacketsQ8(ms, packetLen) <==> ms * 256 < (level + 1) * packetLen
    ensures level <= PacketsQ8(ms, packetLen) <==> level * packetLen <= ms * 256
  {
    var p := PacketsQ8(ms, packetLen);
    assert ms * 256 == p * packetLen + ms * 256 % packetLen;
    var d := level - p;
    assert (level + 1) * packetLen == p * packetLen + d * packetLen + packetLen;
    assert level * packetLen == p * packetLen + d * packetLen;
    assert d >= 0 ==> d * packetLen >= 0;
    assert d >= 1 ==> d * packetLen >= packetLen;
    assert d <= -1 ==> d * packetLen <= -packetLen;
  }

  /** The level, in packets of 256, lasts for the minimum delay, up to rounding, exactly when the buffer can: at three
      quarters of its packets, or with one packet. */
  lemma MinimumIsKept(s: Limits, target: int, level: int)
    requires s.Bounded() && s.packetLen > 0 && s.effective > 0 && Nearest(level, target, Lowest(s), Highest(s))
    ensures s.effective * 256 < (level + 1) * s.packetLen <==>
            s.effective * 256 < (Max(256, 192 * s.maxPackets) + 1) * s.packetLen
  {
    LimitsAgree(s);
    PacketsAre(s.effective, s.packetLen, level);
    PacketsAre(s.effective, s.packetLen, Max(256, 192 * s.maxPackets));
    hide PacketsQ8;
  }

  /** Above one packet, the level never fills more than three quarters of the buffer or lasts longer than a maximum that
      is set. It is raised only as far as the minimum delay asks and lowered only as far as one of these asks, and a
      target that meets all of them stays. */
  lemma LevelIsNearest(s: Limits, target: int, level: int)
    requires s.Bounded() && s.packetLen > 0 && Nearest(level, target, Lowest(s), Highest(s))
    ensures level == 256
            || (256 < level <= 192 * s.maxPackets && (s.maximum > 0 ==> level * s.packetLen <= s.maximum * 256))
    ensures level > target ==> level == 256 || level * s.packetLen <= s.effective * 256
    ensures level < target ==>
              || level == Max(256, 192 * s.maxPackets)
              || level == 256
              || (s.maximum > 0 && s.maximum * 256 < (level + 1) * s.packetLen)
    ensures 256 <= target <= 192 * s.maxPackets && s.effective * 256 < (target + 1) * s.packetLen ==>
              (s.maximum > 0 ==> target * s.packetLen <= s.maximum * 256) ==> level == target
  {
    LimitsAgree(s);
    PacketsAre(s.effective, s.packetLen, level);
    PacketsAre(s.effective, s.packetLen, target);
    PacketsAre(s.maximum, s.packetLen, level);
    PacketsAre(s.maximum, s.packetLen, target);
    hide PacketsQ8;
  }

  /** While the packet length is not known only the size of the buffer limits the level. */
  lemma LevelWithoutLength(s: Limits, target: int, level: int)
    requires s.Bounded() && s.packetLen == 0 && Nearest(level, target, Lowest(s), Highest(s))
    ensures level == Max(256, Min(target, 192 * s.maxPackets))
  {
    LimitsAgree(s);
  }

  function LastDelays(all: seq<int>): seq<int> {
    if |all| <= MAX_HISTORY_PACKETS then all else all[|all| - MAX_HISTORY_PACKETS..]
  }

  /** The largest sum of a suffix; the empty suffix counts as zero. */
  ghost predicate IsMaxSuffixSum(s: seq<int>, r: int) {
    && (forall i: nat :: i <= |s| ==> Sum(s[i..]) <= r)
    && (exists i: nat :: i <= |s| && Sum(s[i..]) == r)
  }

  lemma MaxSuffixEmpty()
    ensures IsMaxSuffixSum([], 0)
  {
    var s: seq<int> := [];
    assert s[0..] == [];
    assert Sum(s[0..]) == 0;
  }

  lemma MaxSuffixSnoc(s: seq<int>, r: int, x: int)
    requires IsMaxSuffixSum(s, r)
    ensures IsMaxSuffixSum(s + [x], Max(r + x, 0))
  {
    var t := s + [x];
    assert t[|t|..] == [];
    forall i: nat | i <= |s|
      ensures Sum(t[i..]) == Sum(s[i..]) + x
    {
      assert t[i..] == s[i..] + [x];
      SumSnoc(s[i..], x);
    }
    forall i: nat | i <= |t|
      ensures Sum(t[i..]) <= Max(r + x, 0)
    {
      assert i <= |s| ==> Sum(s[i..]) <= r;
      assert i == |t| ==> Sum(t[i..]) == 0;
    }
    var k: nat :| k <= |s| && Sum(s[k..]) == r;
    assert Sum(t[k..]) == r + x;
    assert Sum(t[|t|..]) == 0;
  }

  class DelayManager {
    const maxPacketsInBuffer: nat
    var minimumDelayMs: int
    var maximumDelayMs: int
    var baseMinimumDelayMs: int
    var effectiveMinimumDelayMs: int
    var packetLenMs: int
    var targetLevel: int
    var delayHistory: seq<int>

    ghost function State(): Limits
      reads this
    {
      Limits(maxPacketsInBuffer, minimumDelayMs, maximumDelayMs, baseMinimumDelayMs, effectiveMinimumDelayMs,
             packetLenMs)
    }

    constructor (maxPacketsInBuffer: nat, baseMinimumDelayMs: nat)
      ensures State() == Initial(maxPacketsInBuffer, baseMinimumDelayMs) && State().Bounded()
      ensures this.maxPacketsInBuffer == maxPacketsInBuffer && packetLenMs == 0
      ensures minimumDelayMs == maximumDelayMs == 0
      ensures effectiveMinimumDelayMs == this.baseMinimumDelayMs == baseMinimumDelayMs
      ensures targetLevel == 4 * ONE_PACKET_Q8 && delayHistory == []
    {
      this.maxPacketsInBuffer := maxPacketsInBuffer;
      this.baseMinimumDelayMs := baseMinimumDelayMs;
      effectiveMinimumDelayMs := baseMinimumDelayMs;
      minimumDelayMs := 0;
      maximumDelayMs := 0;
      delayHistory := [];
      packetLenMs := 0;
      targetLevel := 4 * ONE_PACKET_Q8;
    }

    method Reset()
      modifies this`packetLenMs, this`targetLevel
      ensures State() == Step(old(State()), Call.Reset)
      ensures State() == old(State()).(packetLen := 0)
      ensures targetLevel == 4 * ONE_PACKET_Q8
    {
      packetLenMs := 0;
      targetLevel := 4 * ONE_PACKET_Q8;
    }

    method MaxBufferTimeQ75() returns (ms: int)
      ensures ms == State().MaxBufferTimeQ75()
    {
      var maxBufferTime := maxPacketsInBuffer * packetLenMs;
      ms := 3 * maxBufferTime / 4;
    }

    /** Zero settings mean no bound. */
    method MinimumDelayUpperBound() returns (ms: int)
      ensures ms == State().MinimumDelayUpperBound() && ms > 0
      ensures maximumDelayMs > 0 ==> ms <= maximumDelayMs
      ensures State().MaxBufferTimeQ75() > 0 ==> ms <= State().MaxBufferTimeQ75()
      ensures maximumDelayMs <= 0 || State().MaxBufferTimeQ75() <= 0 ==> ms <= MAX_BASE_MINIMUM_DELAY_MS
      ensures ms == maximumDelayMs || ms == State().MaxBufferTimeQ75() || ms == MAX_BASE_MINIMUM_DELAY_MS
    {
      var q75 := MaxBufferTimeQ75();
      hide BufferTimeQ75;
      q75 := if q75 > 0 then q75 else MAX_BASE_MINIMUM_DELAY_MS;
      var maximum := if maximumDelayMs > 0 then maximumDelayMs else MAX_BASE_MINIMUM_DELAY_MS;
      ms := Min(maximum, q75);
    }

    /** The base minimum, as far as the bound allows, unless the minimum itself is larger. */
    ghost function EffectiveMinimum(): (r: int)
      reads this
      ensures r >= minimumDelayMs && r >= Min(baseMinimumDelayMs, State().MinimumDelayUpperBound())
      ensures r in {minimumDelayMs, baseMinimumDelayMs, 0, State().MinimumDelayUpperBound()}
    {
      Max(minimumDelayMs, Min(Max(baseMinimumDelayMs, 0), State().MinimumDelayUpperBound()))
    }

    method UpdateEffectiveMinimumDelay()
      requires minimumDelayMs >= 0
      modifies this`effectiveMinimumDelayMs
      ensures State() == old(State()).WithEffectiveMinimum()
      ensures effectiveMinimumDelayMs == EffectiveMinimum()
    {
      var upper := MinimumDelayUpperBound();
      hide BufferTimeQ75;
      var base := Min(Max(baseMinimumDelayMs, 0), upper);
      effectiveMinimumDelayMs := Max(minimumDelayMs, base);
    }

    method SetMinimumDelay(delayMs: int) returns (ok: bool)
      requires State().Bounded()
      modifies this`minimumDelayMs, this`effectiveMinimumDelayMs
      ensures ok == Accepts(old(State()), SetMinimum(delayMs))
      ensures ok <==> 0 <= delayMs <= State().MinimumDelayUpperBound()
      ensures minimumDelayMs == if ok then delayMs else old(minimumDelayMs)
      ensures effectiveMinimumDelayMs == if ok then EffectiveMinimum() else old(effectiveMinimumDelayMs)
      ensures State() == Step(old(State()), SetMinimum(delayMs)) && State().Bounded()
    {
      StepBounded(State(), SetMinimum(delayMs));
      var upper := MinimumDelayUpperBound();
      hide BufferTimeQ75;
      if !(0 <= delayMs && delayMs <= upper) {
        return false;
      }
      minimumDelayMs := delayMs;
      UpdateEffectiveMinimumDelay();
      return true;
    }

    method SetMaximumDelay(delayMs: int) returns (ok: bool)
      requires State().Bounded()
      modifies this`maximumDelayMs, this`effectiveMinimumDelayMs
      ensures ok == Accepts(old(State()), SetMaximum(delayMs))
      ensures ok <==> delayMs == 0 || (minimumDelayMs <= delayMs && packetLenMs <= delayMs)
      ensures maximumDelayMs == if ok then delayMs else old(maximumDelayMs)
      ensures effectiveMinimumDelayMs == if ok then EffectiveMinimum() else old(effectiveMinimumDelayMs)
      ensures State() == Step(old(State()), SetMaximum(delayMs)) && State().Bounded()
    {
      StepBounded(State(), SetMaximum(delayMs));
      hide BufferTimeQ75;
      if delayMs != 0 && (delayMs < minimumDelayMs || delayMs < packetLenMs) {
        return false;
      }
      maximumDelayMs := delayMs;
      UpdateEffectiveMinimumDelay();
      return true;
    }

    method SetBaseMinimumDelay(delayMs: int) returns (ok: bool)
      requires State().Bounded()
      modifies this`baseMinimumDelayMs, this`effectiveMinimumDelayMs
      ensures ok == Accepts(old(State()), SetBase(delayMs))
      ensures ok <==> 0 <= delayMs <= 10000
      ensures baseMinimumDelayMs == if ok then delayMs else old(baseMinimumDelayMs)
      ensures effectiveMinimumDelayMs == if ok then EffectiveMinimum() else old(effectiveMinimumDelayMs)
      ensures State() == Step(old(State()), SetBase(delayMs)) && State().Bounded()
    {
      StepBounded(State(), SetBase(delayMs));
      hide BufferTimeQ75;
      if !(0 <= delayMs && delayMs <= MAX_BASE_MINIMUM_DELAY_MS) {
        return false;
      }
      baseMinimumDelayMs := delayMs;
      UpdateEffectiveMinimumDelay();
      return true;
    }

    method SetPacketAudioLength(lengthMs: int) returns (ok: bool)
      requires State().Bounded()
      modifies this`packetLenMs
      ensures ok == Accepts(old(State()), SetPacketLength(lengthMs))
      ensures ok <==> lengthMs > 0
      ensures packetLenMs == if ok then lengthMs else old(packetLenMs)
      ensures State() == Step(old(State()), SetPacketLength(lengthMs)) && State().Bounded()
    {
      if lengthMs <= 0 {
        return false;
      }
      packetLenMs := lengthMs;
      return true;
    }

    /** Moves the target level to the nearest one the limits allow. */
    method LimitTargetLevel()
      requires State().Bounded()
      modifies this`targetLevel
      ensures Nearest(targetLevel, old(targetLevel), Lowest(State()), Highest(State()))
      ensures ONE_PACKET_Q8 <= targetLevel <= Max(ONE_PACKET_Q8, 192 * maxPacketsInBuffer)
    {
      LimitsAgree(State());
      ghost var s := State();
      if packetLenMs > 0 && maximumDelayMs > 0 {
        PacketsMonotone(effectiveMinimumDelayMs, maximumDelayMs, packetLenMs);
      }
      hide PacketsQ8;
      if packetLenMs > 0 && effectiveMinimumDelayMs > 0 {
        var minimumDelayPacketQ8 := PacketsQ8(effectiveMinimumDelayMs, packetLenMs);
        targetLevel := Max(targetLevel, minimumDelayPacketQ8);
      }
      if maximumDelayMs > 0 && packetLenMs > 0 {
        var maximumDelayPacketQ8 := PacketsQ8(maximumDelayMs, packetLenMs);
        targetLevel := Min(targetLevel, maximumDelayPacketQ8);
      }
      var maxBufferPacketsQ8 := BufferQ8(maxPacketsInBuffer);
      targetLevel := Min(targetLevel, maxBufferPacketsQ8);
      targetLevel := Max(targetLevel, ONE_PACKET_Q8);
    }

    /** The history stays the last hundred of all the delays ever reported. */
    method UpdateDelayHistory(iatDelay: int, ghost all: seq<int>)
      requires delayHistory == LastDelays(all)
      modifies this`delayHistory
      ensures delayHistory == LastDelays(all + [iatDelay])
      ensures |delayHistory| == Min(|all| + 1, 100) && delayHistory == (all + [iatDelay])[|all| + 1 - |delayHistory|..]
    {
      delayHistory := delayHistory + [iatDelay];
      if |delayHistory| > MAX_HISTORY_PACKETS {
        delayHistory := delayHistory[1..];
      }
    }

    /** The delay relative to the packet of the window that makes it largest. */
    method CalculateRelativePacketArrivalDelay() returns (relativeDelay: int)
      ensures IsMaxSuffixSum(delayHistory, relativeDelay)
    {
      relativeDelay := 0;
      MaxSuffixEmpty();
      assert delayHistory[..0] == [];
      for i := 0 to |delayHistory|
        invariant IsMaxSuffixSum(delayHistory[..i], relativeDelay)
      {
        MaxSuffixSnoc(delayHistory[..i], relativeDelay, delayHistory[i]);
        assert delayHistory[..i + 1] == delayHistory[..i] + [delayHistory[i]];
        relativeDelay := relativeDelay + delayHistory[i];
        relativeDelay := Max(relativeDelay, 0);
      }
      assert delayHistory[..|delayHistory|] == delayHistory;
    }
  }
}
