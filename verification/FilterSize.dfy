/** How the adaptive filter changes its number of partitions. */
module FilterSize {
  import opened Numbers

  /** The sizes and the number of blocks that the change to the target still takes. */
  datatype Sizes = Sizes(current: nat, target: nat, oldTarget: nat, counter: nat)

  ghost predicate InRange(s: Sizes, max: nat, duration: nat) {
    && 1 <= s.current <= max && 1 <= s.target <= max && 1 <= s.oldTarget <= max && s.counter <= duration
    && (s.counter == 0 ==> s.current == s.target)
  }

  function Weighted(from: real, to: real, weight: real): real {
    from * weight + to * (1.0 - weight)
  }

  function Weight(counter: nat, duration: nat): real
    requires duration > 0
  {
    counter as real * (1.0 / duration as real)
  }

  /** The size while the change still takes `counter` blocks. */
  function Between(oldTarget: nat, target: nat, counter: nat, duration: nat): int
    requires duration > 0
  {
    Weighted(oldTarget as real, target as real, Weight(counter, duration)).Floor
  }

  lemma WeightOrder(c: nat, duration: nat)
    requires 0 < duration
    ensures Weight(0, duration) == 0.0
    ensures c <= duration ==> 0.0 <= Weight(c, duration) <= 1.0
    ensures Weight(c, duration) <= Weight(c + 1, duration)
  {
    var unit := 1.0 / duration as real;
    assert unit > 0.0 && duration as real * unit == 1.0;
    assert (c + 1) as real * unit == c as real * unit + unit;
    assert c as real * unit >= 0.0;
    assert c <= duration ==> (duration - c) as real * unit >= 0.0;
    assert (duration - c) as real * unit == duration as real * unit - c as real * unit;
  }

  lemma WeightedIs(a: real, b: real, w: real)
    ensures Weighted(a, b, w) == b + Part(w, a - b) == b - Part(w, b - a)
    ensures Part(0.0, a) == 0.0 && Part(1.0, a) == a
  {
  }

  function Part(w: real, d: real): real {
    w * d
  }

  lemma WeightedBetween(a: real, b: real, v: real, w: real)
    requires 0.0 <= v <= w <= 1.0
    ensures Weighted(a, b, 0.0) == b && Weighted(a, b, 1.0) == a
    ensures a <= b ==> a <= Weighted(a, b, w) <= Weighted(a, b, v) <= b
    ensures b <= a ==> b <= Weighted(a, b, v) <= Weighted(a, b, w) <= a
  {
    WeightedIs(a, b, v);
    WeightedIs(a, b, w);
    WeightedIs(a, b, 0.0);
    WeightedIs(a, b, 1.0);
    WeightedIs(a - b, b, 0.0);
    hide Weighted, Part;
    Differences(a - b, v, w);
    Differences(b - a, v, w);
  }

  lemma Differences(d: real, v: real, w: real)
    requires 0.0 <= v <= w <= 1.0
    ensures d >= 0.0 ==> 0.0 <= Part(v, d) <= Part(w, d) <= d
  {
    if d >= 0.0 {
      NonNegative(v, d);
      NonNegative(w - v, d);
      NonNegative(1.0 - w, d);
    }
  }

  lemma NonNegative(p: real, q: real)
    requires p >= 0.0 && q >= 0.0
    ensures p * q >= 0.0
  {
  }

  /** The size moves from the old target to the new one without ever turning back, and ends exactly on it. */
  lemma BetweenMoves(oldTarget: nat, target: nat, counter: nat, duration: nat)
    requires 0 < counter <= duration
    ensures oldTarget <= target ==>
              oldTarget <= Between(oldTarget, target, counter, duration)
                  <= Between(oldTarget, target, counter - 1, duration) <= target
    ensures target <= oldTarget ==>
              target <= Between(oldTarget, target, counter - 1, duration)
                  <= Between(oldTarget, target, counter, duration) <= oldTarget
    ensures Between(oldTarget, target, 0, duration) == target
  {
    WeightOrder(counter - 1, duration);
    WeightOrder(counter, duration);
    WeightedBetween(oldTarget as real, target as real, Weight(counter - 1, duration), Weight(counter, duration));
    hide Weight, Weighted;
  }

  /** The size is the average of the two targets, weighted by the blocks left and the blocks gone, rounded down. */
  lemma BetweenIs(oldTarget: nat, target: nat, counter: nat, duration: nat)
    requires counter <= duration && 0 < duration
    ensures var size := Between(oldTarget, target, counter, duration);
            duration * size <= counter * oldTarget + (duration - counter) * target < duration * size + duration
  {
    var w := Weighted(oldTarget as real, target as real, Weight(counter, duration));
    var unit, d := 1.0 / duration as real, duration as real;
    assert d * unit == 1.0;
    assert d * Weight(counter, duration) == counter as real by {
      assert counter as real * unit * d == counter as real * (unit * d);
    }
    WeightedTimes(oldTarget as real, target as real, Weight(counter, duration), d);
    hide Weight, Weighted;
    assert d * w == (counter * oldTarget + (duration - counter) * target) as real by {
      RealProduct(oldTarget, counter);
      RealProduct(target, duration - counter);
    }
    FloorTimes(w, duration);
  }

  lemma WeightedTimes(a: real, b: real, w: real, d: real)
    ensures d * Weighted(a, b, w) == a * (d * w) + b * (d - d * w)
  {
  }

  lemma RealProduct(a: int, b: int)
    ensures (a * b) as real == a as real * b as real
  {
  }

  lemma FloorTimes(w: real, d: nat)
    requires d > 0
    ensures (d * w.Floor) as real <= d as real * w < (d * w.Floor + d) as real
  {
    RealProduct(d, w.Floor);
    Scale(d as real, w.Floor as real, w);
    Scale(d as real, w, w.Floor as real + 1.0);
  }

  lemma Scale(d: real, a: real, b: real)
    requires d > 0.0
    ensures a <= b ==> d * a <= d * b
    ensures a < b ==> d * a < d * b
    ensures d * (a + 1.0) == d * a + d
  {
    if a < b {
      assert d * (b - a) > 0.0;
    }
  }

  function Updated(s: Sizes, duration: nat): Sizes
    requires duration > 0
  {
    if s.counter > 0
    then
      var size := Between(s.oldTarget, s.target, s.counter - 1, duration);
      s.(current := if size < 0 then 0 else size, counter := s.counter - 1)
    else s.(current := s.target, oldTarget := s.target)
  }

  function Set(s: Sizes, size: nat, immediate: bool, max: nat, duration: nat): Sizes {
    var target := Min(max, size);
    if immediate then Sizes(target, target, target, 0) else s.(target := target, counter := duration)
  }

  lemma UpdatedInRange(s: Sizes, max: nat, duration: nat)
    requires duration > 0 && InRange(s, max, duration)
    ensures InRange(Updated(s, duration), max, duration) && Updated(s, duration).target == s.target
    ensures s.counter > 0 ==> Between(s.oldTarget, s.target, s.counter - 1, duration) >= 1
  {
    if s.counter > 0 {
      BetweenMoves(s.oldTarget, s.target, s.counter, duration);
    }
  }

  function UpdatedTimes(s: Sizes, n: nat, duration: nat): Sizes
    requires duration > 0
  {
    if n == 0 then s else Updated(UpdatedTimes(s, n - 1, duration), duration)
  }

  /** A change ordered at rest: after n blocks the size has gone n parts of the way out of as many as the change takes,
      rounded down. */
  lemma {:induction false} GradualChange(from: nat, size: nat, n: nat, max: nat, duration: nat)
    requires 0 < n <= duration && 1 <= from <= max && 1 <= size
    ensures var s := UpdatedTimes(Set(Sizes(from, from, from, 0), size, false, max, duration), n, duration);
            var to := if size <= max then size else max;
            && s.counter == duration - n
            && duration * s.current <= (duration - n) * from + n * to < duration * s.current + duration
  {
    var first := Set(Sizes(from, from, from, 0), size, false, max, duration);
    EndsOnTarget(first, n - 1, max, duration);
    OldTargetStays(first, n - 1, duration);
    var t := UpdatedTimes(first, n - 1, duration);
    UpdatedInRange(t, max, duration);
    BetweenIs(from, first.target, duration - n, duration);
    hide Between;
  }

  lemma {:induction false} OldTargetStays(s: Sizes, n: nat, duration: nat)
    requires duration > 0 && n <= s.counter
    ensures UpdatedTimes(s, n, duration).oldTarget == s.oldTarget
    ensures UpdatedTimes(s, n, duration).counter == s.counter - n
  {
    if n > 0 {
      OldTargetStays(s, n - 1, duration);
    }
  }

  /** A change ordered before the one before is over starts where that one started: the size can jump back. */
  lemma NewChangeStartsOver()
    ensures var s := UpdatedTimes(Set(Sizes(10, 10, 10, 0), 20, false, 20, 10), 9, 10);
            s.current == 19 && Updated(Set(s, 20, false, 20, 10), 10).current == 11
  {
    GradualChange(10, 20, 9, 20, 10);
    var first := Set(Sizes(10, 10, 10, 0), 20, false, 20, 10);
    var s := UpdatedTimes(first, 9, 10);
    EndsOnTarget(first, 9, 20, 10);
    OldTargetStays(first, 9, 10);
    hide UpdatedTimes;
    BetweenIs(10, 20, 9, 10);
    hide Between;
  }

  /** The old target is replaced one block after the size got there. */
  lemma OldTargetFollows(s: Sizes, max: nat, duration: nat)
    requires duration > 0 && InRange(s, max, duration) && s.counter == 0
    ensures Updated(s, duration) == Sizes(s.target, s.target, s.target, 0)
  {
  }

  /** After a change is ordered, the size is always within bounds, and after as many blocks as the change takes it is
      exactly the target and stays there; one block later nothing of the change is left. */
  lemma {:induction false} EndsOnTarget(s: Sizes, n: nat, max: nat, duration: nat)
    requires duration > 0 && InRange(s, max, duration)
    ensures InRange(UpdatedTimes(s, n, duration), max, duration)
    ensures UpdatedTimes(s, n, duration).target == s.target
    ensures UpdatedTimes(s, n, duration).counter == if n <= s.counter then s.counter - n else 0
    ensures n >= s.counter ==> UpdatedTimes(s, n, duration).current == s.target
    ensures n > s.counter ==> UpdatedTimes(s, n, duration) == Sizes(s.target, s.target, s.target, 0)
  {
    if n > 0 {
      var t := UpdatedTimes(s, n - 1, duration);
      EndsOnTarget(s, n - 1, max, duration);
      UpdatedInRange(t, max, duration);
      if n > s.counter {
        OldTargetFollows(t, max, duration);
      }
      hide Between;
    }
  }
}

/** The buffers of the adaptive filter as its size changes, and the cyclic constraining of its partitions. */
module AdaptiveFirFilter {
  import opened PowerSpectra
  import opened Numbers
  import opened FirSpec
  import opened FilterSize

  const FFT_LENGTH_BY_2: nat := 64

  function GetTimeDomainLength(partitions: nat): nat {
    partitions * FFT_LENGTH_BY_2
  }

  /** A vector cut or filled up to a size. */
  function Resized<T>(s: seq<T>, n: nat, zero: T): (r: seq<T>)
    ensures |r| == n
    ensures forall i: nat :: i < n ==> r[i] == if i < |s| then s[i] else zero
  {
    if n <= |s| then s[..n] else s + seq(n - |s|, _ => zero)
  }

  class AdaptiveFirFilter {
    const maxSizePartitions: nat
    const sizeChangeDurationBlocks: nat
    const ifft: FftData -> seq<real>
    const fft: seq<real> -> FftData
    var currentSizePartitions: nat
    var targetSizePartitions: nat
    var oldTargetSizePartitions: nat
    var sizeChangeCounter: nat
    var partitionToConstrain: nat
    var H: seq<FftData>
    var H2: seq<PowerSpectrum>
    var h: seq<real>

    ghost function State(): Sizes
      reads this
    {
      Sizes(currentSizePartitions, targetSizePartitions, oldTargetSizePartitions, sizeChangeCounter)
    }

    /** The three buffers are in step with each other and the partition to constrain is one of them. */
    ghost predicate InStep()
      reads this
    {
      |H| == |H2| && |h| == GetTimeDomainLength(|H|) && partitionToConstrain < |H|
    }

    ghost predicate Valid()
      reads this
    {
      && sizeChangeDurationBlocks > 0
      && InRange(State(), maxSizePartitions, sizeChangeDurationBlocks)
      && InStep() && |H| == currentSizePartitions
    }

    constructor (maxSizePartitions: nat, initialSizePartitions: nat, sizeChangeDurationBlocks: nat,
                 ifft: FftData -> seq<real>, fft: seq<real> -> FftData)
      requires 0 < initialSizePartitions <= maxSizePartitions && 0 < sizeChangeDurationBlocks
      ensures Valid() && State() == Sizes(initialSizePartitions, initialSizePartitions, initialSizePartitions, 0)
      ensures this.maxSizePartitions == maxSizePartitions && this.sizeChangeDurationBlocks == sizeChangeDurationBlocks
      ensures forall k: nat :: k < |H| ==> H[k] == Zero() && H2[k] == NoPower()
    {
      this.maxSizePartitions := maxSizePartitions;
      this.sizeChangeDurationBlocks := sizeChangeDurationBlocks;
      this.ifft := ifft;
      this.fft := fft;
      currentSizePartitions := initialSizePartitions;
      targetSizePartitions := initialSizePartitions;
      oldTargetSizePartitions := initialSizePartitions;
      sizeChangeCounter := 0;
      partitionToConstrain := 0;
      H := seq(maxSizePartitions, _ => Zero());
      H2 := seq(maxSizePartitions, _ => NoPower());
      h := seq(GetTimeDomainLength(maxSizePartitions), _ => 0.0);
      new;
      SetSizePartitions(currentSizePartitions, true);
    }

    /** Brings the buffers to the current size: what remains is kept and what is new is zero. */
    method ResetFilterBuffersToCurrentSize()
      requires InStep() && currentSizePartitions > 0
      modifies this`H, this`H2, this`h, this`partitionToConstrain
      ensures InStep() && |H| == currentSizePartitions
      ensures H == Resized(old(H), currentSizePartitions, Zero())
      ensures H2 == Resized(old(H2), currentSizePartitions, NoPower())
      ensures h == Resized(old(h), GetTimeDomainLength(currentSizePartitions), 0.0)
      ensures partitionToConstrain == Min(old(partitionToConstrain), currentSizePartitions - 1)
    {
      ghost var hWas, h2Was, tWas := H, H2, h;
      if currentSizePartitions < |H| {
        for k := currentSizePartitions to |H|
          modifies this`H, this`H2
          invariant |H| == |H2| == |hWas|
          invariant H[..currentSizePartitions] == hWas[..currentSizePartitions]
          invariant H2[..currentSizePartitions] == h2Was[..currentSizePartitions]
        {
          H := H[k := Zero()];
          H2 := H2[k := NoPower()];
        }
        h := h[..GetTimeDomainLength(currentSizePartitions)]
             + seq(|h| - GetTimeDomainLength(currentSizePartitions), _ => 0.0);
      }
      H := Resized(H, currentSizePartitions, Zero());
      H2 := Resized(H2, currentSizePartitions, NoPower());
      h := Resized(h, GetTimeDomainLength(currentSizePartitions), 0.0);
      partitionToConstrain := Min(partitionToConstrain, currentSizePartitions - 1);
    }

    method SetSizePartitions(size: nat, immediateEffect: bool)
      requires sizeChangeDurationBlocks > 0 && maxSizePartitions > 0 && size > 0
      requires InRange(State(), maxSizePartitions, sizeChangeDurationBlocks) && InStep()
      requires !immediateEffect ==> |H| == currentSizePartitions
      modifies this
      ensures Valid()
      ensures State() == Set(old(State()), size, immediateEffect, maxSizePartitions, sizeChangeDurationBlocks)
      ensures targetSizePartitions == Min(maxSizePartitions, size)
      ensures immediateEffect ==>
                currentSizePartitions == oldTargetSizePartitions == targetSizePartitions && sizeChangeCounter == 0
      ensures immediateEffect ==> H == Resized(old(H), currentSizePartitions, Zero())
      ensures immediateEffect ==> H2 == Resized(old(H2), currentSizePartitions, NoPower())
      ensures immediateEffect ==> h == Resized(old(h), GetTimeDomainLength(currentSizePartitions), 0.0)
      ensures !immediateEffect ==> H == old(H) && H2 == old(H2) && h == old(h)
    {
      targetSizePartitions := Min(maxSizePartitions, size);
      if immediateEffect {
        currentSizePartitions := targetSizePartitions;
        oldTargetSizePartitions := targetSizePartitions;
        ResetFilterBuffersToCurrentSize();
        sizeChangeCounter := 0;
      } else {
        sizeChangeCounter := sizeChangeDurationBlocks;
      }
    }

    /** One block of a gradual change. */
    method UpdateSize()
      requires Valid()
      modifies this
      ensures Valid() && State() == Updated(old(State()), sizeChangeDurationBlocks)
      ensures H == Resized(old(H), currentSizePartitions, Zero())
      ensures H2 == Resized(old(H2), currentSizePartitions, NoPower())
      ensures h == Resized(old(h), GetTimeDomainLength(currentSizePartitions), 0.0)
    {
      UpdatedInRange(State(), maxSizePartitions, sizeChangeDurationBlocks);
      hide Between;
      if sizeChangeCounter > 0 {
        sizeChangeCounter := sizeChangeCounter - 1;
        currentSizePartitions := Between(oldTargetSizePartitions, targetSizePartitions, sizeChangeCounter,
                                         sizeChangeDurationBlocks);
        ResetFilterBuffersToCurrentSize();
      } else {
        currentSizePartitions := targetSizePartitions;
        oldTargetSizePartitions := targetSizePartitions;
      }
    }

    /** Cuts one partition to its first half in time, and goes on to the next partition in turn. */
    method Constrain()
      requires Valid() && |ifft(H[partitionToConstrain])| == 2 * FFT_LENGTH_BY_2
      modifies this`H, this`h, this`partitionToConstrain
      ensures Valid() && |H| == |old(H)|
      ensures partitionToConstrain == if old(partitionToConstrain) < |H| - 1 then old(partitionToConstrain) + 1 else 0
      ensures forall k: nat :: k < |H| && k != old(partitionToConstrain) ==> H[k] == old(H)[k]
      ensures var p, t := old(partitionToConstrain), ifft(old(H)[old(partitionToConstrain)]);
              var cut := seq(FFT_LENGTH_BY_2, i requires 0 <= i < FFT_LENGTH_BY_2 => t[i] * (1.0 / 64.0));
              && H[p] == fft(cut + seq(FFT_LENGTH_BY_2, _ => 0.0))
              && GetTimeDomainLength(p + 1) <= |h|
              && h[GetTimeDomainLength(p)..GetTimeDomainLength(p + 1)] == cut
    {
      var t := ifft(H[partitionToConstrain]);
      var scale := 1.0 / 64.0;
      var cut := seq(FFT_LENGTH_BY_2, i requires 0 <= i < FFT_LENGTH_BY_2 => t[i] * scale);
      t := cut + seq(FFT_LENGTH_BY_2, _ => 0.0);
      var from := GetTimeDomainLength(partitionToConstrain);
      assert from + FFT_LENGTH_BY_2 == GetTimeDomainLength(partitionToConstrain + 1) <= |h|;
      h := h[..from] + cut + h[from + FFT_LENGTH_BY_2..];
      H := H[partitionToConstrain := fft(t)];
      partitionToConstrain := if partitionToConstrain < |H| - 1 then partitionToConstrain + 1 else 0;
    }
  }
}
