/** The inter-arrival distribution: buckets in Q30, forgetting factor in Q15. */
module Histogram {
  import opened Numbers
  import opened Sums

  const ONE_Q15: int := 0x8000
  const ONE_Q30: int := 0x4000_0000
  const INT_MAX: int := 0x7FFF_FFFF
  const INT_MIN: int := -0x8000_0000
  const MAX_BUCKETS: int := 0x200_0000

  type Int32 = x: int | INT_MIN <= x <= INT_MAX

  /** Each bucket times the forgetting factor, rounded down. */
  function Decayed(s: seq<int>, f: int): (r: seq<int>)
    ensures |r| == |s|
  {
    if s == [] then [] else Decayed(s[..|s| - 1], f) + [s[|s| - 1] * f / ONE_Q15]
  }

  lemma DecayedNext(s: seq<int>, i: nat, f: int)
    requires i < |s|
    ensures Decayed(s[..i + 1], f) == Decayed(s[..i], f) + [s[i] * f / ONE_Q15]
  {
    assert s[..i + 1][..i] == s[..i];
  }

  /** Rounding loses less than one unit a bucket. */
  lemma {:induction false} DecayedSum(s: seq<int>, f: int)
    requires NonNegative(s) && 0 <= f <= ONE_Q15
    ensures NonNegative(Decayed(s, f)) && Roundings(Sum(Decayed(s, f)), Sum(s), f, |s|)
  {
    if s != [] {
      var k := |s| - 1;
      DecayedSum(s[..k], f);
      RoundingsNext(Sum(Decayed(s[..k], f)), Sum(s[..k]), f, k, s[k]);
      hide Roundings;
      SumSnoc(Decayed(s[..k], f), s[k] * f / ONE_Q15);
    } else {
      assert f * 0 == 0;
    }
  }

  /** A sum of n rounded parts of a total, each part the fraction f of something. */
  ghost predicate Roundings(sum: int, total: int, f: int, n: nat) {
    ONE_Q15 * sum <= f * total <= ONE_Q15 * sum + (ONE_Q15 - 1) * n
  }

  lemma RoundingsNext(sum: int, total: int, f: int, n: nat, x: nat)
    requires Roundings(sum, total, f, n) && f >= 0
    ensures x * f / ONE_Q15 >= 0 && Roundings(sum + x * f / ONE_Q15, total + x, f, n + 1)
  {
    var p := x * f;
    assert p >= 0;
    assert f * (total + x) == f * total + p;
  }

  lemma RoundingsOfOne(sum: int, total: int, f: int, n: nat)
    requires Roundings(sum, total, f, n) && 0 <= f && n > 0 && sum >= 0
    requires f > 0 ==> total == ONE_Q30
    ensures f * ONE_Q15 - n < sum <= f * ONE_Q15
  {
    if f == 0 {
      assert f * total == 0;
    }
  }

  /** What the buckets can give at one sixteenth each. */
  function Capacity(s: seq<int>): int {
    if s == [] then 0 else s[0] / 16 + Capacity(s[1..])
  }

  /** Adding up to a sixteenth of each bucket, from the front, until the deficit is made up. */
  function Corrected(s: seq<int>, deficit: nat): (r: seq<int>)
    ensures |r| == |s|
  {
    if s == [] then []
    else
      var c := Min(deficit, s[0] / 16);
      [s[0] + c] + Corrected(s[1..], deficit - c)
  }

  lemma {:induction false} CorrectedByNothing(s: seq<int>, deficit: nat)
    requires NonNegative(s) && deficit == 0
    ensures Corrected(s, deficit) == s
  {
    if s != [] {
      CorrectedByNothing(s[1..], deficit);
    }
  }

  lemma CorrectedStep(s: seq<int>, i: nat, deficit: nat)
    requires i < |s|
    ensures var c := Min(deficit, s[i] / 16);
            Corrected(s[i..], deficit) == [s[i] + c] + Corrected(s[i + 1..], deficit - c)
  {
    assert s[i..][1..] == s[i + 1..];
  }

  lemma Shift(done: seq<int>, s: seq<int>, i: nat, x: int)
    requires |done| == i < |s|
    ensures (done + s[i..])[i := x] == (done + [x]) + s[i + 1..]
  {
  }

  /** Where the correction stands: the buckets from i on are untouched, and what they still get completes the result. */
  ghost predicate Correcting(was: seq<int>, b: seq<int>, i: nat, deficit: int, all: seq<int>) {
    && i <= |was| == |b| && 0 <= deficit
    && b[i..] == was[i..] && all == b[..i] + Corrected(was[i..], deficit)
  }

  lemma CorrectingStart(was: seq<int>, deficit: nat)
    ensures Correcting(was, was, 0, deficit, Corrected(was, deficit))
  {
    assert was[0..] == was;
  }

  lemma CorrectingNext(was: seq<int>, b: seq<int>, i: nat, deficit: nat, all: seq<int>)
    requires Correcting(was, b, i, deficit, all) && i < |b|
    ensures var c := Min(deficit, b[i] / 16); Correcting(was, b[i := b[i] + c], i + 1, deficit - c, all)
  {
    var c := Min(deficit, b[i] / 16);
    assert b[i] == b[i..][0] == was[i];
    CorrectedStep(was, i, deficit);
    hide Corrected;
    assert b[i + 1..] == b[i..][1..] == was[i + 1..];
    assert b[..i] + ([b[i] + c] + Corrected(was[i + 1..], deficit - c))
           == b[i := b[i] + c][..i + 1] + Corrected(was[i + 1..], deficit - c);
  }

  lemma CorrectedRest(s: seq<int>, i: nat, deficit: nat)
    requires NonNegative(s) && i <= |s| && (deficit == 0 || i == |s|)
    ensures Corrected(s[i..], deficit) == s[i..]
  {
    if deficit == 0 {
      CorrectedByNothing(s[i..], deficit);
    }
  }

  lemma CorrectingEnd(was: seq<int>, b: seq<int>, i: nat, deficit: nat, all: seq<int>)
    requires NonNegative(was) && Correcting(was, b, i, deficit, all) && (deficit == 0 || i == |b|)
    ensures b == all
  {
    CorrectedRest(was, i, deficit);
    hide Corrected, NonNegative;
    assert b[..i] + b[i..] == b;
  }

  lemma {:induction false} CorrectedSum(s: seq<int>, deficit: nat)
    requires NonNegative(s)
    ensures Sum(Corrected(s, deficit)) == Sum(s) + Min(deficit, Capacity(s))
    ensures forall i :: 0 <= i < |s| ==> s[i] <= Corrected(s, deficit)[i] <= s[i] + s[i] / 16
    ensures Capacity(s) >= 0
  {
    if s != [] {
      var c := Min(deficit, s[0] / 16);
      CorrectedSum(s[1..], deficit - c);
      SumCons(s);
      SumCons(Corrected(s, deficit));
    }
  }

  /** The front is corrected first: a bucket that does not get its whole sixteenth leaves nothing for those after it. */
  lemma {:induction false} CorrectedFront(s: seq<int>, deficit: nat, i: nat)
    requires NonNegative(s) && i < |s| && Corrected(s, deficit)[i] < s[i] + s[i] / 16
    ensures forall j: nat :: i < j < |s| ==> Corrected(s, deficit)[j] == s[j]
  {
    var c := Min(deficit, s[0] / 16);
    if i == 0 {
      CorrectedByNothing(s[1..], deficit - c);
    } else {
      CorrectedFront(s[1..], deficit - c, i - 1);
    }
    assert forall j: nat :: 0 < j < |s| ==> Corrected(s, deficit)[j] == Corrected(s[1..], deficit - c)[j - 1];
  }

  lemma {:induction false} CapacityIsLarge(s: seq<int>)
    requires NonNegative(s)
    ensures 16 * Capacity(s) >= Sum(s) - 15 * |s|
  {
    if s != [] {
      CapacityIsLarge(s[1..]);
      SumCons(s);
    }
  }

  /** The distribution after an observation in one bucket, before the rounding is made up for. */
  function Observed(s: seq<int>, f: int, value: nat): (r: seq<int>)
    requires value < |s|
    ensures |r| == |s|
  {
    var d := Decayed(s, f);
    d[value := d[value] + (ONE_Q15 - f) * ONE_Q15]
  }

  lemma ObservedUpdate(s: seq<int>, f: int, value: nat)
    requires value < |s|
    ensures var d := Decayed(s, f);
            && Observed(s, f, value) == d[value := d[value] + (ONE_Q15 - f) * ONE_Q15]
            && Sum(Observed(s, f, value)) == Sum(d) + (ONE_Q15 - f) * ONE_Q15
  {
    var d := Decayed(s, f);
    SumUpdate(d, value, d[value] + (ONE_Q15 - f) * ONE_Q15);
  }

  /** A distribution that Add accepts: no more than one in all, and exactly one unless it is about to be forgotten. */
  ghost predicate Usable(s: seq<int>, f: int) {
    && NonNegative(s) && |s| <= MAX_BUCKETS && 0 <= f <= ONE_Q15
    && Sum(s) <= ONE_Q30
    && (f > 0 ==> Sum(s) == ONE_Q30)
  }

  lemma ObservedSum(s: seq<int>, f: int, value: nat)
    requires Usable(s, f) && value < |s|
    ensures NonNegative(Observed(s, f, value))
    ensures ONE_Q30 - |s| < Sum(Observed(s, f, value)) <= ONE_Q30
  {
    var d := Decayed(s, f);
    DecayedSum(s, f);
    SumNonNegative(d);
    RoundingsOfOne(Sum(d), Sum(s), f, |s|);
    ObservedUpdate(s, f, value);
    hide Decayed, Roundings, Sum;
  }

  /** The corrected distribution sums to exactly one, stays non-negative, and differs from the uncorrected one by at
      most a sixteenth in any bucket. */
  lemma CorrectionSuffices(s: seq<int>, f: int, value: nat)
    requires Usable(s, f) && value < |s|
    ensures NonNegative(Observed(s, f, value)) && Sum(Observed(s, f, value)) <= ONE_Q30
    ensures var o := Observed(s, f, value);
            var c := Corrected(o, ONE_Q30 - Sum(o));
            && Sum(c) == ONE_Q30 && NonNegative(c)
            && forall i :: 0 <= i < |s| ==> o[i] <= c[i] <= o[i] + o[i] / 16
  {
    ObservedSum(s, f, value);
    var o := Observed(s, f, value);
    hide Observed;
    CapacityIsLarge(o);
    CorrectedSum(o, ONE_Q30 - Sum(o));
  }

  /** The distribution after an observation. */
  ghost function Added(s: seq<int>, f: int, value: nat): (r: seq<int>)
    requires Usable(s, f) && value < |s|
    ensures |r| == |s|
  {
    CorrectionSuffices(s, f, value);
    Corrected(Observed(s, f, value), ONE_Q30 - Sum(Observed(s, f, value)))
  }

  lemma {:induction false} DecayedAt(s: seq<int>, f: int, i: nat)
    requires i < |s|
    ensures Decayed(s, f)[i] == s[i] * f / ONE_Q15
  {
    if i < |s| - 1 {
      DecayedAt(s[..|s| - 1], f, i);
    }
  }

  /** Each bucket keeps the forgetting factor's part of what it held, the observed one gets the rest of one, and the
      rounding is made up for with at most a sixteenth of each bucket, the front ones first. */
  lemma AddedBuckets(s: seq<int>, f: int, value: nat, i: nat)
    requires Usable(s, f) && value < |s| && i < |s|
    ensures var o := s[i] * f / 0x8000 + if i == value then (0x8000 - f) * 0x8000 else 0;
            && o <= Added(s, f, value)[i] <= o + o / 16
            && (Added(s, f, value)[i] < o + o / 16 ==>
                  forall j: nat :: i < j < |s| ==>
                    Added(s, f, value)[j] == s[j] * f / 0x8000 + if j == value then (0x8000 - f) * 0x8000 else 0)
    ensures Sum(Added(s, f, value)) == ONE_Q30
  {
    CorrectionSuffices(s, f, value);
    var o := Observed(s, f, value);
    forall j: nat | j < |s|
      ensures o[j] == s[j] * f / 0x8000 + if j == value then (0x8000 - f) * 0x8000 else 0
    {
      DecayedAt(s, f, j);
    }
    hide Observed, Decayed, Sum;
    if Added(s, f, value)[i] < o[i] + o[i] / 16 {
      CorrectedFront(o, ONE_Q30 - Sum(o), i);
    }
    hide Corrected;
  }

  lemma AddedIsUsable(s: seq<int>, f: int, value: nat, g: int)
    requires Usable(s, f) && value < |s| && 0 <= g <= ONE_Q15
    ensures Usable(Added(s, f, value), g) && Sum(Added(s, f, value)) == ONE_Q30
    ensures NonNegative(Observed(s, f, value)) && Sum(Observed(s, f, value)) <= ONE_Q30
    ensures Added(s, f, value) == Corrected(Observed(s, f, value), ONE_Q30 - Sum(Observed(s, f, value)))
  {
    CorrectionSuffices(s, f, value);
  }

  function NextForgetFactor(f: int, base: int): int {
    f + (base - f + 3) / 4
  }

  /** The forgetting factor rises strictly until it reaches its steady value, and stays there. */
  lemma ForgetFactorRises(f: int, base: int)
    requires f <= base
    ensures f < base ==> f < NextForgetFactor(f, base) <= base
    ensures f == base ==> NextForgetFactor(f, base) == base
  {
  }

  /** Each observation closes a quarter of the gap to the steady value, rounded up. */
  lemma ForgetFactorQuarter(f: int, base: int)
    requires f <= base
    ensures var step := NextForgetFactor(f, base) - f; 0 <= 4 * step - (base - f) < 4
  {
  }

  function ForgetFactorAfter(adds: nat, base: nat): int {
    if adds == 0 then 0 else NextForgetFactor(ForgetFactorAfter(adds - 1, base), base)
  }

  lemma {:induction false} ForgetFactorConverges(adds: nat, base: nat)
    ensures Min(adds, base) <= ForgetFactorAfter(adds, base) <= base
  {
    if adds > 0 {
      ForgetFactorConverges(adds - 1, base);
      ForgetFactorRises(ForgetFactorAfter(adds - 1, base), base);
    }
  }

  /** The start distribution halves from bucket to bucket. */
  function StartProbability(i: nat): int {
    if i == 0 then 0x4002 else StartProbability(i - 1) / 2
  }

  function Start(n: nat): (r: seq<int>)
    ensures |r| == n
  {
    if n == 0 then [] else Start(n - 1) + [StartProbability(n) * 0x1_0000]
  }

  lemma StartProbabilities()
    ensures StartProbability(1) == 8193 && StartProbability(2) == 4096 && StartProbability(3) == 2048
    ensures StartProbability(4) == 1024 && StartProbability(5) == 512 && StartProbability(6) == 256
    ensures StartProbability(7) == 128 && StartProbability(8) == 64 && StartProbability(9) == 32
    ensures StartProbability(10) == 16 && StartProbability(11) == 8 && StartProbability(12) == 4
    ensures StartProbability(13) == 2 && StartProbability(14) == 1 && StartProbability(15) == 0
  {
    assert StartProbability(0) == 0x4002;
    assert StartProbability(1) == 8193;
    assert StartProbability(2) == 4096;
    assert StartProbability(3) == 2048;
    assert StartProbability(4) == 1024;
    assert StartProbability(5) == 512;
    assert StartProbability(6) == 256;
    assert StartProbability(7) == 128;
    assert StartProbability(8) == 64;
    assert StartProbability(9) == 32;
    assert StartProbability(10) == 16;
    assert StartProbability(11) == 8;
    assert StartProbability(12) == 4;
    assert StartProbability(13) == 2;
    assert StartProbability(14) == 1;
  }

  /** Sixteen binary places below its start value of just over one, each bucket is half the one before, rounded down. */
  lemma {:induction false} StartHalves(n: nat, i: nat)
    requires i < n
    ensures Start(n)[i] == StartProbability(i + 1) * 0x1_0000
    ensures var p := Start(n)[i] / 0x1_0000;
            && Start(n)[i] == p * 0x1_0000
            && p == (if i == 0 then 0x4002 else Start(n)[i - 1] / 0x1_0000) / 2
  {
    if i < n - 1 {
      StartHalves(n - 1, i);
    } else if i > 0 {
      StartHalves(n - 1, i - 1);
    }
  }

  /** It sums to one exactly when there are at least 14 buckets, and to less otherwise. */
  lemma {:induction false} StartSum(n: nat)
    ensures NonNegative(Start(n)) && StartProbability(n) >= 0
    ensures n >= 14 ==> Sum(Start(n)) == ONE_Q30 && StartProbability(n) <= 1
    ensures n < 14 ==>
            Sum(Start(n)) == (if n == 0 then 0 else if n == 1 then 8193 else 16385 - StartProbability(n)) * 0x1_0000
    ensures n < 14 ==> Sum(Start(n)) < ONE_Q30
  {
    StartProbabilities();
    if n > 0 {
      hide Sum;
      StartSum(n - 1);
      SumSnoc(Start(n - 1), StartProbability(n) * 0x1_0000);
    }
  }

  /** The state of the rescaling loop: the new buckets, the mass not yet placed, the time it covers, the next bucket. */
  datatype Scaling = Scaling(hist: seq<int>, acc: int, time: int, idx: nat)

  function Saturated(x: int): (r: int)
    ensures INT_MIN <= r <= INT_MAX
    ensures INT_MIN <= x <= INT_MAX ==> r == x
  {
    if x > INT_MAX then INT_MAX else if x < INT_MIN then INT_MIN else x
  }

  /** What adding to one bucket leaves of the amount when the bucket saturates. */
  function Kept(hist: seq<int>, idx: nat, amount: int): int
    requires idx < |hist|
  {
    Saturated(hist[idx] + amount) - hist[idx]
  }

  function Put(hist: seq<int>, idx: nat, amount: int): (r: seq<int>)
    requires idx < |hist|
    ensures |r| == |hist|
  {
    hist[idx := Saturated(hist[idx] + amount)]
  }

  /** Writes the same amount to every new bucket that is complete. */
  function Fill(s: Scaling, amount: int, width: int): (r: Scaling)
    requires s.idx < |s.hist| && width > 0
    ensures |r.hist| == |s.hist| && r.idx < |r.hist|
    ensures s.time >= 0 ==> 0 <= r.time < width
    decreases s.time
  {
    if s.time < width then s
    else
      Fill(Scaling(Put(s.hist, s.idx, amount), s.acc - Kept(s.hist, s.idx, amount), s.time - width,
                   Min(s.idx + 1, |s.hist| - 1)), amount, width)
  }

  function Share(acc: int, width: int, time: int): int
    requires time > 0
  {
    acc * width / time
  }

  function ScaleStep(s: Scaling, bucket: int, oldWidth: int, newWidth: int): (r: Scaling)
    requires s.idx < |s.hist| && oldWidth > 0 && newWidth > 0 && s.time >= 0
    ensures |r.hist| == |s.hist| && r.idx < |r.hist| && 0 <= r.time < newWidth
  {
    var t := s.(acc := s.acc + bucket, time := s.time + oldWidth);
    Fill(t, Share(t.acc, newWidth, t.time), newWidth)
  }

  /** The state after the first buckets of a histogram of n. */
  function ScaleState(b: seq<int>, n: nat, oldWidth: int, newWidth: int): (r: Scaling)
    requires 0 < n && oldWidth > 0 && newWidth > 0
    ensures |r.hist| == n && r.idx < n && r.time >= 0
  {
    if b == [] then Scaling(Zeros(n), 0, 0, 0)
    else ScaleStep(ScaleState(b[..|b| - 1], n, oldWidth, newWidth), b[|b| - 1], oldWidth, newWidth)
  }

  lemma ScaleStateNext(b: seq<int>, i: nat, n: nat, oldWidth: int, newWidth: int)
    requires 0 < n && oldWidth > 0 && newWidth > 0 && i < |b|
    ensures ScaleState(b[..i + 1], n, oldWidth, newWidth) ==
            ScaleStep(ScaleState(b[..i], n, oldWidth, newWidth), b[i], oldWidth, newWidth)
  {
    assert b[..i + 1][..i] == b[..i];
  }

  /** Puts what is left into the current bucket, and what that cannot hold into the following ones. */
  function Spill(hist: seq<int>, acc: int, idx: nat): (r: seq<int>)
    requires idx <= |hist|
    ensures |r| == |hist|
    decreases |hist| - idx
  {
    if acc <= 0 || idx == |hist| then hist
    else Spill(Put(hist, idx, acc), acc - Kept(hist, idx, acc), idx + 1)
  }

  function Scaled(b: seq<int>, oldWidth: int, newWidth: int): (r: seq<int>)
    requires oldWidth > 0 && newWidth > 0
    ensures |r| == |b|
  {
    if b == [] then []
    else
      var s := ScaleState(b, |b|, oldWidth, newWidth);
      Spill(s.hist, s.acc, s.idx)
  }

  /** Where the rescaling starts and how it ends. */
  lemma ScaledIs(b: seq<int>, oldWidth: int, newWidth: int)
    requires oldWidth > 0 && newWidth > 0
    ensures b[..0] == [] && b[..|b|] == b
    ensures b != [] ==> ScaleState(b[..0], |b|, oldWidth, newWidth) == Scaling(Zeros(|b|), 0, 0, 0)
    ensures b != [] ==>
              var s := ScaleState(b, |b|, oldWidth, newWidth);
              Scaled(b, oldWidth, newWidth) == Spill(s.hist, s.acc, s.idx)
    ensures b == [] ==> Scaled(b, oldWidth, newWidth) == [] == Spill([], 0, 0)
  {
    hide Fill, Share, ScaleStep;
  }

  ghost predicate Fits(s: seq<int>) {
    forall i :: 0 <= i < |s| ==> 0 <= s[i] <= INT_MAX
  }

  lemma PutConserves(hist: seq<int>, idx: nat, amount: int)
    requires idx < |hist| && Fits(hist) && amount >= 0
    ensures Fits(Put(hist, idx, amount)) && 0 <= Kept(hist, idx, amount) <= amount
    ensures Sum(Put(hist, idx, amount)) == Sum(hist) + Kept(hist, idx, amount)
    ensures Sum(hist) + amount <= INT_MAX ==> Kept(hist, idx, amount) == amount
  {
    SumUpdate(hist, idx, Saturated(hist[idx] + amount));
    SumNonNegative(hist);
  }

  /** Filling conserves mass and never overdraws: the amounts written fit in what has been gathered. */
  lemma {:induction false} FillConserves(s: Scaling, amount: int, width: int)
    requires s.idx < |s.hist| && width > 0 && s.time >= 0 && Fits(s.hist)
    requires amount >= 0 && s.acc >= 0 && amount * s.time <= s.acc * width
    ensures var r := Fill(s, amount, width);
            Fits(r.hist) && 0 <= r.acc <= s.acc && Sum(r.hist) + r.acc == Sum(s.hist) + s.acc
    decreases s.time
  {
    if s.time >= width {
      var next := Scaling(Put(s.hist, s.idx, amount), s.acc - Kept(s.hist, s.idx, amount), s.time - width,
                          Min(s.idx + 1, |s.hist| - 1));
      assert Fill(s, amount, width) == Fill(next, amount, width);
      hide Fill, Put, Kept, Sum, Fits;
      PutConserves(s.hist, s.idx, amount);
      var kept := Kept(s.hist, s.idx, amount);
      Overdraw(amount, s.acc, s.time, width, kept);
      FillConserves(next, amount, width);
    }
  }

  lemma Overdraw(amount: int, acc: int, time: int, width: int, kept: int)
    requires amount >= 0 && time >= width > 0 && amount * time <= acc * width && kept <= amount
    ensures amount * (time - width) <= (acc - kept) * width
    ensures acc - kept >= 0
  {
    assert kept * width <= amount * width;
    assert amount * time - amount * width <= acc * width - kept * width;
    assert amount * (time - width) == amount * time - amount * width;
    assert (acc - kept) * width == acc * width - kept * width;
    assert amount * (time - width) >= 0;
    assert acc - kept < 0 ==> (acc - kept) * width < 0;
  }

  lemma ShareBound(acc: int, width: int, time: int)
    requires acc >= 0 && width > 0 && time > 0
    ensures 0 <= Share(acc, width, time) && Share(acc, width, time) * time <= acc * width
  {
    var p := acc * width;
    assert p >= 0;
    assert p == p / time * time + p % time;
  }

  /** Mass is conserved at every step, and what is not yet placed is never negative. */
  lemma {:induction false} ScaleConserves(b: seq<int>, n: nat, oldWidth: int, newWidth: int)
    requires 0 < n && oldWidth > 0 && newWidth > 0 && Fits(b)
    ensures var s := ScaleState(b, n, oldWidth, newWidth);
            Fits(s.hist) && s.acc >= 0 && Sum(s.hist) + s.acc == Sum(b) && s.time < oldWidth + newWidth
  {
    if b == [] {
      SumZeros(n);
    } else {
      var k := |b| - 1;
      assert Fits(b[..k]) && b[k] >= 0;
      hide *;
      assert b == b[..k] + [b[k]] == b[..k + 1];
      SumSnoc(b[..k], b[k]);
      ScaleConserves(b[..k], n, oldWidth, newWidth);
      ScaleStateNext(b, k, n, oldWidth, newWidth);
      StepConserves(ScaleState(b[..k], n, oldWidth, newWidth), b[k], oldWidth, newWidth);
    }
  }

  lemma StepConserves(s: Scaling, bucket: int, oldWidth: int, newWidth: int)
    requires s.idx < |s.hist| && oldWidth > 0 && newWidth > 0 && s.time >= 0
    requires s.acc >= 0 && bucket >= 0 && Fits(s.hist)
    ensures var r := ScaleStep(s, bucket, oldWidth, newWidth);
            Fits(r.hist) && r.acc >= 0 && Sum(r.hist) + r.acc == Sum(s.hist) + s.acc + bucket
  {
    hide Sum, Fits, Fill, Share;
    var t := s.(acc := s.acc + bucket, time := s.time + oldWidth);
    ShareBound(t.acc, newWidth, t.time);
    FillConserves(t, Share(t.acc, newWidth, t.time), newWidth);
  }

  lemma {:induction false} SpillConserves(hist: seq<int>, acc: int, idx: nat)
    requires idx <= |hist| && Fits(hist) && acc >= 0
    ensures Fits(Spill(hist, acc, idx))
    ensures Sum(hist) <= Sum(Spill(hist, acc, idx)) <= Sum(hist) + acc
    ensures idx < |hist| && Sum(hist) + acc <= INT_MAX ==> Sum(Spill(hist, acc, idx)) == Sum(hist) + acc
    decreases |hist| - idx
  {
    if acc > 0 && idx < |hist| {
      PutConserves(hist, idx, acc);
      hide Put, Kept;
      SpillConserves(Put(hist, idx, acc), acc - Kept(hist, idx, acc), idx + 1);
    }
  }

  /** Rescaling never creates mass, and loses none when the total fits in 32 bits. */
  lemma ScaledConserves(b: seq<int>, oldWidth: int, newWidth: int)
    requires oldWidth > 0 && newWidth > 0 && Fits(b)
    ensures Fits(Scaled(b, oldWidth, newWidth)) && Sum(Scaled(b, oldWidth, newWidth)) <= Sum(b)
    ensures Sum(b) <= INT_MAX ==> Sum(Scaled(b, oldWidth, newWidth)) == Sum(b)
  {
    if b != [] {
      var s := ScaleState(b, |b|, oldWidth, newWidth);
      ScaleConserves(b, |b|, oldWidth, newWidth);
      SpillConserves(s.hist, s.acc, s.idx);
    }
  }

  /** Where a group of k buckets starts. */
  function Boundary(k: nat, j: nat): (r: nat)
    ensures k > 0 ==> r >= j
  {
    j * k
  }

  lemma BoundaryNext(k: nat, j: nat)
    ensures Boundary(k, j + 1) == Boundary(k, j) + k
    ensures Boundary(k, 0) == 0 && Boundary(1, j) == j
  {
  }

  lemma {:induction false} BoundaryMonotone(k: nat, i: nat, j: nat)
    requires i <= j
    ensures Boundary(k, i) <= Boundary(k, j)
    decreases j
  {
    if i < j {
      BoundaryMonotone(k, i, j - 1);
      BoundaryNext(k, j - 1);
    }
  }

  /** The mass of the j-th group of k buckets. */
  function GroupSum(b: seq<int>, k: nat, j: nat): int {
    var lo := Boundary(k, j);
    if lo + k <= |b| then Sum(b[lo..lo + k]) else if lo <= |b| then Sum(b[lo..]) else 0
  }

  lemma ShareOfWhole(acc: int, width: int)
    requires width > 0
    ensures Share(acc, width, width) == acc
  {
    var p := acc * width;
    var q, m := p / width, p % width;
    assert p == q * width + m && 0 <= m < width;
    assert (acc - q) * width == m;
    assert acc - q >= 1 ==> (acc - q) * width >= width;
    assert acc - q <= -1 ==> (acc - q) * width <= -width;
  }

  ghost predicate GroupedTo(s: Scaling, b: seq<int>, n: nat, width: int, k: nat, j: nat, r: nat)
    requires Boundary(k, j) <= |b|
  {
    && |s.hist| == n && s.time == r * width && s.idx == Min(j, n - 1)
    && s.acc == Sum(b[Boundary(k, j)..])
    && (forall m: nat :: m < j && m < n ==> s.hist[m] == GroupSum(b, k, m))
    && (forall m: nat :: j <= m < n ==> s.hist[m] == 0)
  }

  lemma GroupSumPrefix(b: seq<int>, k: nat, j: nat)
    requires b != [] && Boundary(k, j) + k < |b|
    ensures GroupSum(b[..|b| - 1], k, j) == GroupSum(b, k, j)
  {
    var lo := Boundary(k, j);
    hide Boundary;
    assert b[..|b| - 1][lo..lo + k] == b[lo..lo + k];
  }

  /** One step of scaling, when the new bucket is at most completed by it. */
  lemma GroupStep(s: Scaling, bucket: int, n: nat, width: int, newWidth: int)
    requires |s.hist| == n && s.idx < n && width > 0 && 0 <= s.time && s.time + width <= newWidth
    requires s.hist[s.idx] == 0 && 0 <= s.acc + bucket <= INT_MAX
    ensures ScaleStep(s, bucket, width, newWidth) ==
            if s.time + width < newWidth then s.(acc := s.acc + bucket, time := s.time + width)
            else Scaling(s.hist[s.idx := s.acc + bucket], 0, 0, Min(s.idx + 1, n - 1))
  {
    var t := s.(acc := s.acc + bucket, time := s.time + width);
    if t.time < newWidth {
      assert Fill(t, Share(t.acc, newWidth, t.time), newWidth) == t;
    } else {
      ShareOfWhole(t.acc, newWidth);
      hide Share;
      var u := Scaling(Put(t.hist, t.idx, t.acc), 0, 0, Min(t.idx + 1, |t.hist| - 1));
      assert Kept(t.hist, t.idx, t.acc) == t.acc;
      assert Fill(t, t.acc, newWidth) == Fill(u, t.acc, newWidth);
      assert Fill(u, t.acc, newWidth) == u;
    }
  }

  lemma Multiples(r: nat, k: nat, width: int)
    requires width > 0 && r < k
    ensures 0 <= r * width && r * width + width == (r + 1) * width
    ensures r + 1 < k ==> r * width + width < k * width
    ensures r + 1 == k ==> r * width + width == k * width
    ensures k * width > 0
  {
    Product(r, width);
    Product(k - r - 1, width);
    Distribute(r, 1, width);
    Distribute(r + 1, k - r - 1, width);
  }

  lemma Product(a: nat, b: int)
    requires b > 0
    ensures 0 <= a * b && (a > 0 ==> b <= a * b)
  {
    if a > 0 {
      assert (a - 1) * b >= 0;
    }
  }

  lemma Distribute(a: int, b: int, c: int)
    ensures (a + b) * c == a * c + b * c
  {
  }

  lemma GroupStart(b: seq<int>, n: nat, width: int, k: nat)
    requires n > 0 && width > 0 && k * width > 0 && b == []
    ensures GroupedTo(ScaleState(b, n, width, k * width), b, n, width, k, 0, 0)
  {
    BoundaryNext(k, 0);
    hide Boundary;
    assert b[Boundary(k, 0)..] == [];
  }

  lemma {:induction false} GroupState(b: seq<int>, n: nat, width: int, k: nat, j: nat, r: nat)
    requires n > 0 && width > 0 && r < k && |b| <= n && |b| == Boundary(k, j) + r
    requires NonNegative(b) && Sum(b) <= INT_MAX
    requires k * width > 0
    ensures GroupedTo(ScaleState(b, n, width, k * width), b, n, width, k, j, r)
    decreases |b|
  {
    BoundaryNext(k, j);
    if b == [] {
      GroupStart(b, n, width, k);
    } else {
      var c := b[..|b| - 1];
      var i, q := if r > 0 then j else j - 1, if r > 0 then r - 1 else k - 1;
      assert NonNegative(c);
      hide *;
      PrefixSums(b, |b| - 1);
      BoundaryNext(k, i);
      GroupState(c, n, width, k, i, q);
      GroupLast(b, n, width, k, i, q);
    }
  }

  lemma GroupLast(b: seq<int>, n: nat, width: int, k: nat, i: nat, q: nat)
    requires n > 0 && width > 0 && q < k && 0 < |b| <= n && |b| == Boundary(k, i) + q + 1
    requires NonNegative(b) && Sum(b) <= INT_MAX && k * width > 0
    requires GroupedTo(ScaleState(b[..|b| - 1], n, width, k * width), b[..|b| - 1], n, width, k, i, q)
    requires i <= Boundary(k, i) && Boundary(k, i + 1) == Boundary(k, i) + k
    ensures q + 1 < k ==> GroupedTo(ScaleState(b, n, width, k * width), b, n, width, k, i, q + 1)
    ensures q + 1 == k ==> GroupedTo(ScaleState(b, n, width, k * width), b, n, width, k, i + 1, 0)
  {
    var s := ScaleState(b[..|b| - 1], n, width, k * width);
    hide Sum, Boundary, GroupSum, GroupedTo;
    GroupTail(b, Boundary(k, i));
    Multiples(q, k, width);
    GroupedState(s, b[..|b| - 1], n, width, k, i, q);
    GroupStep(s, b[|b| - 1], n, width, k * width);
    if q + 1 < k {
      GroupExtend(s, b, n, width, k, i, q);
    } else {
      GroupClose(s, b, n, width, k, i);
    }
  }

  lemma GroupedState(s: Scaling, b: seq<int>, n: nat, width: int, k: nat, i: nat, q: nat)
    requires Boundary(k, i) <= |b| && GroupedTo(s, b, n, width, k, i, q) && i < n
    ensures |s.hist| == n && s.idx == i && s.time == q * width && s.acc == Sum(b[Boundary(k, i)..])
    ensures s.hist[i] == 0
  {
  }

  lemma GroupExtend(s: Scaling, b: seq<int>, n: nat, width: int, k: nat, i: nat, q: nat)
    requires b != [] && NonNegative(b) && Boundary(k, i) < |b| && GroupedTo(s, b[..|b| - 1], n, width, k, i, q)
    ensures GroupedTo(s.(acc := s.acc + b[|b| - 1], time := (q + 1) * width), b, n, width, k, i, q + 1)
  {
    GroupSumsPrefix(b, k, i);
    GroupTail(b, Boundary(k, i));
    hide Boundary, GroupSum, Sum;
  }

  lemma GroupClose(s: Scaling, b: seq<int>, n: nat, width: int, k: nat, i: nat)
    requires b != [] && NonNegative(b) && k > 0 && Boundary(k, i) + k == |b| && i < n
    requires GroupedTo(s, b[..|b| - 1], n, width, k, i, k - 1)
    ensures Boundary(k, i + 1) == |b|
    ensures GroupedTo(Scaling(s.hist[i := s.acc + b[|b| - 1]], 0, 0, Min(i + 1, n - 1)), b, n, width, k, i + 1, 0)
  {
    GroupSumsPrefix(b, k, i);
    GroupTail(b, Boundary(k, i));
    GroupTail(b, |b|);
    BoundaryNext(k, i);
    assert b[Boundary(k, i)..Boundary(k, i) + k] == b[Boundary(k, i)..];
    assert GroupSum(b, k, i) == Sum(b[Boundary(k, i)..]);
    hide Boundary, GroupSum, Sum;
  }

  /** What the last bucket adds to the sum of a tail, and the bound on it. */
  lemma GroupTail(b: seq<int>, lo: nat)
    requires 0 < |b| && lo <= |b| && NonNegative(b)
    ensures lo < |b| ==> Sum(b[lo..]) == Sum(b[..|b| - 1][lo..]) + b[|b| - 1]
    ensures lo == |b| ==> Sum(b[lo..]) == 0
    ensures 0 <= Sum(b[lo..]) <= Sum(b)
  {
    TailSum(b, lo);
    if lo == |b| {
      assert b[lo..] == [];
    } else {
      hide Sum, NonNegative;
      assert b[lo..] == b[..|b| - 1][lo..] + [b[|b| - 1]];
      SumSnoc(b[..|b| - 1][lo..], b[|b| - 1]);
    }
  }

  lemma TailSum(b: seq<int>, lo: nat)
    requires lo <= |b| && NonNegative(b)
    ensures 0 <= Sum(b[lo..]) <= Sum(b)
  {
    SumNonNegative(b[..lo]);
    SumNonNegative(b[lo..]);
    hide Sum;
    SumConcat(b[..lo], b[lo..]);
    assert b == b[..lo] + b[lo..];
  }

  lemma GroupSumsPrefix(b: seq<int>, k: nat, i: nat)
    requires b != [] && Boundary(k, i) < |b|
    ensures forall m: nat :: m < i ==> GroupSum(b[..|b| - 1], k, m) == GroupSum(b, k, m)
  {
    forall m: nat | m < i
      ensures GroupSum(b[..|b| - 1], k, m) == GroupSum(b, k, m)
    {
      BoundaryMonotone(k, m + 1, i);
      BoundaryNext(k, m);
      hide Boundary;
      GroupSumPrefix(b, k, m);
    }
  }

  lemma SpillOnce(hist: seq<int>, acc: int, idx: nat)
    requires idx < |hist| && acc >= 0 && 0 <= hist[idx] && hist[idx] + acc <= INT_MAX
    ensures Spill(hist, acc, idx) == hist[idx := hist[idx] + acc]
  {
    if acc > 0 {
      assert Kept(hist, idx, acc) == acc;
      assert Spill(Put(hist, idx, acc), 0, idx + 1) == Put(hist, idx, acc);
    }
  }

  /** Scaling to k times the width adds up the buckets in groups of k; what is over is a last, smaller group. */
  lemma ScaledByMultiple(b: seq<int>, width: int, k: nat, m: nat)
    requires width > 0 && k > 0 && NonNegative(b) && Sum(b) <= INT_MAX && m < |b|
    ensures k * width > 0 && 0 <= Min(m * k, |b|) <= Min(m * k + k, |b|)
    ensures Scaled(b, width, k * width)[m] == Sum(b[Min(m * k, |b|)..Min(m * k + k, |b|)])
  {
    hide *;
    GroupSumIs(b, k, m);
    ScaledGroup(b, width, k, m);
  }

  lemma GroupSumIs(b: seq<int>, k: nat, m: nat)
    ensures 0 <= Min(m * k, |b|) <= Min(m * k + k, |b|)
    ensures GroupSum(b, k, m) == Sum(b[Min(m * k, |b|)..Min(m * k + k, |b|)])
  {
    var lo := Boundary(k, m);
    assert m * k == lo >= 0;
    hide Boundary;
    assert b[|b|..|b|] == [];
    if lo <= |b| {
      assert b[lo..] == b[lo..|b|];
    }
  }

  lemma {:induction false} ScaledGroup(b: seq<int>, width: int, k: nat, m: nat)
    requires width > 0 && k > 0 && NonNegative(b) && Sum(b) <= INT_MAX && m < |b|
    ensures k * width > 0 && Scaled(b, width, k * width)[m] == GroupSum(b, k, m)
  {
    Product(k, width);
    var n, j, r := |b|, |b| / k, |b| % k;
    assert n == Boundary(k, j) + r;
    var s := ScaleState(b, n, width, k * width);
    GroupState(b, n, width, k, j, r);
    GroupTail(b, Boundary(k, j));
    BoundaryNext(k, j);
    assert Scaled(b, width, k * width) == Spill(s.hist, s.acc, s.idx);
    hide ScaleState, Scaled;
    ScaledGroups(s, b, width, k, j, r);
  }

  lemma ScaledGroups(s: Scaling, b: seq<int>, width: int, k: nat, j: nat, r: nat)
    requires b != [] && k > 0 && r < k && |b| == Boundary(k, j) + r && j <= |b|
    requires GroupedTo(s, b, |b|, width, k, j, r) && Boundary(k, j + 1) == Boundary(k, j) + k
    requires 0 <= s.acc <= INT_MAX && (r == 0 ==> s.acc == 0)
    ensures forall m: nat :: m < |b| ==> Spill(s.hist, s.acc, s.idx)[m] == GroupSum(b, k, m)
  {
    GroupsEnd(b, k, j);
    if j == |b| {
      assert Spill(s.hist, s.acc, s.idx) == s.hist by {
        BoundaryMonotone(k, j, j + 1);
        hide GroupSum, Sum;
      }
    } else {
      hide Sum, Boundary, GroupSum;
      SpillOnce(s.hist, s.acc, s.idx);
    }
  }

  /** The last group holds what is left, and the ones after it nothing. */
  lemma GroupsEnd(b: seq<int>, k: nat, j: nat)
    requires k > 0 && Boundary(k, j) <= |b| < Boundary(k, j) + k
    ensures GroupSum(b, k, j) == Sum(b[Boundary(k, j)..])
    ensures forall m: nat :: j < m ==> GroupSum(b, k, m) == 0
  {
    forall m: nat | j < m
      ensures GroupSum(b, k, m) == 0
    {
      BoundaryNext(k, j);
      BoundaryMonotone(k, j + 1, m);
      hide Boundary;
    }
  }

  /** Scaling to the same width changes nothing. */
  lemma ScaledToSameWidth(b: seq<int>, width: int)
    requires width > 0 && NonNegative(b) && Sum(b) <= INT_MAX
    ensures Scaled(b, width, width) == b
  {
    forall m: nat | m < |b|
      ensures Scaled(b, width, width)[m] == b[m]
    {
      ScaledGroup(b, width, 1, m);
      assert 1 * width == width;
      hide Scaled, ScaleState;
      BoundaryNext(1, m);
      SumSnoc([], b[m]);
      assert b[m..m + 1] == [] + [b[m]];
    }
  }

  /** The mass that has come in fits in 32 bits, and writing the amount does not overdraw it. */
  ghost predicate Writable(s: Scaling, amount: int, width: int) {
    && s.idx < |s.hist| && width > 0 && s.time >= 0 && Fits(s.hist) && Sum(s.hist) + s.acc <= INT_MAX
    && amount >= 0 && s.acc >= 0 && amount * s.time <= s.acc * width
  }

  function Times(a: int, b: int): int {
    a * b
  }

  lemma TimesNext(a: int, b: int)
    ensures Times(a + 1, b) == Times(a, b) + b && Times(0, b) == 0
  {
  }

  /** The amount is written w times, each time into the next bucket; from the last bucket on it piles up there. */
  ghost predicate Wrote(s: Scaling, r: Scaling, amount: int, width: int, w: nat)
    requires s.idx < |s.hist| == |r.hist|
  {
    && r.time == s.time - Times(w, width) && r.acc == s.acc - Times(w, amount)
    && r.idx == Min(s.idx + w, |s.hist| - 1)
    && forall p: nat :: p < |s.hist| - 1 ==> r.hist[p] == s.hist[p] + if s.idx <= p < s.idx + w then amount else 0
  }

  /** Filling writes once for every width of time that has gone by. */
  lemma {:induction false} FillWrites(s: Scaling, amount: int, width: int, w: nat)
    requires Writable(s, amount, width) && Times(w, width) <= s.time < Times(w, width) + width
    ensures Wrote(s, Fill(s, amount, width), amount, width, w)
    decreases w
  {
    TimesNext(0, width);
    TimesNext(0, amount);
    if w > 0 {
      TimesNext(w - 1, width);
      TimesNext(w - 1, amount);
      TimesAtLeast(w - 1, width);
      WriteOnce(s, amount, width);
      var next := Scaling(s.hist[s.idx := s.hist[s.idx] + amount], s.acc - amount, s.time - width,
                          Min(s.idx + 1, |s.hist| - 1));
      hide Fill, Writable, Times;
      FillWrites(next, amount, width, w - 1);
    } else {
      hide Times;
    }
  }

  lemma TimesAtLeast(a: nat, b: int)
    ensures b >= 0 ==> Times(a, b) >= 0
  {
  }

  lemma WriteOnce(s: Scaling, amount: int, width: int)
    requires Writable(s, amount, width) && width <= s.time
    ensures var next := Scaling(s.hist[s.idx := s.hist[s.idx] + amount], s.acc - amount, s.time - width,
                                Min(s.idx + 1, |s.hist| - 1));
            Writable(next, amount, width) && Fill(s, amount, width) == Fill(next, amount, width)
  {
    Overdraw(amount, s.acc, s.time, width, amount);
    PutConserves(s.hist, s.idx, amount);
    assert Put(s.hist, s.idx, amount) == s.hist[s.idx := s.hist[s.idx] + amount];
  }

  /** What stays unplaced after one more old bucket is, up to one unit for each new bucket written, the part of the mass
      that the time not yet covered is of all the time; each new bucket gets the same, and the others nothing. */
  ghost predicate Proportional(s: Scaling, r: Scaling, bucket: int, oldWidth: int, newWidth: int, w: int) {
    var time, acc := s.time + oldWidth, s.acc + bucket;
    && |s.hist| == |r.hist| && 0 <= w
    && r.time == time - w * newWidth && 0 <= r.time < newWidth
    && 0 <= r.acc * time - acc * r.time <= w * time
    && (w > 0 ==> r.acc * time - acc * r.time < w * time)
    && r.idx == Min(s.idx + w, |s.hist| - 1)
    && (forall p: nat :: s.idx <= p < s.idx + w && p < |s.hist| - 1 ==> w * (r.hist[p] - s.hist[p]) == acc - r.acc)
    && (forall p: nat :: p < |s.hist| - 1 && !(s.idx <= p < s.idx + w) ==> r.hist[p] == s.hist[p])
  }

  lemma StepIsProportional(s: Scaling, bucket: int, oldWidth: int, newWidth: int) returns (w: int)
    requires s.idx < |s.hist| && oldWidth > 0 && newWidth > 0 && s.time >= 0 && s.acc >= 0 && bucket >= 0
    requires Fits(s.hist) && Sum(s.hist) + s.acc + bucket <= INT_MAX
    ensures Proportional(s, ScaleStep(s, bucket, oldWidth, newWidth), bucket, oldWidth, newWidth, w)
  {
    hide Fill, Share, Fits, Sum;
    var t := s.(acc := s.acc + bucket, time := s.time + oldWidth);
    w := t.time / newWidth;
    var amount := Share(t.acc, newWidth, t.time);
    ShareBound(t.acc, newWidth, t.time);
    ShareIsFloor(t.acc, newWidth, t.time);
    QuotientBounds(t.time, newWidth);
    FillWrites(t, amount, newWidth, w);
    var r := Fill(t, amount, newWidth);
    assert ScaleStep(s, bucket, oldWidth, newWidth) == r;
    hide ScaleStep;
    LeftOver(t.acc, t.time, amount, newWidth, w);
    forall p: nat | s.idx <= p < s.idx + w && p < |s.hist| - 1
      ensures w * (r.hist[p] - s.hist[p]) == t.acc - r.acc
    {
      assert r.hist[p] - s.hist[p] == amount;
    }
  }

  lemma QuotientBounds(time: int, width: int)
    requires time >= 0 && width > 0
    ensures time / width >= 0 && Times(time / width, width) <= time < Times(time / width, width) + width
  {
    assert time == time / width * width + time % width;
  }

  lemma ShareIsFloor(acc: int, width: int, time: int)
    requires acc >= 0 && width > 0 && time > 0
    ensures acc * width < (Share(acc, width, time) + 1) * time
  {
    var p := acc * width;
    assert p == p / time * time + p % time;
  }

  lemma LeftOver(acc: int, time: int, amount: int, width: int, w: int)
    requires time > 0 && w >= 0 && amount * time <= acc * width < (amount + 1) * time
    ensures var left, rest := acc - Times(w, amount), time - Times(w, width);
            && 0 <= left * time - acc * rest <= w * time
            && (w > 0 ==> left * time - acc * rest < w * time)
  {
    var d := acc * width - amount * time;
    assert (amount + 1) * time == amount * time + time;
    LeftOverIs(acc, time, amount, width, w);
    BetweenProducts(w, d, time);
  }

  lemma LeftOverIs(acc: int, time: int, amount: int, width: int, w: int)
    ensures (acc - Times(w, amount)) * time - acc * (time - Times(w, width)) == w * (acc * width - amount * time)
  {
    assert (w * amount) * time == w * (amount * time) && acc * (w * width) == w * (acc * width);
    Distribute(acc, -(w * amount), time);
    Distribute(time, -(w * width), acc);
    Distribute(acc * width, -(amount * time), w);
  }

  lemma BetweenProducts(w: int, d: int, time: int)
    requires w >= 0 && 0 <= d < time
    ensures 0 <= w * d <= w * time && (w > 0 ==> w * d < w * time)
  {
    assert w * (time - d) == w * time - w * d;
    assert w > 0 ==> w * (time - d) > 0;
  }

  /** On the whole way through the old buckets. */
  lemma ScaleIsProportional(b: seq<int>, i: nat, n: nat, oldWidth: int, newWidth: int) returns (w: int)
    requires 0 < n && oldWidth > 0 && newWidth > 0 && i < |b| && NonNegative(b) && Sum(b) <= INT_MAX
    ensures Proportional(ScaleState(b[..i], n, oldWidth, newWidth), ScaleState(b[..i + 1], n, oldWidth, newWidth),
                         b[i], oldWidth, newWidth, w)
  {
    PrefixFits(b, i);
    ScaleConserves(b[..i], n, oldWidth, newWidth);
    ScaleStateNext(b, i, n, oldWidth, newWidth);
    PrefixSums(b, i);
    PrefixSums(b, i + 1);
    assert b[i] >= 0;
    hide *;
    w := StepIsProportional(ScaleState(b[..i], n, oldWidth, newWidth), b[i], oldWidth, newWidth);
  }

  lemma PrefixFits(b: seq<int>, i: nat)
    requires i <= |b| && NonNegative(b) && Sum(b) <= INT_MAX
    ensures Fits(b[..i])
  {
    SumNonNegative(b);
    hide Sum;
  }

  /** The old bucket that the new bucket p is part of. */
  function Group(p: nat, k: nat): nat
    requires k > 0
  {
    p / k
  }

  /** x is a k-th of the whole, up to less than one unit. */
  ghost predicate IsPart(x: int, whole: int, k: nat) {
    whole - k < k * x < whole + k
  }

  /** After old buckets that are k times as wide: every new bucket before the last holds a k-th of its old one, and less
      than k units are carried on. */
  ghost predicate Narrowed(s: Scaling, b: seq<int>, n: nat, k: nat)
    requires k > 0
  {
    && |s.hist| == n && s.time == 0 && 0 <= s.acc < k && s.idx == Min(Times(|b|, k), n - 1)
    && (forall p: nat :: p < n - 1 && p < Times(|b|, k) ==> Group(p, k) < |b| && IsPart(s.hist[p], b[Group(p, k)], k))
    && (forall p: nat :: p < n - 1 && Times(|b|, k) <= p ==> s.hist[p] == 0)
  }

  lemma {:induction false} NarrowedState(b: seq<int>, n: nat, width: int, k: nat)
    requires 0 < n && width > 0 && k > 0 && k * width > 0 && NonNegative(b) && Sum(b) <= INT_MAX
    ensures Narrowed(ScaleState(b, n, k * width, width), b, n, k)
  {
    if b != [] {
      var j := |b| - 1;
      var c := b[..j];
      assert NonNegative(c);
      PrefixSums(b, j);
      NarrowedState(c, n, width, k);
      assert b[..j + 1] == b;
      var w := ScaleIsProportional(b, j, n, k * width, width);
      hide ScaleState, Sum;
      var s, r := ScaleState(c, n, k * width, width), ScaleState(b, n, k * width, width);
      ExactWrites(s.time + k * width - w * width, k, w, width);
      NarrowedNext(s, r, b, n, width, k);
    }
  }

  lemma ExactWrites(rest: int, k: nat, w: int, width: int)
    requires width > 0 && rest == k * width - w * width && 0 <= rest < width
    ensures w == k && rest == 0
  {
    assert (k - w) * width == rest;
    assert k - w >= 1 ==> (k - w) * width >= width;
    assert k - w <= -1 ==> (k - w) * width <= 0 - width;
  }

  lemma NarrowedNext(s: Scaling, r: Scaling, b: seq<int>, n: nat, width: int, k: nat)
    requires b != [] && width > 0 && k > 0 && n > 0 && Narrowed(s, b[..|b| - 1], n, k)
    requires r.time == 0 && Proportional(s, r, b[|b| - 1], k * width, width, k)
    ensures Narrowed(r, b, n, k)
  {
    var j := |b| - 1;
    CarryIsSmall(s, r, b[j], width, k);
    TimesNext(j, k);
    TimesAtLeast(j, k);
    hide Times, IsPart, Proportional, Group;
    forall p: nat | p < n - 1 && p < Times(|b|, k)
      ensures Group(p, k) < |b| && IsPart(r.hist[p], b[Group(p, k)], k)
    {
      NarrowedEntry(s, r, b, n, width, k, p);
    }
    forall p: nat | p < n - 1 && Times(|b|, k) <= p
      ensures r.hist[p] == 0
    {
      LaterEntry(s, r, b[j], k * width, width, k, p);
    }
    NextIndex(s, r, b[j], k * width, width, k);
  }

  lemma NarrowedEntry(s: Scaling, r: Scaling, b: seq<int>, n: nat, width: int, k: nat, p: nat)
    requires b != [] && width > 0 && k > 0 && n > 0 && Narrowed(s, b[..|b| - 1], n, k) && 0 <= r.acc < k
    requires |r.hist| == n && Proportional(s, r, b[|b| - 1], k * width, width, k) && p < n - 1 && p < Times(|b|, k)
    ensures Group(p, k) < |b| && IsPart(r.hist[p], b[Group(p, k)], k)
  {
    var j := |b| - 1;
    TimesNext(j, k);
    hide IsPart, Group;
    if p < Times(j, k) {
      assert b[..j][Group(p, k)] == b[Group(p, k)];
    } else {
      QuotientIs(p, k, j);
      NewPart(s, r, b[j], width, k, p);
    }
  }

  lemma LaterEntry(s: Scaling, r: Scaling, bucket: int, oldWidth: int, newWidth: int, w: int, p: nat)
    requires Proportional(s, r, bucket, oldWidth, newWidth, w) && p < |s.hist| - 1 && s.idx + w <= p
    ensures r.hist[p] == s.hist[p]
  {
  }

  lemma NextIndex(s: Scaling, r: Scaling, bucket: int, oldWidth: int, newWidth: int, w: int)
    requires Proportional(s, r, bucket, oldWidth, newWidth, w)
    ensures r.idx == Min(s.idx + w, |s.hist| - 1) && |r.hist| == |s.hist|
  {
  }

  lemma CarryIsSmall(s: Scaling, r: Scaling, bucket: int, width: int, k: nat)
    requires width > 0 && k > 0 && s.time == r.time == 0 && Proportional(s, r, bucket, k * width, width, k)
    ensures 0 <= r.acc < k
  {
    var time := k * width;
    Product(k, width);
    assert (s.acc + bucket) * 0 == 0;
    assert 0 <= r.acc * time < k * time;
    assert r.acc < 0 ==> r.acc * time < 0;
    assert r.acc >= k ==> (r.acc - k) * time >= 0;
    assert (r.acc - k) * time == r.acc * time - k * time;
  }

  lemma NewPart(s: Scaling, r: Scaling, bucket: int, width: int, k: nat, p: nat)
    requires k > 0 && Proportional(s, r, bucket, k * width, width, k)
    requires 0 <= s.acc < k && 0 <= r.acc < k && s.idx <= p < s.idx + k && p < |s.hist| - 1 && s.hist[p] == 0
    ensures IsPart(r.hist[p], bucket, k)
  {
    assert k * (r.hist[p] - s.hist[p]) == s.acc + bucket - r.acc;
  }

  lemma QuotientIs(p: nat, k: nat, j: nat)
    requires k > 0 && Times(j, k) <= p < Times(j, k) + k
    ensures Group(p, k) == j
  {
    var d := p / k - j;
    assert p == p / k * k + p % k;
    assert d * k == p / k * k - j * k;
    assert d >= 1 ==> d * k >= k;
    assert d <= -1 ==> d * k + k <= 0;
  }

  lemma OnlyLastSpills(b: seq<int>, width: int, k: nat)
    requires width > 0 && k > 0 && k * width > 0 && b != [] && NonNegative(b) && Sum(b) <= INT_MAX
    ensures var s := ScaleState(b, |b|, k * width, width);
            && Narrowed(s, b, |b|, k)
            && forall m: nat :: m < |b| - 1 ==> Scaled(b, k * width, width)[m] == s.hist[m]
  {
    var n := |b|;
    var s := ScaleState(b, n, k * width, width);
    assert b[..n] == b;
    PrefixFits(b, n);
    hide Sum, NonNegative, IsPart;
    NarrowedState(b, n, width, k);
    ScaledIs(b, k * width, width);
    ScaleConserves(b, n, k * width, width);
    assert NonNegative(s.hist) by {
      FitsIsNonNegative(s.hist);
    }
    SumNonNegative(s.hist);
    TimesMore(n, k);
    hide ScaleState, Scaled, Times;
    SpillOnce(s.hist, s.acc, s.idx);
  }

  lemma PartIs(s: Scaling, b: seq<int>, k: nat, m: nat)
    requires k > 0 && m < |b| - 1 && Narrowed(s, b, |b|, k)
    ensures m / k < |b| && b[m / k] - k < k * s.hist[m] < b[m / k] + k
  {
    TimesMore(|b|, k);
    hide Times;
    assert Group(m, k) < |b| && IsPart(s.hist[m], b[Group(m, k)], k);
  }

  lemma FitsIsNonNegative(s: seq<int>)
    requires Fits(s)
    ensures NonNegative(s)
  {
  }

  lemma TimesMore(n: nat, k: nat)
    requires k > 0
    ensures Times(n, k) >= n
  {
    assert n * (k - 1) >= 0;
  }

  /** Scaling to a k-th of the width splits every bucket into k equal parts, each right up to less than one unit; only
      the last bucket takes more. */
  lemma ScaledByFraction(b: seq<int>, width: int, k: nat, m: nat)
    requires width > 0 && k > 0 && NonNegative(b) && Sum(b) <= INT_MAX && m < |b| - 1
    ensures k * width > 0 && m / k < |b|
    ensures b[m / k] - k < k * Scaled(b, k * width, width)[m] < b[m / k] + k
  {
    Product(k, width);
    OnlyLastSpills(b, width, k);
    hide *;
    PartIs(ScaleState(b, |b|, k * width, width), b, k, m);
  }

  lemma PrefixNext(b: seq<int>, i: nat)
    requires NonNegative(b) && i < |b|
    ensures 0 <= Sum(b[..i + 1]) <= Sum(b) && Sum(b[..i + 1]) == Sum(b[..i]) + b[i]
    ensures i == 0 ==> Sum(b[..i]) == 0
    ensures i == |b| - 1 ==> b[..i + 1] == b
  {
    PrefixSums(b, i);
    PrefixSums(b, i + 1);
    assert b[..0] == [];
  }

  class Histogram {
    var buckets: seq<int>
    var forgetFactor: int
    const baseForgetFactor: int

    ghost predicate Valid()
      reads this
    {
      && Usable(buckets, forgetFactor)
      && 0 <= forgetFactor <= baseForgetFactor <= ONE_Q15
    }

    constructor (numBuckets: nat, forgetFactor: nat)
      requires numBuckets <= MAX_BUCKETS && forgetFactor <= ONE_Q15
      ensures Valid() && buckets == Zeros(numBuckets) && this.forgetFactor == 0 && baseForgetFactor == forgetFactor
    {
      buckets := Zeros(numBuckets);
      this.forgetFactor := 0;
      baseForgetFactor := forgetFactor;
      new;
      SumZeros(numBuckets);
    }

    method Decay() returns (vectorSum: int)
      requires Valid()
      modifies this`buckets
      ensures buckets == Decayed(old(buckets), forgetFactor) && vectorSum == Sum(buckets)
    {
      hide Valid, Usable, NonNegative;
      ghost var was, done := buckets, [];
      vectorSum := 0;
      for i := 0 to |buckets|
        modifies this`buckets
        invariant buckets == done + was[i..] && |done| == i
        invariant done == Decayed(was[..i], forgetFactor) && vectorSum == Sum(done)
      {
        hide Decayed, Sum;
        DecayedNext(was, i, forgetFactor);
        var bucket := buckets[i] * forgetFactor / ONE_Q15;
        Shift(done, was, i, bucket);
        SumSnoc(done, bucket);
        buckets := buckets[i := bucket];
        done := done + [bucket];
        vectorSum := vectorSum + bucket;
      }
      assert was[..|was|] == was;
    }

    method Correct(error: int)
      requires NonNegative(buckets) && error <= 0
      modifies this`buckets
      ensures buckets == Corrected(old(buckets), -error)
    {
      hide *;
      ghost var was, all := buckets, Corrected(buckets, -error);
      var vectorSum := error;
      CorrectingStart(was, -error);
      if vectorSum != 0 {
        var flipSign := if vectorSum > 0 then -1 else 1;
        var i: nat := 0;
        while i < |buckets|
          modifies this`buckets
          invariant vectorSum <= 0 && i <= |buckets| == |was| && Correcting(was, buckets, i, -vectorSum, all)
        {
          CorrectingNext(was, buckets, i, -vectorSum, all);
          var correction := flipSign * Min(if vectorSum < 0 then -vectorSum else vectorSum, buckets[i] / 16);
          assert correction == Min(-vectorSum, buckets[i] / 16);
          buckets := buckets[i := buckets[i] + correction];
          vectorSum := vectorSum + correction;
          i := i + 1;
          if vectorSum == 0 {
            break;
          }
        }
        CorrectingEnd(was, buckets, i, -vectorSum, all);
      } else {
        CorrectedByNothing(was, -error);
      }
    }

    /** Forgets a little of every bucket and adds what was forgotten to the observed one. */
    method Add(value: nat)
      requires Valid() && value < |buckets|
      modifies this
      ensures Valid() && Sum(buckets) == ONE_Q30
      ensures buckets == Added(old(buckets), old(forgetFactor), value)
      ensures forgetFactor == NextForgetFactor(old(forgetFactor), baseForgetFactor)
    {
      hide Added, Observed, Decayed, Corrected, Sum, NonNegative, NextForgetFactor, Usable;
      ForgetFactorRises(forgetFactor, baseForgetFactor);
      AddedIsUsable(buckets, forgetFactor, value, NextForgetFactor(forgetFactor, baseForgetFactor));
      ObservedUpdate(buckets, forgetFactor, value);
      ghost var o := Observed(buckets, forgetFactor, value);
      var vectorSum := Decay();
      buckets := buckets[value := buckets[value] + (ONE_Q15 - forgetFactor) * ONE_Q15];
      vectorSum := vectorSum + (ONE_Q15 - forgetFactor) * ONE_Q15;
      vectorSum := vectorSum - ONE_Q30;
      assert buckets == o && -vectorSum == ONE_Q30 - Sum(o);
      Correct(vectorSum);
      forgetFactor := NextForgetFactor(forgetFactor, baseForgetFactor);
    }

    /** The least bucket from 1 on whose prefix holds at least the probability. */
    method Quantile(probability: Int32) returns (index: nat)
      requires Valid() && |buckets| >= 2 && 0 <= probability <= ONE_Q30
      ensures 1 <= index < |buckets|
      ensures forall n: nat :: 2 <= n <= index ==> Sum(buckets[..n]) < probability
      ensures index == |buckets| - 1 || Sum(buckets[..index + 1]) >= probability
      ensures Sum(buckets) == ONE_Q30 ==> Sum(buckets[..index + 1]) >= probability
    {
      assert NonNegative(buckets) && Sum(buckets) <= ONE_Q30;
      hide *;
      var inverseProbability: Int32 := ONE_Q30 - probability;
      index := 0;
      var sum: Int32 := ONE_Q30;
      PrefixNext(buckets, 0);
      sum := sum - buckets[index];
      PrefixNext(buckets, 1);
      index := index + 1;
      sum := sum - buckets[index];
      while sum > inverseProbability && index < |buckets| - 1
        invariant 1 <= index < |buckets| && sum == ONE_Q30 - Sum(buckets[..index + 1])
        invariant forall n: nat :: 2 <= n <= index ==> Sum(buckets[..n]) < probability
      {
        PrefixNext(buckets, index + 1);
        index := index + 1;
        sum := sum - buckets[index];
      }
      PrefixNext(buckets, index);
    }

    /** The halving start distribution, to be forgotten quickly. */
    method Reset()
      requires Valid()
      modifies this
      ensures Valid() && buckets == Start(|old(buckets)|) && forgetFactor == 0
      ensures |buckets| >= 14 ==> Sum(buckets) == ONE_Q30
    {
      ghost var n := |buckets|;
      var tempProb := 0x4002;
      for i := 0 to |buckets|
        modifies this`buckets
        invariant |buckets| == n && tempProb == StartProbability(i) && buckets[..i] == Start(i)
      {
        tempProb := tempProb / 2;
        ghost var done := buckets[..i];
        buckets := buckets[i := tempProb * 0x1_0000];
        assert buckets[..i + 1] == done + [tempProb * 0x1_0000];
      }
      assert buckets[..n] == buckets;
      forgetFactor := 0;
      StartSum(n);
    }

    method Scale(oldBucketWidth: int, newBucketWidth: int)
      requires Valid() && oldBucketWidth > 0 && newBucketWidth > 0
      modifies this`buckets
      ensures Valid() && buckets == Scaled(old(buckets), oldBucketWidth, newBucketWidth)
      ensures Sum(buckets) == Sum(old(buckets))
    {
      SumNonNegative(buckets);
      hide Sum, Scaled;
      ScaledConserves(buckets, oldBucketWidth, newBucketWidth);
      buckets := ScaleBuckets(buckets, oldBucketWidth, newBucketWidth);
    }

    static method FillBuckets(newHistogram: seq<int>, acc: int, scaledAcc: int, timeCounter: int, idx: nat, width: int)
      returns (hist: seq<int>, used: int, time: int, next: nat)
      requires idx < |newHistogram| && width > 0 && timeCounter >= 0
      ensures Scaling(hist, acc - used, time, next)
              == Fill(Scaling(newHistogram, acc, timeCounter, idx), scaledAcc, width)
    {
      hist, used, time, next := newHistogram, 0, timeCounter, idx;
      while time >= width
        invariant next < |hist| && time >= 0
        invariant Fill(Scaling(hist, acc - used, time, next), scaledAcc, width)
               == Fill(Scaling(newHistogram, acc, timeCounter, idx), scaledAcc, width)
        decreases time
      {
        var oldHistogramVal := hist[next];
        hist := hist[next := Saturated(oldHistogramVal + scaledAcc)];
        used := used + (hist[next] - oldHistogramVal);
        next := Min(next + 1, |hist| - 1);
        time := time - width;
      }
    }

    /** Spreads the mass over buckets of another width. */
    static method ScaleBuckets(buckets: seq<int>, oldBucketWidth: int, newBucketWidth: int)
      returns (newHistogram: seq<int>)
      requires oldBucketWidth > 0 && newBucketWidth > 0 && Fits(buckets)
      ensures newHistogram == Scaled(buckets, oldBucketWidth, newBucketWidth)
      ensures Sum(newHistogram) <= Sum(buckets)
      ensures Sum(buckets) <= INT_MAX ==> Sum(newHistogram) == Sum(buckets)
    {
      hide *;
      var n := |buckets|;
      newHistogram := Zeros(n);
      var acc, timeCounter: int, newHistogramIdx: nat := 0, 0, 0;
      ScaledConserves(buckets, oldBucketWidth, newBucketWidth);
      ScaledIs(buckets, oldBucketWidth, newBucketWidth);
      for i := 0 to n
        invariant newHistogramIdx <= n && (n > 0 ==> newHistogramIdx < n)
        invariant |newHistogram| == n && timeCounter >= 0
        invariant n > 0 ==>
                    ScaleState(buckets[..i], n, oldBucketWidth, newBucketWidth)
                    == Scaling(newHistogram, acc, timeCounter, newHistogramIdx)
        invariant n == 0 ==> newHistogram == [] && acc == 0
      {
        ScaleStateNext(buckets, i, n, oldBucketWidth, newBucketWidth);
        newHistogram, acc, timeCounter, newHistogramIdx :=
          ScaleBucket(newHistogram, acc, timeCounter, newHistogramIdx, buckets[i], oldBucketWidth, newBucketWidth);
      }
      newHistogram := SpillLeftOver(newHistogram, acc, newHistogramIdx);
    }

    /** Takes one old bucket and writes the new ones that are complete with it. */
    static method ScaleBucket(newHistogram: seq<int>, mass: int, timeCounter: int, idx: nat, bucket: int,
                              oldBucketWidth: int, newBucketWidth: int)
      returns (hist: seq<int>, acc: int, time: int, next: nat)
      requires idx < |newHistogram| && oldBucketWidth > 0 && newBucketWidth > 0 && timeCounter >= 0
      ensures |hist| == |newHistogram| && next < |hist| && time >= 0
      ensures Scaling(hist, acc, time, next)
              == ScaleStep(Scaling(newHistogram, mass, timeCounter, idx), bucket, oldBucketWidth, newBucketWidth)
    {
      hide Fill, Share;
      acc, time := mass + bucket, timeCounter + oldBucketWidth;
      var scaledAcc := Share(acc, newBucketWidth, time);
      var actuallyUsedAcc;
      hist, actuallyUsedAcc, time, next := FillBuckets(newHistogram, acc, scaledAcc, time, idx, newBucketWidth);
      acc := acc - actuallyUsedAcc;
    }

    static method SpillLeftOver(newHistogram: seq<int>, leftOver: int, idx: nat) returns (hist: seq<int>)
      requires idx <= |newHistogram|
      ensures hist == Spill(newHistogram, leftOver, idx)
    {
      hist := newHistogram;
      var acc, next: nat := leftOver, idx;
      while acc > 0 && next < |hist|
        decreases |hist| - next
        invariant next <= |hist| == |newHistogram| && Spill(hist, acc, next) == Spill(newHistogram, leftOver, idx)
      {
        var oldHistogramVal := hist[next];
        hist := hist[next := Saturated(oldHistogramVal + acc)];
        acc := acc - (hist[next] - oldHistogramVal);
        next := next + 1;
      }
    }
  }
}

/** Runs of observations, rescalings and resets. */
module HistogramRuns {
  import opened Sums
  import opened Histogram

  datatype Call = Observe(value: nat) | Rescale(oldWidth: int, newWidth: int) | Restart

  datatype State = State(buckets: seq<int>, forget: int)

  /** What a caller may ask of n buckets. */
  predicate Allowed(c: Call, n: nat) {
    match c
    case Observe(value) => value < n
    case Rescale(oldWidth, newWidth) => oldWidth > 0 && newWidth > 0
    case Restart => true
  }

  ghost function Step(s: State, c: Call, base: int): (r: State)
    requires Usable(s.buckets, s.forget) && Allowed(c, |s.buckets|)
    ensures |r.buckets| == |s.buckets|
  {
    match c
    case Observe(value) => State(Added(s.buckets, s.forget, value), NextForgetFactor(s.forget, base))
    case Rescale(oldWidth, newWidth) => State(Scaled(s.buckets, oldWidth, newWidth), s.forget)
    case Restart => State(Start(|s.buckets|), 0)
  }

  lemma StepUsable(s: State, c: Call, base: int)
    requires Usable(s.buckets, s.forget) && s.forget <= base <= ONE_Q15 && Allowed(c, |s.buckets|)
    ensures Usable(Step(s, c, base).buckets, Step(s, c, base).forget) && Step(s, c, base).forget <= base
    ensures c.Observe? ==> Sum(Step(s, c, base).buckets) == ONE_Q30
    ensures c.Rescale? ==> Sum(Step(s, c, base).buckets) == Sum(s.buckets)
  {
    match c
    case Observe(value) =>
      ForgetFactorRises(s.forget, base);
      AddedIsUsable(s.buckets, s.forget, value, NextForgetFactor(s.forget, base));
    case Rescale(oldWidth, newWidth) =>
      SumNonNegative(s.buckets);
      ScaledConserves(s.buckets, oldWidth, newWidth);
    case Restart =>
      StartSum(|s.buckets|);
  }

  ghost predicate AllAllowed(calls: seq<Call>, n: nat) {
    forall i: nat :: i < |calls| ==> Allowed(calls[i], n)
  }

  /** The state that a run of calls leads to from a new histogram. */
  ghost predicate Reaches(n: nat, base: int, calls: seq<Call>, s: State) {
    if calls == [] then s == State(Zeros(n), 0)
    else
      exists t: State ::
        Reaches(n, base, calls[..|calls| - 1], t) && Usable(t.buckets, t.forget)
        && Allowed(calls[|calls| - 1], |t.buckets|) && s == Step(t, calls[|calls| - 1], base)
  }

  /** There has been an observation since the last restart. */
  predicate Settled(calls: seq<Call>) {
    calls != [] && (calls[|calls| - 1].Observe? || (calls[|calls| - 1].Rescale? && Settled(calls[..|calls| - 1])))
  }

  /** On every run, from the first observation until a restart the buckets sum to exactly one. */
  lemma {:induction false} RunSumsToOne(n: nat, base: int, calls: seq<Call>, s: State)
    requires n <= MAX_BUCKETS && 0 <= base <= ONE_Q15 && Reaches(n, base, calls, s)
    ensures |s.buckets| == n && Usable(s.buckets, s.forget) && s.forget <= base
    ensures Settled(calls) ==> Sum(s.buckets) == ONE_Q30
  {
    if calls == [] {
      SumZeros(n);
    } else {
      var k := |calls| - 1;
      var t: State :| Reaches(n, base, calls[..k], t) && Usable(t.buckets, t.forget)
                      && Allowed(calls[k], |t.buckets|) && s == Step(t, calls[k], base);
      RunSumsToOne(n, base, calls[..k], t);
      hide Step, Sum, Reaches;
      StepUsable(t, calls[k], base);
    }
  }

  /** Every run of calls that a caller may make leads somewhere. */
  lemma {:induction false} EveryRunReaches(n: nat, base: int, calls: seq<Call>) returns (s: State)
    requires n <= MAX_BUCKETS && 0 <= base <= ONE_Q15 && AllAllowed(calls, n)
    ensures Reaches(n, base, calls, s)
  {
    if calls == [] {
      s := State(Zeros(n), 0);
    } else {
      var k := |calls| - 1;
      var t := EveryRunReaches(n, base, calls[..k]);
      RunSumsToOne(n, base, calls[..k], t);
      s := Step(t, calls[k], base);
    }
  }
}
