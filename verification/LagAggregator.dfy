/** The reference for the lag aggregator: the window of the last accepted lags and what is reported from it. */
module LagWindow {
  import opened Numbers

  const WINDOW: nat := 250

  datatype Quality = Coarse | Refined

  datatype DelayEstimate = DelayEstimate(quality: Quality, delay: nat)

  datatype Thresholds = Thresholds(initial: int, converged: int)

  /** The lags accepted since the last reset, and whether a significant candidate was found since the last hard one. */
  datatype History = History(accepted: seq<nat>, significant: bool)

  function Padding(): (r: seq<nat>)
    ensures |r| == WINDOW
  {
    seq(WINDOW, _ => 0)
  }

  /** The last 250 accepted lags, with zeros for those that are still missing. */
  function Window(accepted: seq<nat>): (r: seq<nat>)
    ensures |r| == WINDOW
  {
    (Padding() + accepted)[|accepted|..]
  }

  function Count(s: seq<nat>, v: nat): nat {
    multiset(s)[v]
  }

  /** What the histogram shows for a lag: its count, without the initial zeros. */
  function Frequency(accepted: seq<nat>, v: nat): int {
    Count(Window(accepted), v) - if v == 0 then WINDOW else 0
  }

  /** The first of the most frequent lags below n. */
  function Candidate(accepted: seq<nat>, n: nat): (r: nat)
    requires n > 0
    ensures r < n
  {
    if n == 1 then 0
    else
      var c := Candidate(accepted, n - 1);
      if Frequency(accepted, n - 1) > Frequency(accepted, c) then n - 1 else c
  }

  lemma {:induction false} CandidateIsFirstMaximum(accepted: seq<nat>, n: nat)
    requires n > 0
    ensures forall v: nat :: v < n ==> Frequency(accepted, v) <= Frequency(accepted, Candidate(accepted, n))
    ensures forall v: nat :: v < Candidate(accepted, n) ==>
            Frequency(accepted, v) < Frequency(accepted, Candidate(accepted, n))
  {
    hide Frequency;
    if n > 1 {
      CandidateIsFirstMaximum(accepted, n - 1);
    }
  }

  lemma FirstMaximumIsUnique(accepted: seq<nat>, n: nat, c: nat)
    requires c < n
    requires forall v: nat :: v < n ==> Frequency(accepted, v) <= Frequency(accepted, c)
    requires forall v: nat :: v < c ==> Frequency(accepted, v) < Frequency(accepted, c)
    ensures c == Candidate(accepted, n)
  {
    CandidateIsFirstMaximum(accepted, n);
    hide Frequency;
    var d := Candidate(accepted, n);
    assert Frequency(accepted, c) <= Frequency(accepted, d) && Frequency(accepted, d) <= Frequency(accepted, c);
  }

  function Accept(h: History, lag: nat, size: nat, t: Thresholds): History
    requires size > 0
  {
    var accepted := h.accepted + [lag];
    History(accepted, h.significant || Frequency(accepted, Candidate(accepted, size)) > t.converged)
  }

  /** What is reported after a lag has been accepted. */
  function Report(h: History, size: nat, t: Thresholds): Option<DelayEstimate>
    requires size > 0
  {
    var c := Candidate(h.accepted, size);
    var f := Frequency(h.accepted, c);
    if f > t.converged || (f > t.initial && !h.significant)
    then Some(DelayEstimate(if h.significant then Refined else Coarse, c))
    else None
  }

  /** Without negative thresholds a reported delay is a non-zero lag that no other one beats in the window, seen more
      often than the threshold of its quality. */
  lemma ReportIsFrequent(h: History, lag: nat, size: nat, t: Thresholds)
    requires size > 0 && 0 <= t.initial <= t.converged
    requires Report(Accept(h, lag, size, t), size, t).Some?
    ensures var r := Report(Accept(h, lag, size, t), size, t).value;
            var w := Window(h.accepted + [lag]);
            && 0 < r.delay < size
            && (forall v: nat :: 0 < v < size ==> Count(w, v) <= Count(w, r.delay))
            && Count(w, r.delay) > (if r.quality == Refined then t.converged else t.initial)
            && (r.quality == Coarse ==> Count(w, r.delay) <= t.converged)
  {
    var accepted := h.accepted + [lag];
    CandidateIsFirstMaximum(accepted, size);
    var c := Candidate(accepted, size);
    CountBound(Window(accepted), 0);
    hide Window, Count;
    forall v: nat | 0 < v < size
      ensures Count(Window(accepted), v) <= Count(Window(accepted), c)
    {
      assert Frequency(accepted, v) <= Frequency(accepted, c);
    }
  }

  /** Some non-zero lag below size is more frequent than n in a window. */
  ghost predicate SomeAbove(w: seq<nat>, size: nat, n: int) {
    exists v: nat :: 0 < v < size && multiset(w)[v] > n
  }

  /** After a lag has been accepted a delay is reported exactly when a non-zero lag is in the last 250 more often than
      the converged threshold, or, as long as that has never happened, more often than the initial one. It is the first
      of the most frequent ones, and refined once a lag has been above the converged threshold. */
  lemma ReportsExactly(h: History, lag: nat, size: nat, t: Thresholds)
    requires size > 0 && 0 <= t.initial <= t.converged
    ensures var w := (seq(250, _ => 0) + (h.accepted + [lag]))[|h.accepted| + 1..];
            var next := Accept(h, lag, size, t);
            var r := Report(next, size, t);
            && next.accepted == h.accepted + [lag]
            && (next.significant <==> h.significant || SomeAbove(w, size, t.converged))
            && (r.Some? <==> SomeAbove(w, size, t.converged) || (!h.significant && SomeAbove(w, size, t.initial)))
            && (r.Some? ==>
                  && 0 < r.value.delay < size
                  && (forall v: nat :: 0 < v < size ==> multiset(w)[v] <= multiset(w)[r.value.delay])
                  && (forall v: nat :: 0 < v < r.value.delay ==> multiset(w)[v] < multiset(w)[r.value.delay])
                  && (r.value.quality == Refined <==> next.significant))
  {
    var accepted := h.accepted + [lag];
    var w := (seq(250, _ => 0) + accepted)[|h.accepted| + 1..];
    assert w == Window(accepted);
    CandidateIsFirstMaximum(accepted, size);
    CountBound(w, 0);
    FrequencyAbove(accepted, w, size, t.converged);
    FrequencyAbove(accepted, w, size, t.initial);
    var c := Candidate(accepted, size);
    hide Window, Candidate;
    forall v: nat | 0 < v < size
      ensures Frequency(accepted, v) == multiset(w)[v]
    {
    }
    assert c == 0 ==> Frequency(accepted, c) <= 0;
  }

  lemma FrequencyAbove(accepted: seq<nat>, w: seq<nat>, size: nat, n: int)
    requires size > 0 && w == Window(accepted) && 0 <= n
    ensures SomeAbove(w, size, n) <==> Frequency(accepted, Candidate(accepted, size)) > n
  {
    CandidateIsFirstMaximum(accepted, size);
    CountBound(w, 0);
    var c := Candidate(accepted, size);
    hide Window, Candidate;
    assert c == 0 ==> Frequency(accepted, c) <= 0;
    if v: nat :| 0 < v < size && multiset(w)[v] > n {
      assert Frequency(accepted, v) == multiset(w)[v];
    }
    if Frequency(accepted, c) > n {
      assert multiset(w)[c] > n;
    }
  }

  lemma {:induction false} CountBound(s: seq<nat>, v: nat)
    ensures Count(s, v) <= |s|
  {
    if s != [] {
      var k := |s| - 1;
      CountBound(s[..k], v);
      assert s == s[..k] + [s[k]];
    }
  }

  datatype Call = Aggregate(lag: Option<nat>) | Reset(hard: bool)

  /** One call; without an accepted lag nothing changes and nothing is reported. */
  function Step(h: History, c: Call, size: nat, t: Thresholds): (History, Option<DelayEstimate>)
    requires size > 0
  {
    match c
    case Aggregate(lag) =>
      if lag.None? then (h, None)
      else
        var next := Accept(h, lag.value, size, t);
        (next, Report(next, size, t))
    case Reset(hard) => (History([], h.significant && !hard), None)
  }

  function Run(h: History, calls: seq<Call>, size: nat, t: Thresholds): History
    requires size > 0
  {
    if calls == [] then h else Step(Run(h, calls[..|calls| - 1], size, t), calls[|calls| - 1], size, t).0
  }

  /** What the i-th call of a run reports. */
  function ReportAt(h: History, calls: seq<Call>, i: nat, size: nat, t: Thresholds): Option<DelayEstimate>
    requires size > 0 && i < |calls|
  {
    Step(Run(h, calls[..i], size, t), calls[i], size, t).1
  }

  lemma {:induction false} SignificantStays(h: History, calls: seq<Call>, i: nat, j: nat, size: nat, t: Thresholds)
    requires size > 0 && i <= j <= |calls|
    requires Run(h, calls[..i], size, t).significant
    requires forall k: nat :: i <= k < j ==> calls[k] != Reset(true)
    ensures Run(h, calls[..j], size, t).significant
    decreases j
  {
    if i < j {
      SignificantStays(h, calls, i, j - 1, size, t);
      assert calls[..j][..j - 1] == calls[..j - 1];
      hide Frequency, Candidate;
    }
  }

  /** After a refined report all later ones are refined, until a hard reset. */
  lemma RefinedStays(h: History, calls: seq<Call>, i: nat, j: nat, size: nat, t: Thresholds)
    requires size > 0 && i < j < |calls|
    requires forall k: nat :: i < k < j ==> calls[k] != Reset(true)
    requires ReportAt(h, calls, i, size, t).Some? && ReportAt(h, calls, i, size, t).value.quality == Refined
    requires ReportAt(h, calls, j, size, t).Some?
    ensures ReportAt(h, calls, j, size, t).value.quality == Refined
  {
    assert calls[..i + 1][..i] == calls[..i];
    hide Frequency, Candidate;
    assert Run(h, calls[..i + 1], size, t).significant;
    SignificantStays(h, calls, i + 1, j, size, t);
  }
}

/** The aggregator itself: a histogram kept up to date as lags enter and leave a ring. */
module MatchedFilterLagAggregator {
  import opened Numbers
  import opened LagWindow
  import opened Sums

  datatype LagEstimate = LagEstimate(accuracy: real, reliable: bool, lag: nat, updated: bool)

  predicate Usable(e: LagEstimate) {
    e.updated && e.reliable && e.accuracy > 0.0
  }

  /** The first of the most accurate usable estimates. */
  ghost predicate IsBest(estimates: seq<LagEstimate>, best: int) {
    && -1 <= best < |estimates|
    && (best == -1 ==> forall k: nat :: k < |estimates| ==> !Usable(estimates[k]))
    && (best >= 0 ==>
          && Usable(estimates[best])
          && (forall k: nat :: k < |estimates| && Usable(estimates[k]) ==>
              estimates[k].accuracy <= estimates[best].accuracy)
          && (forall k: nat :: k < best && Usable(estimates[k]) ==> estimates[k].accuracy < estimates[best].accuracy))
  }

  method BestEstimate(lagEstimates: seq<LagEstimate>) returns (bestLagEstimateIndex: int)
    ensures IsBest(lagEstimates, bestLagEstimateIndex)
    ensures bestLagEstimateIndex == -1 <==>
            forall k: nat :: k < |lagEstimates| ==>
              !(lagEstimates[k].updated && lagEstimates[k].reliable && lagEstimates[k].accuracy > 0.0)
    ensures bestLagEstimateIndex >= 0 ==>
              var e := lagEstimates[bestLagEstimateIndex];
              && e.updated && e.reliable && e.accuracy > 0.0
              && forall k: nat :: k < |lagEstimates| && lagEstimates[k].updated && lagEstimates[k].reliable ==>
                   && lagEstimates[k].accuracy <= e.accuracy
                   && (k < bestLagEstimateIndex ==> lagEstimates[k].accuracy < e.accuracy)
  {
    var bestAccuracy := 0.0;
    bestLagEstimateIndex := -1;
    for k := 0 to |lagEstimates|
      invariant IsBest(lagEstimates[..k], bestLagEstimateIndex)
      invariant bestAccuracy == if bestLagEstimateIndex >= 0 then lagEstimates[bestLagEstimateIndex].accuracy else 0.0
    {
      if lagEstimates[k].updated && lagEstimates[k].reliable {
        if lagEstimates[k].accuracy > bestAccuracy {
          bestAccuracy := lagEstimates[k].accuracy;
          bestLagEstimateIndex := k;
        }
      }
      assert lagEstimates[..k + 1] == lagEstimates[..k] + [lagEstimates[k]];
    }
    assert lagEstimates[..|lagEstimates|] == lagEstimates;
  }

  method MaxElement(s: seq<int>) returns (candidate: nat)
    requires s != []
    ensures candidate < |s|
    ensures forall v: nat :: v < |s| ==> s[v] <= s[candidate]
    ensures forall v: nat :: v < candidate ==> s[v] < s[candidate]
  {
    candidate := 0;
    for k := 1 to |s|
      invariant candidate < k
      invariant forall v: nat :: v < k ==> s[v] <= s[candidate]
      invariant forall v: nat :: v < candidate ==> s[v] < s[candidate]
    {
      if s[candidate] < s[k] {
        candidate := k;
      }
    }
  }

  /** The ring holds the window, oldest at the index, and the histogram its counts without the initial zeros. */
  ghost predicate Represents(histogram: seq<int>, data: seq<nat>, index: nat, accepted: seq<nat>) {
    && |histogram| > 0 && |data| == WINDOW && index < WINDOW
    && data[index..] + data[..index] == Window(accepted)
    && (forall i: nat :: i < WINDOW ==> data[i] < |histogram|)
    && Counts(histogram, data)
    && Sum(histogram) == 0
  }

  ghost predicate Counts(histogram: seq<int>, data: seq<nat>) {
    forall v: nat :: v < |histogram| ==> histogram[v] == Count(data, v) - if v == 0 then WINDOW else 0
  }

  function Changed(histogram: seq<int>, v: nat, amount: int): (r: seq<int>)
    requires v < |histogram|
    ensures |r| == |histogram|
  {
    histogram[v := histogram[v] + amount]
  }

  /** The histogram with one lag less and another one more. */
  function Moved(histogram: seq<int>, out: nat, lag: nat): (r: seq<int>)
    requires out < |histogram| && lag < |histogram|
    ensures |r| == |histogram|
  {
    Changed(Changed(histogram, out, -1), lag, 1)
  }

  lemma ChangedSum(histogram: seq<int>, v: nat, amount: int)
    requires v < |histogram|
    ensures Sum(Changed(histogram, v, amount)) == Sum(histogram) + amount
  {
    hide Sum;
    SumUpdate(histogram, v, histogram[v] + amount);
  }

  lemma MovedSum(histogram: seq<int>, out: nat, lag: nat)
    requires out < |histogram| && lag < |histogram|
    ensures Sum(Moved(histogram, out, lag)) == Sum(histogram)
  {
    hide Sum, Changed;
    ChangedSum(histogram, out, -1);
    ChangedSum(Changed(histogram, out, -1), lag, 1);
  }

  lemma MovedCounts(histogram: seq<int>, data: seq<nat>, index: nat, lag: nat)
    requires index < |data| && data[index] < |histogram| && lag < |histogram| && Counts(histogram, data)
    ensures Counts(Moved(histogram, data[index], lag), data[index := lag])
  {
    forall v: nat | v < |histogram|
      ensures Moved(histogram, data[index], lag)[v] == Count(data[index := lag], v) - if v == 0 then WINDOW else 0
    {
      CountReplaced(data, index, lag, v);
      hide Count;
    }
  }

  lemma Rotated(data: seq<nat>, index: nat, v: nat)
    requires index <= |data|
    ensures Count(data[index..] + data[..index], v) == Count(data, v)
  {
    assert data == data[..index] + data[index..];
  }

  /** Every entry is the count of its lag in the window, less the initial zeros, and they add up to zero. */
  lemma RepresentsFrequencies(histogram: seq<int>, data: seq<nat>, index: nat, accepted: seq<nat>)
    requires Represents(histogram, data, index, accepted)
    ensures forall v: nat :: v < |histogram| ==> histogram[v] == Frequency(accepted, v)
    ensures Sum(histogram) == 0
  {
    hide Window, Count, Sum;
    forall v: nat | v < |histogram|
      ensures histogram[v] == Frequency(accepted, v)
    {
      Rotated(data, index, v);
    }
  }

  lemma NothingRepresented(n: nat)
    requires n > 0
    ensures Represents(Zeros(n), Padding(), 0, [])
  {
    SumZeros(n);
    hide Sum;
    assert Window([]) == Padding();
    assert Padding()[0..] + Padding()[..0] == Padding();
    forall v: nat | v < n
      ensures Count(Padding(), v) == if v == 0 then WINDOW else 0
    {
      CountPadding(Padding(), v);
    }
  }

  lemma {:induction false} CountPadding(s: seq<nat>, v: nat)
    requires forall i: nat :: i < |s| ==> s[i] == 0
    ensures Count(s, v) == if v == 0 then |s| else 0
  {
    if s != [] {
      var k := |s| - 1;
      CountPadding(s[..k], v);
      assert s == s[..k] + [s[k]];
    }
  }

  /** The window moves by one as a lag takes the place of the oldest. */
  lemma RingMoves(data: seq<nat>, index: nat, accepted: seq<nat>, lag: nat)
    requires |data| == WINDOW && index < WINDOW && data[index..] + data[..index] == Window(accepted)
    ensures var d, i := data[index := lag], if index + 1 < WINDOW then index + 1 else 0;
            d[i..] + d[..i] == Window(accepted + [lag])
  {
    var d, i := data[index := lag], if index + 1 < WINDOW then index + 1 else 0;
    assert Window(accepted + [lag]) == Window(accepted)[1..] + [lag] by {
      assert Padding() + (accepted + [lag]) == (Padding() + accepted) + [lag];
    }
    hide Window;
    if index + 1 < WINDOW {
      assert d[i..] + d[..i] == (data[index..] + data[..index])[1..] + [lag];
    } else {
      assert d[i..] + d[..i] == (data[index..] + data[..index])[1..] + [lag];
    }
  }

  lemma CountReplaced(data: seq<nat>, index: nat, lag: nat, v: nat)
    requires index < |data|
    ensures Count(data[index := lag], v) == Count(data, v) - (if data[index] == v then 1 else 0)
                                           + if lag == v then 1 else 0
  {
  }

  /** Taking the oldest lag out of the histogram and the new one in keeps it in step with the window. */
  lemma Exchanged(histogram: seq<int>, data: seq<nat>, index: nat, accepted: seq<nat>, lag: nat)
    requires Represents(histogram, data, index, accepted) && lag < |histogram|
    ensures Represents(Moved(histogram, data[index], lag), data[index := lag], (index + 1) % WINDOW, accepted + [lag])
  {
    hide Window, Counts, Sum, Moved;
    RingMoves(data, index, accepted, lag);
    MovedSum(histogram, data[index], lag);
    MovedCounts(histogram, data, index, lag);
  }

  class MatchedFilterLagAggregator {
    const thresholds: Thresholds
    var histogram: seq<int>
    var histogramData: seq<nat>
    var histogramDataIndex: nat
    var significantCandidateFound: bool
    ghost var accepted: seq<nat>

    ghost predicate Valid()
      reads this
    {
      Represents(histogram, histogramData, histogramDataIndex, accepted)
    }

    ghost function State(): History
      reads this
    {
      History(accepted, significantCandidateFound)
    }

    constructor (maxFilterLag: nat, thresholds: Thresholds)
      requires thresholds.initial <= thresholds.converged
      ensures Valid() && |histogram| == maxFilterLag + 1 && State() == History([], false)
      ensures this.thresholds == thresholds
    {
      this.thresholds := thresholds;
      histogram := Zeros(maxFilterLag + 1);
      histogramData := Padding();
      histogramDataIndex := 0;
      significantCandidateFound := false;
      accepted := [];
      new;
      NothingRepresented(maxFilterLag + 1);
    }

    method Reset(hardReset: bool)
      requires Valid()
      modifies this
      ensures Valid() && |histogram| == |old(histogram)|
      ensures State() == Step(old(State()), Call.Reset(hardReset), |histogram|, thresholds).0
      ensures accepted == []
      ensures significantCandidateFound <==> old(significantCandidateFound) && !hardReset
    {
      NothingRepresented(|histogram|);
      hide Represents;
      histogram := Zeros(|histogram|);
      histogramData := Padding();
      histogramDataIndex := 0;
      accepted := [];
      if hardReset {
        significantCandidateFound := false;
      }
    }

    /** Replaces the oldest lag in the ring and the histogram. */
    method Exchange(lag: nat)
      requires Valid() && lag < |histogram|
      modifies this`histogram, this`histogramData, this`histogramDataIndex, this`accepted
      ensures Valid() && |histogram| == |old(histogram)| && accepted == old(accepted) + [lag]
    {
      Exchanged(histogram, histogramData, histogramDataIndex, accepted, lag);
      assert |histogramData| == WINDOW && histogramDataIndex < WINDOW
             && histogramData[histogramDataIndex] < |histogram|;
      hide Represents;
      ghost var moved := Moved(histogram, histogramData[histogramDataIndex], lag);
      histogram := histogram[histogramData[histogramDataIndex] := histogram[histogramData[histogramDataIndex]] - 1];
      histogramData := histogramData[histogramDataIndex := lag];
      histogram := histogram[histogramData[histogramDataIndex] := histogram[histogramData[histogramDataIndex]] + 1];
      assert histogram == moved;
      hide Moved;
      histogramDataIndex := (histogramDataIndex + 1) % WINDOW;
      accepted := accepted + [lag];
    }

    /** Takes in the best lag, if there is one, and reports what the window now says. */
    method Aggregate(lagEstimates: seq<LagEstimate>) returns (estimate: Option<DelayEstimate>, ghost best: int)
      requires Valid() && forall k: nat :: k < |lagEstimates| ==> lagEstimates[k].lag < |histogram|
      modifies this
      ensures Valid() && |histogram| == |old(histogram)| && IsBest(lagEstimates, best)
      ensures (State(), estimate)
           == Step(old(State()), Call.Aggregate(if best < 0 then None else Some(lagEstimates[best].lag)), |histogram|,
                   thresholds)
    {
      var bestLagEstimateIndex := BestEstimate(lagEstimates);
      best := bestLagEstimateIndex;
      estimate := None;
      if bestLagEstimateIndex != -1 {
        Exchange(lagEstimates[bestLagEstimateIndex].lag);
        var candidate := MaxElement(histogram);
        RepresentsFrequencies(histogram, histogramData, histogramDataIndex, accepted);
        assert histogram != [];
        hide Represents, Frequency;
        FirstMaximumIsUnique(accepted, |histogram|, candidate);
        hide Candidate;
        significantCandidateFound := significantCandidateFound || histogram[candidate] > thresholds.converged;
        if histogram[candidate] > thresholds.converged
           || (histogram[candidate] > thresholds.initial && !significantCandidateFound) {
          var quality := if significantCandidateFound then Refined else Coarse;
          estimate := Some(DelayEstimate(quality, candidate));
        }
      }
    }
  }
}
