/** Time compression by overlap-add of one or more pitch periods. */
module Accelerate {
  import opened Numbers
  import opened AudioVector
  import opened AudioMultiVector
  import opened Interleaving

  datatype ReturnCode = Success | SuccessLowEnergy | NoStretch | Error

  const CORRELATION_THRESHOLD: int := 14746
  const FAST_CORRELATION_THRESHOLD: int := 8192

  /** What a pitch period of peak samples removes when m samples, 15 ms, come before the overlap: in fast mode as many
      whole periods as fit. */
  function Removed(m: nat, peak: nat, fast: bool): nat
    requires fast ==> peak > 0
  {
    if fast then m / peak * peak else peak
  }

  /** In fast mode the removed length is the greatest multiple of the period that is not above m. */
  lemma RemovedInFastMode(m: nat, peak: nat)
    requires 0 < peak <= m
    ensures var k := m / peak;
            Removed(m, peak, true) == k * peak && 1 <= k && k * peak <= m < (k + 1) * peak
    ensures peak <= Removed(m, peak, true) <= m
    ensures Removed(m, peak, true) == peak <==> m < 2 * peak
  {
    var k := m / peak;
    assert m == k * peak + m % peak;
    Periods(k, peak);
  }

  lemma Periods(k: nat, peak: nat)
    ensures (k + 1) * peak == k * peak + peak
    ensures k == 0 ==> k * peak == 0
    ensures k == 1 ==> k * peak == peak
    ensures k >= 2 ==> k * peak >= 2 * peak
  {
    if k >= 2 {
      assert (k - 2) * peak >= 0;
    }
  }

  /** One channel after the removal of p samples at m. */
  function Compressed(x: seq<Sample>, m: nat, p: nat): (r: seq<Sample>)
    requires p <= m && m + p <= |x|
    ensures |r| == |x| - p
  {
    x[..m - p] + Faded(x[m - p..m], x[m..m + p]) + x[m + p..]
  }

  /** Where each sample of a compressed channel comes from: unchanged before the overlap, between the two overlapped
      samples inside it, and shifted by p after it. */
  lemma CompressedSamples(x: seq<Sample>, m: nat, p: nat, i: nat)
    requires p <= m && m + p <= |x| && i < |x| - p
    ensures var y := Compressed(x, m, p);
            && (i < m - p ==> y[i] == x[i])
            && (m - p <= i < m ==> x[i] <= y[i] <= x[i + p] || x[i + p] <= y[i] <= x[i])
            && (m - p <= i < m ==> FadeOf(y[i], x[i], x[i + p], i - (m - p), p))
            && (m <= i ==> y[i] == x[i + p])
  {
    if m - p <= i < m {
      var j := i - (m - p);
      FadedIsLinear(x[m - p..m], x[m..m + p], j);
      hide FadeOf;
      assert Compressed(x, m, p)[i] == Faded(x[m - p..m], x[m..m + p])[j] == FadedAt(x[m - p..m], x[m..m + p], j);
    }
  }

  /** Appending, cross-fading and appending again is compression of the whole channel. */
  lemma PiecesCompress(before: seq<Sample>, x: seq<Sample>, m: nat, p: nat)
    requires p <= m && m + p <= |x|
    ensures AudioMultiVector.FadedTogether(before + x[..m], x[m..m + p], p) + x[m + p..]
            == before + Compressed(x, m, p)
  {
    hide Faded;
    var s, t := before + x[..m], x[m..m + p];
    assert s[..|s| - p] == before + x[..m - p];
    assert s[|s| - p..] == x[m - p..m];
    assert t[..p] == t && t[p..] == [];
    assert CrossFaded(s, t, p) == before + x[..m - p] + Faded(x[m - p..m], t);
  }

  /** Input shorter than about 30 ms is not stretched: per channel, two times 15 ms less one sample at 8 kHz. */
  predicate LongEnough(input: seq<Sample>, numChannels: nat, fsMult: nat)
    requires numChannels > 0
  {
    RowsIn(|input|, numChannels) >= (2 * 120 - 1) * fsMult
  }

  /** The input holds everything that a stretch reads. */
  predicate LeavesRoom(input: seq<Sample>, numChannels: nat, fsMult: nat, peak: nat, fast: bool)
    requires fast ==> peak > 0
  {
    Rows(fsMult * 120 + Removed(fsMult * 120, peak, fast), numChannels) <= |input|
  }

  /** What a caller can check of a pitch period: the length that the stretch removes is at most 119 samples at 8 kHz. */
  predicate GuardIsEnough(fsMult: nat, peak: nat, fast: bool)
    requires fast ==> peak > 0
  {
    if fast then fsMult * 120 % peak >= fsMult else peak <= 119 * fsMult
  }

  lemma GuardBoundsRemoved(fsMult: nat, peak: nat, fast: bool)
    requires 0 < peak <= fsMult * 120
    ensures GuardIsEnough(fsMult, peak, fast) <==> Removed(fsMult * 120, peak, fast) <= 119 * fsMult
  {
    var m := fsMult * 120;
    assert m == m / peak * peak + m % peak;
  }

  lemma GuardLeavesRoom(input: seq<Sample>, numChannels: nat, fsMult: nat, peak: nat, fast: bool)
    requires numChannels > 0 && LongEnough(input, numChannels, fsMult)
    requires 0 < peak <= fsMult * 120 && GuardIsEnough(fsMult, peak, fast)
    ensures LeavesRoom(input, numChannels, fsMult, peak, fast)
  {
    var p, rows := Removed(fsMult * 120, peak, fast), RowsIn(|input|, numChannels);
    GuardBoundsRemoved(fsMult, peak, fast);
    RowsFit(|input|, numChannels);
    hide Removed, Rows, RowsIn;
    RowsMonotone(fsMult * 120 + p, rows, numChannels);
  }

  /** The shortest input that passes the guard has no room for a stretch that removes more. */
  lemma GuardFails(numChannels: nat, fsMult: nat, peak: nat, fast: bool) returns (input: seq<Sample>)
    requires numChannels > 0 && 0 < peak <= fsMult * 120 && !GuardIsEnough(fsMult, peak, fast)
    ensures LongEnough(input, numChannels, fsMult) && !LeavesRoom(input, numChannels, fsMult, peak, fast)
  {
    var p := Removed(fsMult * 120, peak, fast);
    input := Zeros(Rows(239 * fsMult, numChannels));
    GuardBoundsRemoved(fsMult, peak, fast);
    RowsInRows(239 * fsMult, numChannels);
    RowsMore(239 * fsMult, fsMult * 120 + p, numChannels);
  }

  /** The guard is enough for every input exactly for the periods that meet the condition. */
  lemma GuardExact(numChannels: nat, fsMult: nat, peak: nat, fast: bool)
    requires numChannels > 0 && 0 < peak <= fsMult * 120
    ensures GuardIsEnough(fsMult, peak, fast) <==>
            forall input: seq<Sample> ::
              LongEnough(input, numChannels, fsMult) ==> LeavesRoom(input, numChannels, fsMult, peak, fast)
  {
    if GuardIsEnough(fsMult, peak, fast) {
      forall input: seq<Sample> | LongEnough(input, numChannels, fsMult)
        ensures LeavesRoom(input, numChannels, fsMult, peak, fast)
      {
        GuardLeavesRoom(input, numChannels, fsMult, peak, fast);
      }
    } else {
      var input := GuardFails(numChannels, fsMult, peak, fast);
    }
  }

  /** Inputs that pass the guard in fast mode and are too short: a period that divides 15 ms, and one that does not. */
  lemma GuardTooWeak()
    ensures LongEnough(Zeros(239), 1, 1) && !LeavesRoom(Zeros(239), 1, 1, 60, true)
    ensures LongEnough(Zeros(956), 1, 4) && !LeavesRoom(Zeros(956), 1, 4, 159, true)
  {
  }

  class Accelerate {
    const fsMult: nat
    const numChannels: nat

    constructor (sampleRateHz: nat, numChannels: nat)
      requires sampleRateHz in {8000, 16000, 32000, 48000} && numChannels > 0
      ensures fsMult == sampleRateHz / 8000 && this.numChannels == numChannels
    {
      fsMult := sampleRateHz / 8000;
      this.numChannels := numChannels;
    }

    /** 15 ms. */
    function FsMult120(): nat {
      fsMult * 120
    }

    predicate Stretches(bestCorrelation: int, activeSpeech: bool, fast: bool) {
      bestCorrelation > (if fast then FAST_CORRELATION_THRESHOLD else CORRELATION_THRESHOLD) || !activeSpeech
    }

    /** Every channel is compressed when the correlation is strong or there is no speech, and copied otherwise. */
    method CheckCriteriaAndStretch(input: seq<Sample>, peakIndex: nat, bestCorrelation: int, activeSpeech: bool,
                                   fast: bool, output: AudioMultiVector) returns (code: ReturnCode)
      requires output.Valid() && |output.channels| == numChannels
      requires 0 < peakIndex <= fsMult * 120
      requires LeavesRoom(input, numChannels, fsMult, peakIndex, fast)
      modifies output.Footprint()
      ensures output.Valid() && fresh(output.Footprint() - old(output.Footprint()))
      ensures Stretches(bestCorrelation, activeSpeech, fast) ==>
                var m, p := fsMult * 120, Removed(fsMult * 120, peakIndex, fast);
                forall c :: 0 <= c < numChannels ==>
                  && p <= m && m + p <= |Channel(input, numChannels, c)|
                  && output.Samples(c) == old(output.Samples(c)) + Compressed(Channel(input, numChannels, c), m, p)
      ensures !Stretches(bestCorrelation, activeSpeech, fast) ==>
                forall c :: 0 <= c < numChannels ==>
                  output.Samples(c) == old(output.Samples(c)) + Channel(input, numChannels, c)
      ensures code == NoStretch <==> activeSpeech && bestCorrelation <= if fast then 8192 else 14746
      ensures code == if !Stretches(bestCorrelation, activeSpeech, fast) then NoStretch
                      else if activeSpeech then Success else SuccessLowEnergy
    {
      var correlationThreshold := if fast then FAST_CORRELATION_THRESHOLD else CORRELATION_THRESHOLD;
      if bestCorrelation > correlationThreshold || !activeSpeech {
        var m := FsMult120();
        RemovedInFastMode(m, peakIndex);
        var p := Removed(m, peakIndex, fast);
        Stretch(input, m, p, output);
        code := if activeSpeech then Success else SuccessLowEnergy;
      } else {
        output.PushBackInterleaved(input);
        code := NoStretch;
      }
    }

    /** The stretching of one call; the signal analysis is a parameter. The reported length change is the period, and
        for input that is too short it stays what the caller had there. */
    method Process(input: seq<Sample>, peakIndex: nat, bestCorrelation: int, activeSpeech: bool, fast: bool,
                   output: AudioMultiVector, lengthChangeSamples: nat) returns (code: ReturnCode, lengthChange: nat)
      requires output.Valid() && |output.channels| == numChannels
      requires 0 < peakIndex <= fsMult * 120
      requires GuardIsEnough(fsMult, peakIndex, fast)
            || (LongEnough(input, numChannels, fsMult) ==> LeavesRoom(input, numChannels, fsMult, peakIndex, fast))
      modifies output.Footprint()
      ensures output.Valid() && fresh(output.Footprint() - old(output.Footprint()))
      ensures code == Error <==> !LongEnough(input, numChannels, fsMult)
      ensures code in {Success, SuccessLowEnergy} ==>
                var m, p := fsMult * 120, Removed(fsMult * 120, peakIndex, fast);
                && lengthChange == peakIndex
                && forall c :: 0 <= c < numChannels ==>
                     && p <= m && m + p <= |Channel(input, numChannels, c)|
                     && output.Samples(c) == old(output.Samples(c)) + Compressed(Channel(input, numChannels, c), m, p)
      ensures code == NoStretch ==> activeSpeech && bestCorrelation <= (if fast then 8192 else 14746)
      ensures code == Success ==> activeSpeech && bestCorrelation > (if fast then 8192 else 14746)
      ensures code == SuccessLowEnergy ==> !activeSpeech
      ensures code in {Error, NoStretch} ==>
                && lengthChange == (if code == Error then lengthChangeSamples else 0)
                && forall c :: 0 <= c < numChannels ==>
                     output.Samples(c) == old(output.Samples(c)) + Channel(input, numChannels, c)
    {
      hide Rows, Channel, Compressed, GuardIsEnough, LeavesRoom, RowsIn;
      if RowsIn(|input|, numChannels) < (2 * 120 - 1) * fsMult {
        output.PushBackInterleaved(input);
        return Error, lengthChangeSamples;
      }
      if GuardIsEnough(fsMult, peakIndex, fast) {
        GuardLeavesRoom(input, numChannels, fsMult, peakIndex, fast);
      }
      code := CheckCriteriaAndStretch(input, peakIndex, bestCorrelation, activeSpeech, fast, output);
      lengthChange := if code == NoStretch then 0 else peakIndex;
    }

    method Stretch(input: seq<Sample>, m: nat, p: nat, output: AudioMultiVector)
      requires output.Valid() && |output.channels| == numChannels
      requires p <= m && Rows(m + p, numChannels) <= |input|
      modifies output.Footprint()
      ensures output.Valid() && fresh(output.Footprint() - old(output.Footprint()))
      ensures forall c :: 0 <= c < numChannels ==>
                && m + p <= |Channel(input, numChannels, c)|
                && output.Samples(c) == old(output.Samples(c)) + Compressed(Channel(input, numChannels, c), m, p)
    {
      var n := numChannels;
      var first, second := Rows(m, n), Rows(p, n);
      RowsAdd(m, p, n);
      forall c | 0 <= c < n
        ensures m + p <= |Channel(input, n, c)|
        ensures Channel(input[..first], n, c) == Channel(input, n, c)[..m]
        ensures Channel(input[first..first + second], n, c) == Channel(input, n, c)[m..m + p]
        ensures Channel(input[first + second..], n, c) == Channel(input, n, c)[m + p..]
      {
        ChannelPieces(input, n, c, m, p);
      }
      forall c | 0 <= c < n
        ensures m + p <= |Channel(input, n, c)|
        ensures AudioMultiVector.FadedTogether(output.Samples(c) + Channel(input[..first], n, c),
                                               Channel(input[first..first + second], n, c), p)
                + Channel(input[first + second..], n, c)
                == output.Samples(c) + Compressed(Channel(input, n, c), m, p)
      {
        PiecesCompress(output.Samples(c), Channel(input, n, c), m, p);
      }
      hide Rows, Channel, AudioMultiVector.FadedTogether, Compressed;
      Overlap(input[..first], input[first..first + second], p, output);
      output.PushBackInterleaved(input[first + second..]);
    }

    method Overlap(first: seq<Sample>, second: seq<Sample>, p: nat, output: AudioMultiVector)
      requires output.Valid() && |output.channels| == numChannels
      modifies output.Footprint()
      ensures output.Valid() && fresh(output.Footprint() - old(output.Footprint()))
      ensures forall c :: 0 <= c < numChannels ==>
                output.Samples(c) == AudioMultiVector.FadedTogether(
                  old(output.Samples(c)) + Channel(first, numChannels, c), Channel(second, numChannels, c), p)
    {
      hide Channel, AudioMultiVector.FadedTogether;
      output.PushBackInterleaved(first);
      var temp := NewVector(second);
      output.CrossFade(temp, p);
    }

    method NewVector(x: seq<Sample>) returns (v: AudioMultiVector)
      requires numChannels > 0
      ensures v.Valid() && fresh(v.Footprint()) && |v.channels| == numChannels
      ensures forall c :: 0 <= c < numChannels ==> v.Samples(c) == Channel(x, numChannels, c)
    {
      v := new AudioMultiVector(numChannels);
      v.PushBackInterleaved(x);
    }

    static lemma RowsAdd(a: nat, b: nat, n: nat)
      ensures Rows(a + b, n) == Rows(a, n) + Rows(b, n)
    {
    }

    static lemma ChannelPieces(x: seq<Sample>, n: nat, c: nat, m: nat, p: nat)
      requires c < n && Rows(m + p, n) <= |x| && Rows(m + p, n) == Rows(m, n) + Rows(p, n)
      ensures m + p <= |Channel(x, n, c)|
      ensures Channel(x[..Rows(m, n)], n, c) == Channel(x, n, c)[..m]
      ensures Channel(x[Rows(m, n)..Rows(m + p, n)], n, c) == Channel(x, n, c)[m..m + p]
      ensures Channel(x[Rows(m + p, n)..], n, c) == Channel(x, n, c)[m + p..]
    {
      hide Rows, Channel;
      var i, j := Rows(m, n), Rows(p, n);
      ChannelSplit(x, n, c, m + p);
      ChannelSplit(x, n, c, m);
      ChannelSplit(x[i..], n, c, p);
      assert x[i..][..j] == x[i..i + j];
      assert Channel(x, n, c)[m..][..p] == Channel(x, n, c)[m..m + p];
    }
  }
}
