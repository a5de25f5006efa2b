/** The frequency-domain filter over exact reals: what adapting and filtering compute. */
module FirSpec {
  import opened PowerSpectra
  import opened Circular
  import opened Products

  datatype Spectrum = Spectrum(re: seq<real>, im: seq<real>)

  type FftData = s: Spectrum | |s.re| == BINS && |s.im| == BINS
    witness Spectrum(seq(BINS, _ => 0.0), seq(BINS, _ => 0.0))

  function Zero(): FftData {
    Spectrum(seq(BINS, _ => 0.0), seq(BINS, _ => 0.0))
  }

  /** One bin of h + g * conj(x). */
  function AdaptedRe(h: FftData, x: FftData, g: FftData, k: nat): real
    requires k < BINS
  {
    h.re[k] + (Times(x.re[k], g.re[k]) + Times(x.im[k], g.im[k]))
  }

  function AdaptedIm(h: FftData, x: FftData, g: FftData, k: nat): real
    requires k < BINS
  {
    h.im[k] + (Times(x.re[k], g.im[k]) - Times(x.im[k], g.re[k]))
  }

  /** A partition whose first n bins are adapted. */
  function Adapted(h: FftData, x: FftData, g: FftData, n: nat): (r: FftData)
    requires n <= BINS
  {
    Spectrum(seq(BINS, k requires 0 <= k < BINS => if k < n then AdaptedRe(h, x, g, k) else h.re[k]),
             seq(BINS, k requires 0 <= k < BINS => if k < n then AdaptedIm(h, x, g, k) else h.im[k]))
  }

  function SetBin(h: FftData, k: nat, re: real, im: real): (r: FftData)
    requires k < BINS
  {
    Spectrum(h.re[k := re], h.im[k := im])
  }

  lemma AdaptedNext(h: FftData, x: FftData, g: FftData, n: nat)
    requires n < BINS
    ensures Adapted(h, x, g, n).re[n] == h.re[n] && Adapted(h, x, g, n).im[n] == h.im[n]
    ensures SetBin(Adapted(h, x, g, n), n, AdaptedRe(h, x, g, n), AdaptedIm(h, x, g, n)) == Adapted(h, x, g, n + 1)
  {
    hide AdaptedRe, AdaptedIm;
  }

  /** The bins that have not had their turn adapt as they would at first. */
  lemma AdaptedLater(h: FftData, x: FftData, g: FftData, n: nat, i: nat)
    requires n <= i < BINS
    ensures AdaptedRe(Adapted(h, x, g, n), x, g, i) == AdaptedRe(h, x, g, i)
    ensures AdaptedIm(Adapted(h, x, g, n), x, g, i) == AdaptedIm(h, x, g, i)
  {
    hide Times;
  }

  lemma AdaptedNone(h: FftData, x: FftData, g: FftData)
    ensures Adapted(h, x, g, 0) == h
  {
    assert Adapted(h, x, g, 0).re == h.re && Adapted(h, x, g, 0).im == h.im;
  }

  /** Partition j is paired with the buffer entry j steps after the position. */
  function Paired(x: seq<FftData>, position: nat, j: nat): FftData
    requires position < |x|
  {
    x[Advance(position, |x|, j)]
  }

  /** Partitions before j have `ahead` bins adapted and the others n. */
  ghost predicate AdaptedTo(h: seq<FftData>, was: seq<FftData>, x: seq<FftData>, position: nat, g: FftData, n: nat,
                            ahead: nat, j: nat)
    requires position < |x| && n <= ahead <= BINS
  {
    && |h| == |was|
    && (forall i: nat :: i < j && i < |was| ==> h[i] == Adapted(was[i], Paired(x, position, i), g, ahead))
    && (forall i: nat :: j <= i < |was| ==> h[i] == Adapted(was[i], Paired(x, position, i), g, n))
  }

  lemma AdaptedToNext(h: seq<FftData>, was: seq<FftData>, x: seq<FftData>, position: nat, g: FftData, n: nat,
                      ahead: nat, j: nat)
    requires position < |x| && n <= ahead <= BINS && j < |h| && AdaptedTo(h, was, x, position, g, n, ahead, j)
    ensures |h| == |was| && h[j] == Adapted(was[j], Paired(x, position, j), g, n)
    ensures AdaptedTo(h[j := Adapted(was[j], Paired(x, position, j), g, ahead)], was, x, position, g, n, ahead, j + 1)
  {
    hide Adapted, Paired;
  }

  lemma AdaptedToEnd(h: seq<FftData>, was: seq<FftData>, x: seq<FftData>, position: nat, g: FftData, n: nat,
                     ahead: nat, ahead': nat)
    requires position < |x| && n <= ahead <= ahead' <= BINS && AdaptedTo(h, was, x, position, g, n, ahead, |was|)
    ensures AdaptedTo(h, was, x, position, g, ahead, ahead', 0)
  {
    hide Adapted, Paired;
  }

  /** Every partition moved by G times the conjugate of its buffer entry. */
  function AdaptedAll(h: seq<FftData>, x: seq<FftData>, position: nat, g: FftData): (r: seq<FftData>)
    requires position < |x|
    ensures |r| == |h|
  {
    seq(|h|, j requires 0 <= j < |h| => Adapted(h[j], Paired(x, position, j), g, BINS))
  }

  /** In every bin, partition j moves by G times the conjugate of the entry j steps after the position. */
  lemma AdaptedBins(h: seq<FftData>, x: seq<FftData>, position: nat, g: FftData, j: nat, k: nat)
    requires position < |x| && j < |h| && k < BINS
    ensures var r, v := AdaptedAll(h, x, position, g)[j], x[(position + j) % |x|];
            && r.re[k] == h[j].re[k] + v.re[k] * g.re[k] + v.im[k] * g.im[k]
            && r.im[k] == h[j].im[k] + v.re[k] * g.im[k] - v.im[k] * g.re[k]
  {
    AdvanceIsRemainder(position, |x|, j);
    hide Advance;
  }

  /** One bin of the sum over the first n partitions of buffer entry times filter partition. */
  function ResponseRe(h: seq<FftData>, x: seq<FftData>, position: nat, n: nat, k: nat): real
    requires position < |x| && n <= |h| && k < BINS
  {
    if n == 0 then 0.0
    else
      var v, w := Paired(x, position, n - 1), h[n - 1];
      ResponseRe(h, x, position, n - 1, k) + (Times(v.re[k], w.re[k]) - Times(v.im[k], w.im[k]))
  }

  function ResponseIm(h: seq<FftData>, x: seq<FftData>, position: nat, n: nat, k: nat): real
    requires position < |x| && n <= |h| && k < BINS
  {
    if n == 0 then 0.0
    else
      var v, w := Paired(x, position, n - 1), h[n - 1];
      ResponseIm(h, x, position, n - 1, k) + (Times(v.re[k], w.im[k]) + Times(v.im[k], w.re[k]))
  }

  /** The output of the filter. */
  function Response(h: seq<FftData>, x: seq<FftData>, position: nat): FftData
    requires position < |x|
  {
    Spectrum(seq(BINS, k requires 0 <= k < BINS => ResponseRe(h, x, position, |h|, k)),
             seq(BINS, k requires 0 <= k < BINS => ResponseIm(h, x, position, |h|, k)))
  }

  /** A partition with one bin changed. */
  function ChangedBin(h: seq<FftData>, j: nat, k: nat, re: real, im: real): (r: seq<FftData>)
    requires j < |h| && k < BINS
    ensures |r| == |h|
  {
    h[j := SetBin(h[j], k, h[j].re[k] + re, h[j].im[k] + im)]
  }

  /** Changing one bin of partition j by a complex number changes that bin of the output by its product with the entry j
      steps after the position; with the zero filter, this determines every output. */
  lemma ResponseChanges(h: seq<FftData>, x: seq<FftData>, position: nat, n: nat, j: nat, k: nat, re: real, im: real)
    requires position < |x| && n <= |h| && j < |h| && k < BINS
    ensures var h', v := ChangedBin(h, j, k, re, im), x[(position + j) % |x|];
            && ResponseRe(h', x, position, n, k) == ResponseRe(h, x, position, n, k)
                 + (if j < n then v.re[k] * re - v.im[k] * im else 0.0)
            && ResponseIm(h', x, position, n, k) == ResponseIm(h, x, position, n, k)
                 + (if j < n then v.re[k] * im + v.im[k] * re else 0.0)
  {
    AdvanceIsRemainder(position, |x|, j);
    ChangeAddsProduct(h, x, position, n, j, k, re, im);
    hide ResponseRe, ResponseIm, Advance;
  }

  lemma {:induction false} ChangeAddsProduct(h: seq<FftData>, x: seq<FftData>, position: nat, n: nat, j: nat, k: nat,
                                             re: real, im: real)
    requires position < |x| && n <= |h| && j < |h| && k < BINS
    ensures var h', v := ChangedBin(h, j, k, re, im), Paired(x, position, j);
            && ResponseRe(h', x, position, n, k) == ResponseRe(h, x, position, n, k)
                 + (if j < n then Times(v.re[k], re) - Times(v.im[k], im) else 0.0)
            && ResponseIm(h', x, position, n, k) == ResponseIm(h, x, position, n, k)
                 + (if j < n then Times(v.re[k], im) + Times(v.im[k], re) else 0.0)
  {
    if n > 0 {
      hide *;
      ChangeAddsProduct(h, x, position, n - 1, j, k, re, im);
      ChangedBinIs(h, j, k, re, im, n - 1);
      ResponseNext(h, x, position, n - 1, k);
      ResponseNext(ChangedBin(h, j, k, re, im), x, position, n - 1, k);
      if j == n - 1 {
        var v, w := Paired(x, position, j), h[j];
        SumTimes(v.re[k], w.re[k], re);
        SumTimes(v.im[k], w.im[k], im);
        SumTimes(v.re[k], w.im[k], im);
        SumTimes(v.im[k], w.re[k], re);
      }
    }
  }

  lemma ChangedBinIs(h: seq<FftData>, j: nat, k: nat, re: real, im: real, i: nat)
    requires j < |h| && i < |h| && k < BINS
    ensures var h' := ChangedBin(h, j, k, re, im);
            if i == j then h'[i].re[k] == h[i].re[k] + re && h'[i].im[k] == h[i].im[k] + im else h'[i] == h[i]
  {
  }

  lemma ResponseNext(h: seq<FftData>, x: seq<FftData>, position: nat, n: nat, k: nat)
    requires position < |x| && n < |h| && k < BINS
    ensures var v, w := Paired(x, position, n), h[n];
            && ResponseRe(h, x, position, n + 1, k)
               == ResponseRe(h, x, position, n, k) + (Times(v.re[k], w.re[k]) - Times(v.im[k], w.im[k]))
            && ResponseIm(h, x, position, n + 1, k)
               == ResponseIm(h, x, position, n, k) + (Times(v.re[k], w.im[k]) + Times(v.im[k], w.re[k]))
  {
    hide Times, Paired;
  }

  lemma SumTimes(a: real, b: real, c: real)
    ensures Times(a, b + c) == Times(a, b) + Times(a, c)
  {
  }

  lemma {:induction false} ResponseOfZero(h: seq<FftData>, x: seq<FftData>, position: nat, n: nat, k: nat)
    requires position < |x| && n <= |h| && k < BINS
    requires forall j: nat :: j < n ==> h[j].re[k] == 0.0 && h[j].im[k] == 0.0
    ensures ResponseRe(h, x, position, n, k) == 0.0 && ResponseIm(h, x, position, n, k) == 0.0
  {
    if n > 0 {
      ResponseOfZero(h, x, position, n - 1, k);
    }
  }

  /** Each entry that the filter covers adds its squared magnitude. */
  lemma PowerInGrows(x: seq<FftData>, position: nat, n: nat, k: nat)
    requires position < |x| && k < BINS
    ensures var v := x[(position + n) % |x|];
            PowerIn(x, position, n + 1, k) == PowerIn(x, position, n, k) + v.re[k] * v.re[k] + v.im[k] * v.im[k]
    ensures PowerIn(x, position, 0, k) == 0.0
  {
    AdvanceIsRemainder(position, |x|, n);
  }

  /** The power of the buffer entries that the filter covers, in one bin. */
  function PowerIn(x: seq<FftData>, position: nat, n: nat, k: nat): real
    requires position < |x| && k < BINS
  {
    if n == 0 then 0.0
    else
      var v := Paired(x, position, n - 1);
      PowerIn(x, position, n - 1, k) + (Times(v.re[k], v.re[k]) + Times(v.im[k], v.im[k]))
  }

  /** Adapting moves the output by G times the power of the covered render signal, bin by bin. */
  lemma {:induction false} AdaptedResponse(h: seq<FftData>, x: seq<FftData>, position: nat, g: FftData, n: nat, k: nat)
    requires position < |x| && n <= |h| && k < BINS
    ensures ResponseRe(AdaptedAll(h, x, position, g), x, position, n, k)
         == ResponseRe(h, x, position, n, k) + Times(g.re[k], PowerIn(x, position, n, k))
    ensures ResponseIm(AdaptedAll(h, x, position, g), x, position, n, k)
         == ResponseIm(h, x, position, n, k) + Times(g.im[k], PowerIn(x, position, n, k))
  {
    if n == 0 {
      assert Times(g.re[k], 0.0) == 0.0 && Times(g.im[k], 0.0) == 0.0;
    } else {
      AdaptedResponse(h, x, position, g, n - 1, k);
      var v, w := Paired(x, position, n - 1), h[n - 1];
      AdaptedTerms(v.re[k], v.im[k], w.re[k], w.im[k], g.re[k], g.im[k], PowerIn(x, position, n - 1, k));
      hide Times, Paired;
      var a := AdaptedAll(h, x, position, g)[n - 1];
      assert a.re[k] == AdaptedRe(w, v, g, k) && a.im[k] == AdaptedIm(w, v, g, k);
    }
  }

  lemma AdaptedTerms(xr: real, xi: real, hr: real, hi: real, gr: real, gi: real, p: real)
    ensures Times(xr, hr + (Times(xr, gr) + Times(xi, gi))) - Times(xi, hi + (Times(xr, gi) - Times(xi, gr)))
            + Times(gr, p)
         == Times(xr, hr) - Times(xi, hi) + Times(gr, p + (Times(xr, xr) + Times(xi, xi)))
    ensures Times(xr, hi + (Times(xr, gi) - Times(xi, gr))) + Times(xi, hr + (Times(xr, gr) + Times(xi, gi)))
            + Times(gi, p)
         == Times(xr, hi) + Times(xi, hr) + Times(gi, p + (Times(xr, xr) + Times(xi, xi)))
  {
    Distributes(xr, hr, xr * gr, xi * gi);
    Distributes(xi, hi, xr * gi, -(xi * gr));
    Distributes(xr, hi, xr * gi, -(xi * gr));
    Distributes(xi, hr, xr * gr, xi * gi);
    Distributes(gr, p, xr * xr, xi * xi);
    Distributes(gi, p, xr * xr, xi * xi);
    Reorder(xr, xi, gr);
    Reorder(xr, xi, gi);
  }

  lemma Distributes(a: real, b: real, c: real, d: real)
    ensures a * (b + (c + d)) == a * b + (a * c + a * d)
  {
  }

  lemma Reorder(a: real, b: real, c: real)
    ensures a * (a * c) == c * (a * a) && b * (b * c) == c * (b * b) && b * -(b * c) == -(c * (b * b))
    ensures a * (b * c) == b * (a * c) && a * -(b * c) == -(b * (a * c))
  {
  }
}

/** The scalar circular loops. */
module FirScalar {
  import opened PowerSpectra
  import opened Circular
  import opened Products
  import opened FirSpec

  /** The loop over the bins of one partition. */
  method AdaptPartition(h: FftData, x: FftData, g: FftData) returns (r: FftData)
    ensures r == Adapted(h, x, g, BINS)
  {
    r := h;
    AdaptedNone(h, x, g);
    for k := 0 to BINS
      invariant r == Adapted(h, x, g, k)
    {
      AdaptedNext(h, x, g, k);
      hide Adapted, Times;
      r := SetBin(r, k, r.re[k] + (Times(x.re[k], g.re[k]) + Times(x.im[k], g.im[k])),
                  r.im[k] + (Times(x.re[k], g.im[k]) - Times(x.im[k], g.re[k])));
    }
  }

  method AdaptPartitions(renderBufferData: seq<FftData>, position: nat, g: FftData, h: array<FftData>)
    requires position < |renderBufferData|
    modifies h
    ensures h[..] == AdaptedAll(old(h[..]), renderBufferData, position, g)
  {
    ghost var was := h[..];
    var index := position;
    for j := 0 to h.Length
      invariant index == Advance(position, |renderBufferData|, j)
      invariant forall i: nat :: i < j ==> h[i] == Adapted(was[i], Paired(renderBufferData, position, i), g, BINS)
      invariant forall i: nat :: j <= i < h.Length ==> h[i] == was[i]
    {
      var x := renderBufferData[index];
      assert x == Paired(renderBufferData, position, j);
      var r := AdaptPartition(h[j], x, g);
      index := if index < |renderBufferData| - 1 then index + 1 else 0;
      assert index == Advance(position, |renderBufferData|, j + 1);
      hide Adapted, Paired, Advance;
      h[j] := r;
    }
    hide Adapted, Paired;
    assert h[..] == AdaptedAll(was, renderBufferData, position, g);
  }

  /** How many partitions each bin of the sum includes: j and one more before `bin`, and `last` in the last bin. */
  ghost predicate Sums(s: FftData, h: seq<FftData>, x: seq<FftData>, position: nat, j: nat, bin: nat, last: nat)
    requires position < |x| && (bin > 0 ==> j < |h|) && j <= |h| && last <= |h|
  {
    && (forall k: nat :: k < BINS - 1 ==>
                           s.re[k] == ResponseRe(h, x, position, if k < bin then j + 1 else j, k)
                           && s.im[k] == ResponseIm(h, x, position, if k < bin then j + 1 else j, k))
    && s.re[BINS - 1] == ResponseRe(h, x, position, last, BINS - 1)
    && s.im[BINS - 1] == ResponseIm(h, x, position, last, BINS - 1)
  }

  /** One bin with one more product. */
  function SumBin(s: FftData, v: FftData, w: FftData, k: nat): (r: FftData)
    requires k < BINS
  {
    SetBin(s, k, s.re[k] + (Times(v.re[k], w.re[k]) - Times(v.im[k], w.im[k])),
           s.im[k] + (Times(v.re[k], w.im[k]) + Times(v.im[k], w.re[k])))
  }

  lemma SumsNext(s: FftData, h: seq<FftData>, x: seq<FftData>, position: nat, j: nat, bin: nat, last: nat)
    requires position < |x| && j < |h| && last <= |h| && bin < BINS - 1 && Sums(s, h, x, position, j, bin, last)
    ensures Sums(SumBin(s, Paired(x, position, j), h[j], bin), h, x, position, j, bin + 1, last)
  {
    var v, w := Paired(x, position, j), h[j];
    assert ResponseRe(h, x, position, j + 1, bin)
        == ResponseRe(h, x, position, j, bin) + (Times(v.re[bin], w.re[bin]) - Times(v.im[bin], w.im[bin]));
    assert ResponseIm(h, x, position, j + 1, bin)
        == ResponseIm(h, x, position, j, bin) + (Times(v.re[bin], w.im[bin]) + Times(v.im[bin], w.re[bin]));
    hide ResponseRe, ResponseIm, Times, Paired;
  }

  lemma SumsLast(s: FftData, h: seq<FftData>, x: seq<FftData>, position: nat, j: nat, bin: nat, last: nat)
    requires position < |x| && (bin > 0 ==> j < |h|) && j <= |h| && last < |h| && Sums(s, h, x, position, j, bin, last)
    ensures Sums(SumBin(s, Paired(x, position, last), h[last], BINS - 1), h, x, position, j, bin, last + 1)
  {
    var v, w := Paired(x, position, last), h[last];
    var k := BINS - 1;
    assert ResponseRe(h, x, position, last + 1, k)
        == ResponseRe(h, x, position, last, k) + (Times(v.re[k], w.re[k]) - Times(v.im[k], w.im[k]));
    assert ResponseIm(h, x, position, last + 1, k)
        == ResponseIm(h, x, position, last, k) + (Times(v.re[k], w.im[k]) + Times(v.im[k], w.re[k]));
    hide ResponseRe, ResponseIm, Times, Paired;
  }

  lemma SumsPartition(s: FftData, h: seq<FftData>, x: seq<FftData>, position: nat, j: nat, last: nat)
    requires position < |x| && j < |h| && last <= |h| && Sums(s, h, x, position, j, BINS - 1, last)
    ensures Sums(s, h, x, position, j + 1, 0, last)
  {
    hide ResponseRe, ResponseIm;
  }

  lemma SumsAll(s: FftData, h: seq<FftData>, x: seq<FftData>, position: nat)
    requires position < |x| && Sums(s, h, x, position, |h|, 0, |h|)
    ensures s == Response(h, x, position)
  {
    hide ResponseRe, ResponseIm;
    assert s.re == Response(h, x, position).re && s.im == Response(h, x, position).im;
  }

  lemma SumsNothing(h: seq<FftData>, x: seq<FftData>, position: nat)
    requires position < |x|
    ensures Sums(Zero(), h, x, position, 0, 0, 0)
  {
  }

  method ApplyFilter(renderBufferData: seq<FftData>, position: nat, h: array<FftData>) returns (s: FftData)
    requires position < |renderBufferData|
    ensures s == Response(h[..], renderBufferData, position)
  {
    s := Zero();
    SumsNothing(h[..], renderBufferData, position);
    hide Sums;
    var index := position;
    for j := 0 to h.Length
      invariant index == Advance(position, |renderBufferData|, j)
      invariant Sums(s, h[..], renderBufferData, position, j, 0, j)
    {
      var x := renderBufferData[index];
      assert x == Paired(renderBufferData, position, j);
      index := if index < |renderBufferData| - 1 then index + 1 else 0;
      assert index == Advance(position, |renderBufferData|, j + 1);
      hide Sums, SumBin, Advance, Paired;
      for k := 0 to BINS
        invariant Sums(s, h[..], renderBufferData, position, j, if k < BINS then k else k - 1,
                       if k < BINS then j else j + 1)
      {
        if k < BINS - 1 {
          SumsNext(s, h[..], renderBufferData, position, j, k, j);
        } else {
          SumsLast(s, h[..], renderBufferData, position, j, k, j);
        }
        s := SumBin(s, x, h[j], k);
      }
      SumsPartition(s, h[..], renderBufferData, position, j, j + 1);
    }
    SumsAll(s, h[..], renderBufferData, position);
  }
}

/** Four bins at a time, two straight chunks of the buffer, and the last bin apart. */
module FirLanes {
  import opened PowerSpectra
  import opened Circular
  import opened Products
  import opened SimdLanes
  import opened FirSpec
  import opened FirScalar

  const FOUR_BIN_BANDS: nat := 16

  lemma AdaptedFour(was: FftData, x: FftData, g: FftData, k: nat)
    requires k + 4 <= BINS
    ensures var h := Adapted(was, x, g, k);
            SetBin(SetBin(SetBin(SetBin(h, k, AdaptedRe(h, x, g, k), AdaptedIm(h, x, g, k)),
                                 k + 1, AdaptedRe(h, x, g, k + 1), AdaptedIm(h, x, g, k + 1)),
                          k + 2, AdaptedRe(h, x, g, k + 2), AdaptedIm(h, x, g, k + 2)),
                   k + 3, AdaptedRe(h, x, g, k + 3), AdaptedIm(h, x, g, k + 3)) == Adapted(was, x, g, k + 4)
  {
    hide *;
    forall i: nat | k <= i < k + 4
      ensures AdaptedRe(Adapted(was, x, g, k), x, g, i) == AdaptedRe(was, x, g, i)
      ensures AdaptedIm(Adapted(was, x, g, k), x, g, i) == AdaptedIm(was, x, g, i)
    {
      AdaptedLater(was, x, g, k, i);
    }
    AdaptedNext(was, x, g, k);
    AdaptedNext(was, x, g, k + 1);
    AdaptedNext(was, x, g, k + 2);
    AdaptedNext(was, x, g, k + 3);
  }

  method AdaptFour(h: FftData, x: FftData, gRe: Lanes, gIm: Lanes, k: nat, ghost was: FftData, ghost g: FftData)
    returns (r: FftData)
    requires k + 4 <= BINS && gRe == Load(g.re, k) && gIm == Load(g.im, k) && h == Adapted(was, x, g, k)
    ensures r == Adapted(was, x, g, k + 4)
  {
    AdaptedFour(was, x, g, k);
    hide Adapted, Times;
    var xRe := Load(x.re, k);
    var xIm := Load(x.im, k);
    var a := Mul(xRe, gRe);
    var b := Mul(xIm, gIm);
    var c := Mul(xRe, gIm);
    var d := Mul(xIm, gRe);
    var e := Add(a, b);
    var f := Sub(c, d);
    r := Spectrum(Store(h.re, k, Add(Load(h.re, k), e)), Store(h.im, k, Add(Load(h.im, k), f)));
  }

  /** Four bins of the partitions of one chunk. */
  method AdaptChunk(x: seq<FftData>, ghost position: nat, ghost g: FftData, gRe: Lanes, gIm: Lanes, h: array<FftData>,
                    k: nat, from: nat, limit: nat, start: nat, ghost was: seq<FftData>)
    requires position < |x| && k + 4 <= BINS && gRe == Load(g.re, k) && gIm == Load(g.im, k)
    requires from <= limit <= h.Length && Straight(position, |x|, from, limit - from, start - from)
    requires AdaptedTo(h[..], was, x, position, g, k, k + 4, from)
    modifies h
    ensures AdaptedTo(h[..], was, x, position, g, k, k + 4, limit)
  {
    hide AdaptedTo, Adapted, Times, Straight;
    var xp, j := start, from;
    while j < limit
      invariant from <= j <= limit && xp - j == start - from
      invariant AdaptedTo(h[..], was, x, position, g, k, k + 4, j)
    {
      SubStraight(position, |x|, from, limit - from, start - from, j, 1);
      AdaptedToNext(h[..], was, x, position, g, k, k + 4, j);
      var r := AdaptFour(h[j], x[xp], gRe, gIm, k, was[j], g);
      ghost var before := h[..];
      h[j] := r;
      assert h[..] == before[j := r];
      j, xp := j + 1, xp + 1;
    }
  }

  /** All partitions, four bins. */
  method AdaptBand(x: seq<FftData>, position: nat, g: FftData, h: array<FftData>, k: nat, ghost was: seq<FftData>)
    requires position < |x| && h.Length <= |x| && k + 4 <= BINS && AdaptedTo(h[..], was, x, position, g, k, k + 4, 0)
    modifies h
    ensures AdaptedTo(h[..], was, x, position, g, k, k + 4, h.Length)
  {
    var lim1 := if |x| - position < h.Length then |x| - position else h.Length;
    var lim2 := h.Length;
    var gRe := Load(g.re, k);
    var gIm := Load(g.im, k);
    ChunksAreStraight(position, |x|, h.Length);
    hide AdaptedTo, Straight;
    var xp, limit, j := position, lim1, 0;
    var again := true;
    while again
      invariant again ==> (j == 0 && limit == lim1 && xp == position) || (j == lim1 < lim2 && limit == lim2 && xp == 0)
      invariant !again ==> j == lim2
      invariant AdaptedTo(h[..], was, x, position, g, k, k + 4, j)
      decreases again, lim2 - j
    {
      AdaptChunk(x, position, g, gRe, gIm, h, k, j, limit, xp, was);
      j := limit;
      xp := 0;
      limit := lim2;
      again := j < lim2;
    }
  }

  method AdaptLastChunk(x: seq<FftData>, ghost position: nat, g: FftData, h: array<FftData>, from: nat, limit: nat,
                        start: nat, ghost was: seq<FftData>)
    requires position < |x| && from <= limit <= h.Length
    requires Straight(position, |x|, from, limit - from, start - from)
    requires AdaptedTo(h[..], was, x, position, g, BINS - 1, BINS, from)
    modifies h
    ensures AdaptedTo(h[..], was, x, position, g, BINS - 1, BINS, limit)
  {
    hide AdaptedTo, Adapted, Times, Straight;
    var xp, j := start, from;
    while j < limit
      invariant from <= j <= limit && xp - j == start - from
      invariant AdaptedTo(h[..], was, x, position, g, BINS - 1, BINS, j)
    {
      SubStraight(position, |x|, from, limit - from, start - from, j, 1);
      AdaptedToNext(h[..], was, x, position, g, BINS - 1, BINS, j);
      AdaptedNext(was[j], x[xp], g, BINS - 1);
      ghost var before := h[..];
      h[j] := SetBin(h[j], BINS - 1, AdaptedRe(h[j], x[xp], g, BINS - 1), AdaptedIm(h[j], x[xp], g, BINS - 1));
      assert h[..] == before[j := h[j]];
      j, xp := j + 1, xp + 1;
    }
  }

  method AdaptLastBin(x: seq<FftData>, position: nat, g: FftData, h: array<FftData>, ghost was: seq<FftData>)
    requires position < |x| && h.Length <= |x| && AdaptedTo(h[..], was, x, position, g, BINS - 1, BINS, 0)
    modifies h
    ensures AdaptedTo(h[..], was, x, position, g, BINS - 1, BINS, h.Length)
  {
    var lim1 := if |x| - position < h.Length then |x| - position else h.Length;
    var lim2 := h.Length;
    ChunksAreStraight(position, |x|, h.Length);
    hide AdaptedTo, Straight;
    var xp, limit, j := position, lim1, 0;
    var again := true;
    while again
      invariant again ==> (j == 0 && limit == lim1 && xp == position) || (j == lim1 < lim2 && limit == lim2 && xp == 0)
      invariant !again ==> j == lim2
      invariant AdaptedTo(h[..], was, x, position, g, BINS - 1, BINS, j)
      decreases again, lim2 - j
    {
      AdaptLastChunk(x, position, g, h, j, limit, xp, was);
      j := limit;
      xp := 0;
      limit := lim2;
      again := j < lim2;
    }
  }

  lemma AdaptedToStart(was: seq<FftData>, x: seq<FftData>, position: nat, g: FftData)
    requires position < |x|
    ensures AdaptedTo(was, was, x, position, g, 0, 4, 0)
  {
    forall i: nat | i < |was|
      ensures was[i] == Adapted(was[i], Paired(x, position, i), g, 0)
    {
      AdaptedNone(was[i], Paired(x, position, i), g);
    }
  }

  lemma AdaptedToAll(h: seq<FftData>, was: seq<FftData>, x: seq<FftData>, position: nat, g: FftData)
    requires position < |x| && AdaptedTo(h, was, x, position, g, BINS - 1, BINS, |was|)
    ensures h == AdaptedAll(was, x, position, g)
  {
    hide Adapted, Paired;
  }

  /** The same contract as the scalar form, whenever the filter is no longer than the buffer. */
  method AdaptPartitionsSse2(renderBufferData: seq<FftData>, position: nat, g: FftData, h: array<FftData>)
    requires position < |renderBufferData| && h.Length <= |renderBufferData|
    modifies h
    ensures h[..] == AdaptedAll(old(h[..]), renderBufferData, position, g)
  {
    ghost var was := h[..];
    AdaptedToStart(was, renderBufferData, position, g);
    hide AdaptedTo, AdaptedAll;
    var k: nat := 0;
    for n := 0 to FOUR_BIN_BANDS
      invariant k == 4 * n
      invariant AdaptedTo(h[..], was, renderBufferData, position, g, k, if n < FOUR_BIN_BANDS then k + 4 else k + 1, 0)
    {
      AdaptBand(renderBufferData, position, g, h, k, was);
      assert h.Length == |was|;
      AdaptedToEnd(h[..], was, renderBufferData, position, g, k, k + 4,
                   if n + 1 < FOUR_BIN_BANDS then k + 8 else k + 5);
      k := k + 4;
    }
    AdaptLastBin(renderBufferData, position, g, h, was);
    AdaptedToAll(h[..], was, renderBufferData, position, g);
  }

  lemma SumsFour(s: FftData, h: seq<FftData>, x: seq<FftData>, position: nat, j: nat, k: nat, last: nat)
    requires position < |x| && j < |h| && last <= |h| && k + 4 < BINS && Sums(s, h, x, position, j, k, last)
    ensures var v, w := Paired(x, position, j), h[j];
            Sums(Spectrum(Store(s.re, k, Add(Load(s.re, k), Sub(Mul(Load(v.re, k), Load(w.re, k)),
                                                                Mul(Load(v.im, k), Load(w.im, k))))),
                          Store(s.im, k, Add(Load(s.im, k), Add(Mul(Load(v.re, k), Load(w.im, k)),
                                                                Mul(Load(v.im, k), Load(w.re, k)))))),
                 h, x, position, j, k + 4, last)
  {
    hide Sums, Times, Paired;
    var v, w := Paired(x, position, j), h[j];
    SumsNext(s, h, x, position, j, k, last);
    var s1 := SumBin(s, v, w, k);
    SumsNext(s1, h, x, position, j, k + 1, last);
    var s2 := SumBin(s1, v, w, k + 1);
    SumsNext(s2, h, x, position, j, k + 2, last);
    var s3 := SumBin(s2, v, w, k + 2);
    SumsNext(s3, h, x, position, j, k + 3, last);
  }

  /** One partition added to the sum, all bins but the last. */
  method SumPartition(s: FftData, x: FftData, w: FftData, ghost all: seq<FftData>, ghost xs: seq<FftData>,
                      ghost position: nat, ghost j: nat) returns (r: FftData)
    requires position < |xs| && j < |all| && w == all[j] && x == Paired(xs, position, j)
    requires Sums(s, all, xs, position, j, 0, 0)
    ensures Sums(r, all, xs, position, j + 1, 0, 0)
  {
    r := s;
    var k: nat := 0;
    hide Sums, Times, Paired;
    for n := 0 to FOUR_BIN_BANDS
      invariant k == 4 * n && Sums(r, all, xs, position, j, k, 0)
    {
      SumsFour(r, all, xs, position, j, k, 0);
      var a := Mul(Load(x.re, k), Load(w.re, k));
      var b := Mul(Load(x.im, k), Load(w.im, k));
      var c := Mul(Load(x.re, k), Load(w.im, k));
      var d := Mul(Load(x.im, k), Load(w.re, k));
      var e := Sub(a, b);
      var f := Add(c, d);
      r := Spectrum(Store(r.re, k, Add(Load(r.re, k), e)), Store(r.im, k, Add(Load(r.im, k), f)));
      k := k + 4;
    }
    SumsPartition(r, all, xs, position, j, 0);
  }

  method SumChunk(s: FftData, x: seq<FftData>, ghost position: nat, h: array<FftData>, from: nat, limit: nat,
                  start: nat)
    returns (r: FftData)
    requires position < |x| && from <= limit <= h.Length
    requires Straight(position, |x|, from, limit - from, start - from) && Sums(s, h[..], x, position, from, 0, 0)
    ensures Sums(r, h[..], x, position, limit, 0, 0)
  {
    hide Sums, Straight;
    r := s;
    var xp, j := start, from;
    while j < limit
      invariant from <= j <= limit && xp - j == start - from
      invariant Sums(r, h[..], x, position, j, 0, 0)
    {
      SubStraight(position, |x|, from, limit - from, start - from, j, 1);
      r := SumPartition(r, x[xp], h[j], h[..], x, position, j);
      j, xp := j + 1, xp + 1;
    }
  }

  method SumLastChunk(s: FftData, x: seq<FftData>, ghost position: nat, h: array<FftData>, from: nat, limit: nat,
                      start: nat) returns (r: FftData)
    requires position < |x| && from <= limit <= h.Length
    requires Straight(position, |x|, from, limit - from, start - from) && Sums(s, h[..], x, position, h.Length, 0, from)
    ensures Sums(r, h[..], x, position, h.Length, 0, limit)
  {
    hide Sums, Straight, SumBin;
    r := s;
    var xp, j := start, from;
    while j < limit
      invariant from <= j <= limit && xp - j == start - from
      invariant Sums(r, h[..], x, position, h.Length, 0, j)
    {
      SubStraight(position, |x|, from, limit - from, start - from, j, 1);
      SumsLast(r, h[..], x, position, h.Length, 0, j);
      r := SumBin(r, x[xp], h[j], BINS - 1);
      j, xp := j + 1, xp + 1;
    }
  }

  /** The same contract as the scalar form, whenever the filter is no longer than the buffer. */
  method ApplyFilterSse2(renderBufferData: seq<FftData>, position: nat, h: array<FftData>) returns (s: FftData)
    requires position < |renderBufferData| && h.Length <= |renderBufferData|
    ensures s == Response(h[..], renderBufferData, position)
  {
    s := Zero();
    SumsNothing(h[..], renderBufferData, position);
    var lim1 := if |renderBufferData| - position < h.Length then |renderBufferData| - position else h.Length;
    var lim2 := h.Length;
    ChunksAreStraight(position, |renderBufferData|, h.Length);
    hide Sums, Straight;
    var xp, limit, j := position, lim1, 0;
    var again := true;
    while again
      invariant again ==> (j == 0 && limit == lim1 && xp == position) || (j == lim1 < lim2 && limit == lim2 && xp == 0)
      invariant !again ==> j == lim2
      invariant Sums(s, h[..], renderBufferData, position, j, 0, 0)
      decreases again, lim2 - j
    {
      s := SumChunk(s, renderBufferData, position, h, j, limit, xp);
      j := limit;
      limit := lim2;
      xp := 0;
      again := j < lim2;
    }
    xp, limit, j := position, lim1, 0;
    again := true;
    while again
      invariant again ==> (j == 0 && limit == lim1 && xp == position) || (j == lim1 < lim2 && limit == lim2 && xp == 0)
      invariant !again ==> j == lim2
      invariant Sums(s, h[..], renderBufferData, position, h.Length, 0, j)
      decreases again, lim2 - j
    {
      s := SumLastChunk(s, renderBufferData, position, h, j, limit, xp);
      j := limit;
      limit := lim2;
      xp := 0;
      again := j < lim2;
    }
    SumsAll(s, h[..], renderBufferData, position);
  }
}
