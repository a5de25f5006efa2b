/** Linear regression over centred indices, in exact reals. */
module Regression {
  import opened Products

  /** The sum of index times value, for indices that start at `first` and go up in steps of one. */
  function Tilt(v: seq<real>, first: real): real {
    if v == [] then 0.0 else Tilt(v[..|v| - 1], first) + Times(first + (|v| - 1) as real, v[|v| - 1])
  }

  /** Where the indices of n points start so that they are symmetric around zero. */
  function FirstIndex(n: nat): real {
    -(n as real) * 0.5 + 0.5
  }

  /** The numerator of the direct regression. */
  function Numerator(v: seq<real>): real {
    Tilt(v, FirstIndex(|v|))
  }

  function SymmetricArithmeticSum(n: nat): real {
    n as real * (n as real * n as real - 1.0) * (1.0 / 12.0)
  }

  function Affine(a: real, b: real, n: nat): (r: seq<real>)
    ensures |r| == n
  {
    seq(n, i requires 0 <= i < n => a + b * i as real)
  }

  /** Sums of the first integers and of their squares, which the tilt of an affine sequence is made of. */
  lemma {:induction false} AffineTilt(a: real, b: real, first: real, n: nat)
    ensures var x := n as real;
            6.0 * Tilt(Affine(a, b, n), first)
            == 6.0 * a * first * x + 3.0 * (a + b * first) * (x * (x - 1.0)) + b * (x * (x - 1.0) * (2.0 * x - 1.0))
  {
    if n > 0 {
      AffineTilt(a, b, first, n - 1);
      assert Affine(a, b, n)[..n - 1] == Affine(a, b, n - 1);
      var y := (n - 1) as real;
      assert y + 1.0 == n as real;
      AffineTerm(a, b, first, y);
    }
  }

  lemma AffineTerm(a: real, b: real, first: real, y: real)
    ensures var x := y + 1.0;
            6.0 * a * first * y + 3.0 * (a + b * first) * (y * (y - 1.0)) + b * (y * (y - 1.0) * (2.0 * y - 1.0))
            + 6.0 * Times(first + y, a + b * y)
            == 6.0 * a * first * x + 3.0 * (a + b * first) * (x * (x - 1.0)) + b * (x * (x - 1.0) * (2.0 * x - 1.0))
  {
    var x := y + 1.0;
    assert x * (x - 1.0) == y * (y - 1.0) + 2.0 * y;
    assert x * (x - 1.0) * (2.0 * x - 1.0) == y * (y - 1.0) * (2.0 * y - 1.0) + 6.0 * (y * y);
    assert (a + b * first) * (x * (x - 1.0))
           == (a + b * first) * (y * (y - 1.0)) + 2.0 * (a * y) + 2.0 * (b * first * y);
    assert b * (x * (x - 1.0) * (2.0 * x - 1.0)) == b * (y * (y - 1.0) * (2.0 * y - 1.0)) + 6.0 * (b * (y * y));
    assert (first + y) * (a + b * y) == first * a + first * (b * y) + y * a + b * (y * y);
    assert a * first * x == a * first * y + a * first;
  }

  /** The numerator of an affine sequence is its slope times N(N^2-1)/12. */
  lemma AffineNumerator(a: real, b: real, n: nat)
    ensures Numerator(Affine(a, b, n)) == b * SymmetricArithmeticSum(n)
  {
    AffineTilt(a, b, FirstIndex(n), n);
    Centred(a, b, n as real);
  }

  lemma Centred(a: real, b: real, x: real)
    ensures var first := -x * 0.5 + 0.5;
            6.0 * a * first * x + 3.0 * (a + b * first) * (x * (x - 1.0)) + b * (x * (x - 1.0) * (2.0 * x - 1.0))
            == 6.0 * (b * (x * (x * x - 1.0) * (1.0 / 12.0)))
  {
    var first := -x * 0.5 + 0.5;
    assert first == -(x - 1.0) * 0.5;
    assert 6.0 * a * first * x == -3.0 * (a * (x * (x - 1.0)));
    assert first * (x * (x - 1.0)) == -0.5 * ((x - 1.0) * (x * (x - 1.0)));
    assert (a + b * first) * (x * (x - 1.0)) == a * (x * (x - 1.0)) + b * (first * (x * (x - 1.0)));
    assert x * (x - 1.0) * (2.0 * x - 1.0) - 1.5 * ((x - 1.0) * (x * (x - 1.0))) == 0.5 * (x * (x * x - 1.0));
  }

  /** One point counts with its distance from the middle. */
  lemma {:induction false} TiltChanges(v: seq<real>, first: real, i: nat, d: real)
    requires i < |v|
    ensures Tilt(v[i := v[i] + d], first) - Tilt(v, first) == (first + i as real) * d
  {
    var k := |v| - 1;
    if i < k {
      assert v[i := v[i] + d][..k] == v[..k][i := v[..k][i] + d];
      TiltChanges(v[..k], first, i, d);
    } else {
      assert v[i := v[i] + d][..k] == v[..k];
      assert (first + i as real) * (v[i] + d) == (first + i as real) * v[i] + (first + i as real) * d;
    }
  }

  lemma NumeratorChanges(v: seq<real>, i: nat, d: real)
    requires i < |v|
    ensures Numerator(v[i := v[i] + d]) - Numerator(v) == (i as real - (|v| - 1) as real / 2.0) * d
  {
    TiltChanges(v, FirstIndex(|v|), i, d);
    assert FirstIndex(|v|) + i as real == i as real - (|v| - 1) as real / 2.0;
    hide *;
  }

  /** N(N^2-1)/12 is the sum of the squared centred indices, and is positive from two points on. */
  lemma SumOfSquares(n: nat)
    ensures Numerator(Affine(FirstIndex(n), 1.0, n)) == SymmetricArithmeticSum(n)
    ensures n >= 2 ==> SymmetricArithmeticSum(n) > 0.0
  {
    AffineNumerator(FirstIndex(n), 1.0, n);
    if n >= 2 {
      var x := n as real;
      assert x * x >= 4.0 by {
        assert (x - 2.0) * (x + 2.0) >= 0.0;
      }
      assert x * (x * x - 1.0) > 0.0;
    }
  }
}

/** What a regression is for: the line with the least squared error. */
module LeastSquares {
  import opened Products
  import opened Regression

  function Line(a: real, b: real, x: real): real {
    a + b * x
  }

  /** The squared error of a line over points at x = first, first + 1, ... */
  function SquaredError(v: seq<real>, first: real, a: real, b: real): real {
    if v == [] then 0.0
    else
      var k := |v| - 1;
      var e := v[k] - Line(a, b, first + k as real);
      SquaredError(v[..k], first, a, b) + Times(e, e)
  }

  /** What turning a line with intercept a from slope s to slope b adds to the squared error of points whose tilt is p,
      whose indices sum to q and have squares that sum to r. */
  function Turn(a: real, b: real, s: real, p: real, q: real, r: real): real {
    Times(s - b, 2.0 * p - 2.0 * (a * q) - (b + s) * r)
  }

  lemma TurnNothing(a: real, b: real, s: real)
    ensures Turn(a, b, s, 0.0, 0.0, 0.0) == 0.0
  {
  }

  lemma TurnAdds(a: real, b: real, s: real, p: real, q: real, r: real, p': real, q': real, r': real)
    ensures Turn(a, b, s, p, q, r) + Turn(a, b, s, p', q', r') == Turn(a, b, s, p + p', q + q', r + r')
  {
    var d := s - b;
    assert a * (q + q') == a * q + a * q' && (b + s) * (r + r') == (b + s) * r + (b + s) * r';
    var u, u' := 2.0 * p - 2.0 * (a * q) - (b + s) * r, 2.0 * p' - 2.0 * (a * q') - (b + s) * r';
    assert d * u + d * u' == d * (u + u');
  }

  lemma TurnOne(v: real, x: real, a: real, b: real, s: real)
    ensures var e, f := v - Line(a, b, x), v - Line(a, s, x);
            Times(e, e) - Times(f, f) == Turn(a, b, s, Times(x, v), Times(x, 1.0), Times(x, x))
  {
    var e, f := v - (a + b * x), v - (a + s * x);
    assert e * e - f * f == (e - f) * (e + f);
    assert e - f == (s - b) * x;
    assert e + f == 2.0 * v - 2.0 * a - (b + s) * x;
    assert x * (e + f) == 2.0 * (x * v) - 2.0 * (a * x) - (b + s) * (x * x) by {
      assert x * ((b + s) * x) == (b + s) * (x * x);
    }
    assert (s - b) * x * (e + f) == (s - b) * (x * (e + f));
  }

  lemma {:induction false} ErrorDifference(v: seq<real>, first: real, a: real, b: real, s: real)
    ensures SquaredError(v, first, a, b) - SquaredError(v, first, a, s)
         == Turn(a, b, s, Tilt(v, first), Tilt(Affine(1.0, 0.0, |v|), first), Tilt(Affine(first, 1.0, |v|), first))
  {
    hide Times, Line, Turn;
    if v == [] {
      TurnNothing(a, b, s);
    } else {
      var k := |v| - 1;
      var x, n := first + k as real, |v|;
      var ones, indices := Affine(1.0, 0.0, n), Affine(first, 1.0, n);
      assert ones[..k] == Affine(1.0, 0.0, k) && indices[..k] == Affine(first, 1.0, k);
      assert ones[k] == 1.0 && indices[k] == x;
      ErrorDifference(v[..k], first, a, b, s);
      TurnOne(v[k], x, a, b, s);
      TurnAdds(a, b, s, Tilt(v[..k], first), Tilt(ones[..k], first), Tilt(indices[..k], first),
               Times(x, v[k]), Times(x, 1.0), Times(x, x));
    }
  }

  /** The slope that the numerator and N(N^2-1)/12 give is the best one, whatever the intercept, and the only one. */
  lemma {:induction false} SlopeIsBest(v: seq<real>, slope: real, a: real, b: real)
    requires |v| >= 2
    requires Times(slope, SymmetricArithmeticSum(|v|)) == Numerator(v)
    ensures SquaredError(v, FirstIndex(|v|), a, slope) <= SquaredError(v, FirstIndex(|v|), a, b)
    ensures b != slope ==> SquaredError(v, FirstIndex(|v|), a, slope) < SquaredError(v, FirstIndex(|v|), a, b)
  {
    hide SymmetricArithmeticSum, Times, Turn, SquaredError, Tilt, Affine, FirstIndex;
    ErrorDifference(v, FirstIndex(|v|), a, b, slope);
    AffineNumerator(1.0, 0.0, |v|);
    SumOfSquares(|v|);
    TurnFromBest(a, b, slope, SymmetricArithmeticSum(|v|));
  }

  lemma TurnFromBest(a: real, b: real, s: real, nn: real)
    requires nn > 0.0
    ensures Turn(a, b, s, Times(s, nn), 0.0, nn) >= 0.0
    ensures b != s ==> Turn(a, b, s, Times(s, nn), 0.0, nn) > 0.0
  {
    Remainder(a, b, s, nn);
    hide Times, Turn;
    Signs(nn, s - b);
    Signs(s - b, Times(nn, s - b));
  }

  lemma Remainder(a: real, b: real, s: real, nn: real)
    ensures Turn(a, b, s, Times(s, nn), 0.0, nn) == Times(s - b, Times(nn, s - b))
  {
    assert 2.0 * (s * nn) - 2.0 * (a * 0.0) - (b + s) * nn == nn * (s - b);
  }

  lemma Signs(x: real, y: real)
    ensures Times(x, y) > 0.0 <==> (x > 0.0 && y > 0.0) || (x < 0.0 && y < 0.0)
    ensures Times(x, y) < 0.0 <==> (x > 0.0 && y < 0.0) || (x < 0.0 && y > 0.0)
  {
  }
}

module LateReverb {
  import opened Products
  import opened Regression
  import opened LeastSquares

  /** Where the running index of a regressor starts. */
  function Start(n: nat): real {
    if n > 0 then FirstIndex(n) else 0.0
  }

  class LateReverbLinearRegressor {
    var nz: real
    var nn: real
    var count: real
    var N: nat
    var n: nat
    /** The points since the last reset. */
    ghost var values: seq<real>

    ghost predicate Valid()
      reads this
    {
      && |values| == n
      && nz == Tilt(values, Start(N))
      && count == Start(N) + n as real
      && nn == SymmetricArithmeticSum(N)
      && (N == 0 || N >= 2)
    }

    constructor ()
      ensures Valid() && N == 0 && values == []
    {
      nz, nn, count, N, n, values := 0.0, 0.0, 0.0, 0, 0, [];
    }

    method Reset(numDataPoints: nat)
      requires numDataPoints % 2 == 0
      modifies this
      ensures Valid() && N == numDataPoints && n == 0 && values == []
    {
      nz := 0.0;
      nn := SymmetricArithmeticSum(numDataPoints);
      count := if numDataPoints > 0 then -(numDataPoints as real) * 0.5 + 0.5 else 0.0;
      N := numDataPoints;
      n := 0;
      values := [];
    }

    method Accumulate(z: real)
      requires Valid()
      modifies this
      ensures Valid() && N == old(N) && values == old(values) + [z]
    {
      assert (values + [z])[..|values|] == values;
      values := values + [z];
      nz := nz + Times(count, z);
      count := count + 1.0;
      n := n + 1;
    }

    predicate EstimateAvailable()
      reads this
    {
      n == N && N != 0
    }

    /** The regression over all the points asked for; exact when they lie on a line. */
    method Estimate() returns (slope: real)
      requires Valid() && EstimateAvailable()
      ensures |values| == N && SymmetricArithmeticSum(N) > 0.0
      ensures Times(slope, SymmetricArithmeticSum(N)) == Numerator(values)
      ensures forall a: real, b: real :: values == Affine(a, b, N) ==> slope == b
      ensures forall a: real, b: real ::
                SquaredError(values, FirstIndex(N), a, slope) <= SquaredError(values, FirstIndex(N), a, b)
    {
      SumOfSquares(N);
      QuotientTimes(nz, nn);
      slope := nz / nn;
      hide Times, Numerator;
      forall a: real, b: real | values == Affine(a, b, N)
        ensures slope == b
      {
        AffineNumerator(a, b, N);
        hide SymmetricArithmeticSum;
        SlopeIs(slope, b, nn);
      }
      forall a: real, b: real
        ensures SquaredError(values, FirstIndex(N), a, slope) <= SquaredError(values, FirstIndex(N), a, b)
      {
        SlopeIsBest(values, slope, a, b);
      }
    }
  }

  lemma QuotientTimes(a: real, b: real)
    requires b != 0.0
    ensures Times(a / b, b) == a
  {
  }

  lemma SlopeIs(slope: real, b: real, nn: real)
    requires nn > 0.0 && Times(slope, nn) == Times(b, nn)
    ensures slope == b
  {
    assert (slope - b) * nn == 0.0;
  }
}

module EarlyReverb {
  import opened Products
  import opened Regression

  const BLOCK: nat := 64
  const BLOCKS_PER_SECTION: nat := 6
  const SECTION: nat := 384
  const FIRST_POINT: real := -191.5

  const SECTIONS_TO_ANALYZE: nat := 9

  /** The numerators of a growth by a tenth and of a decay to four fifths in one block. */
  function Numerator11(): real {
    0.13750352374993502 * SymmetricArithmeticSum(SECTION) / BLOCK as real
  }

  function Numerator08(): real {
    -0.32192809488736229 * SymmetricArithmeticSum(SECTION) / BLOCK as real
  }

  /** The energy of section k does not decay, or does so faster than in the tail. */
  predicate IsEarly(numerators: seq<real>, k: nat, tail: real)
    requires k < |numerators|
  {
    numerators[k] > Numerator11() || (numerators[k] < Numerator08() && numerators[k] < 0.9 * tail)
  }

  /** In terms of the slopes of the regressions: the section grows by a tenth in a block, or falls to four fifths and
      faster than nine tenths of the slope of the tail. */
  lemma EarlyInSlopes(numerators: seq<real>, k: nat, tail: real, slope: real, tailSlope: real)
    requires k < |numerators|
    requires numerators[k] == Times(slope, SymmetricArithmeticSum(SECTION))
    requires tail == Times(tailSlope, SymmetricArithmeticSum(SECTION))
    ensures IsEarly(numerators, k, tail) <==>
            64.0 * slope > 0.13750352374993502
            || (64.0 * slope < -0.32192809488736229 && slope < 0.9 * tailSlope)
  {
    assert SymmetricArithmeticSum(SECTION) == 4718560.0;
    hide SymmetricArithmeticSum;
  }

  /** What the points so far contribute to the regression over the six blocks from block s on. */
  function Contribution(values: seq<real>, s: nat): real {
    if values == [] then 0.0
    else
      var i := |values| - 1;
      Contribution(values[..i], s)
      + if BLOCK * s <= i < BLOCK * s + SECTION then Times((i - BLOCK * s) as real + FIRST_POINT, values[i]) else 0.0
  }

  /** Once its six blocks are there, a section holds the numerator of the direct regression over them. */
  lemma {:induction false} ContributionIsNumerator(values: seq<real>, s: nat)
    requires BLOCK * s + SECTION <= |values|
    ensures Contribution(values, s) == Numerator(values[BLOCK * s..BLOCK * s + SECTION])
  {
    if |values| > BLOCK * s + SECTION {
      ContributionIsNumerator(values[..|values| - 1], s);
      assert values[..|values| - 1][BLOCK * s..BLOCK * s + SECTION] == values[BLOCK * s..BLOCK * s + SECTION];
    } else {
      ContributionIsTilt(values, s);
      assert values[BLOCK * s..BLOCK * s + SECTION] == values[BLOCK * s..];
      assert FirstIndex(SECTION) == FIRST_POINT;
    }
  }

  lemma {:induction false} ContributionIsTilt(values: seq<real>, s: nat)
    requires BLOCK * s <= |values| <= BLOCK * s + SECTION
    ensures Contribution(values, s) == Tilt(values[BLOCK * s..], FIRST_POINT)
  {
    var i := |values| - 1;
    if |values| == BLOCK * s {
      ContributionBefore(values, s);
    } else {
      ContributionIsTilt(values[..i], s);
      assert values[BLOCK * s..][..i - BLOCK * s] == values[..i][BLOCK * s..];
      hide Times;
    }
  }

  lemma {:induction false} ContributionBefore(values: seq<real>, s: nat)
    requires |values| <= BLOCK * s
    ensures Contribution(values, s) == 0.0
  {
    if values != [] {
      ContributionBefore(values[..|values| - 1], s);
    }
  }

  class EarlyReverbLengthEstimator {
    var numeratorsSmooth: seq<real>
    var numerators: seq<real>
    var coefficientsCounter: nat
    var blockCounter: nat
    var nSections: nat
    /** The points since the last reset. */
    ghost var values: seq<real>

    ghost predicate Valid()
      reads this
    {
      && |numeratorsSmooth| == |numerators|
      && nSections <= |numerators|
      && coefficientsCounter < BLOCK
      && |values| == BLOCK * blockCounter + coefficientsCounter
      && forall s: nat :: s < |numerators| ==> numerators[s] == Contribution(values, s)
    }

    constructor (maxBlocks: nat)
      requires BLOCKS_PER_SECTION <= maxBlocks
      ensures Valid() && |numerators| == maxBlocks - BLOCKS_PER_SECTION && values == []
    {
      numeratorsSmooth := seq(maxBlocks - BLOCKS_PER_SECTION, _ => 0.0);
      numerators := seq(maxBlocks - BLOCKS_PER_SECTION, _ => 0.0);
      coefficientsCounter, blockCounter, nSections, values := 0, 0, 0, [];
    }

    method Reset()
      modifies this
      requires Valid()
      ensures Valid() && |numerators| == |old(numerators)| && values == [] && numeratorsSmooth == old(numeratorsSmooth)
      ensures blockCounter == 0 && coefficientsCounter == 0
    {
      coefficientsCounter := 0;
      numerators := seq(|numerators|, _ => 0.0);
      blockCounter := 0;
      values := [];
    }

    /** Adds one point to every section it belongs to. */
    method UpdateSections(value: real)
      requires Valid()
      modifies this`numerators
      ensures |numerators| == |old(numerators)|
      ensures forall s: nat :: s < |numerators| ==> numerators[s] == Contribution(values + [value], s)
    {
      var firstSectionIndex := if blockCounter - BLOCKS_PER_SECTION + 1 > 0
                               then blockCounter - BLOCKS_PER_SECTION + 1 else 0;
      var lastSectionIndex := if blockCounter < |numerators| - 1 then blockCounter else |numerators| - 1;
      var xValue := coefficientsCounter as real + FIRST_POINT;
      var valueToInc := Times(BLOCK as real, value);
      var valueToAdd := Times(xValue, value) + Times((blockCounter - lastSectionIndex) as real, valueToInc);
      ghost var was := numerators;
      ghost var b, c := blockCounter, coefficientsCounter;
      assert (values + [value])[..|values|] == values;
      var section := lastSectionIndex;
      Shares(xValue, b, lastSectionIndex, value);
      hide Times, Contribution;
      while section >= firstSectionIndex
        modifies this`numerators
        invariant -1 <= section <= lastSectionIndex && |numerators| == |was|
        invariant section + 1 >= firstSectionIndex || section == lastSectionIndex
        invariant valueToAdd == Times(xValue + BLOCK as real * (b - section) as real, value)
        invariant forall s: nat :: s < |was| ==>
                    numerators[s] == if section < s <= lastSectionIndex
                                     then was[s] + Times(xValue + BLOCK as real * (b - s) as real, value)
                                     else was[s]
        decreases section
      {
        numerators := numerators[section := numerators[section] + valueToAdd];
        Shares(xValue, b, section, value);
        section, valueToAdd := section - 1, valueToAdd + valueToInc;
      }
      forall s: nat | s < |numerators|
        ensures numerators[s] == Contribution(values + [value], s)
      {
        ContributionNext(values, value, s, b, c);
      }
    }

    /** The index of the first least element, or the lower end when there is none. */
    method MinElement(from: nat, end: nat) returns (m: nat)
      requires from <= end <= |numeratorsSmooth|
      ensures from == end ==> m == end
      ensures from < end ==>
                && from <= m < end
                && (forall k :: from <= k < end ==> numeratorsSmooth[m] <= numeratorsSmooth[k])
                && forall k :: from <= k < m ==> numeratorsSmooth[m] < numeratorsSmooth[k]
    {
      m := from;
      var first := from;
      while first < end
        invariant from <= first <= end && (first == from ==> m == from)
        invariant from < first ==> from <= m < first
        invariant forall k :: from <= k < first ==> numeratorsSmooth[m] <= numeratorsSmooth[k]
        invariant forall k :: from <= k < m ==> numeratorsSmooth[m] < numeratorsSmooth[k]
      {
        if numeratorsSmooth[first] < numeratorsSmooth[m] {
          m := first;
        }
        first := first + 1;
      }
    }

    /** How many of the first nine sections belong to the early reverb: up to the last early one, but none when that is
        the very first. With exactly nine sections the tail is empty, and the code compares with the element after it:
        a section that this analysis did not complete, or for an array of nine what lies past its end. */
    ghost predicate EarlySize(size: nat, tail: real, pastEnd: real)
      reads this
    {
      && nSections <= |numeratorsSmooth|
      && (nSections < 9 ==> size == 0)
      && (nSections == 9 ==> tail == if |numeratorsSmooth| > 9 then numeratorsSmooth[9] else pastEnd)
      && (nSections > 9 ==>
            && (exists k :: 9 <= k < nSections && tail == numeratorsSmooth[k])
            && forall k :: 9 <= k < nSections ==> tail <= numeratorsSmooth[k])
      && (nSections >= 9 ==>
            && size <= 9 && size != 1
            && (size > 0 ==> IsEarly(numeratorsSmooth, size - 1, tail))
            && forall k :: 1 <= k < 9 && size <= k ==> !IsEarly(numeratorsSmooth, k, tail))
    }

    method Estimate(pastEnd: real) returns (size: nat, ghost tail: real)
      requires Valid()
      ensures nSections < 9 ==> size == 0
      ensures size <= 9 && size != 1
      ensures size > 0 ==> numeratorsSmooth[size - 1] > Numerator11() || numeratorsSmooth[size - 1] < Numerator08()
      ensures EarlySize(size, tail, pastEnd)
    {
      tail := 0.0;
      if nSections < SECTIONS_TO_ANALYZE {
        return 0, tail;
      }
      var least := MinElement(SECTIONS_TO_ANALYZE, nSections);
      var minNumeratorTail := if least < |numeratorsSmooth| then numeratorsSmooth[least] else pastEnd;
      tail := minNumeratorTail;
      var earlyReverbSizeMinus1 := 0;
      for k := 0 to SECTIONS_TO_ANALYZE
        invariant earlyReverbSizeMinus1 <= k && earlyReverbSizeMinus1 < SECTIONS_TO_ANALYZE
        invariant earlyReverbSizeMinus1 > 0 ==> IsEarly(numeratorsSmooth, earlyReverbSizeMinus1, tail)
        invariant forall j :: earlyReverbSizeMinus1 < j < k ==> !IsEarly(numeratorsSmooth, j, tail)
      {
        if numeratorsSmooth[k] > Numerator11()
           || (numeratorsSmooth[k] < Numerator08() && numeratorsSmooth[k] < 0.9 * minNumeratorTail) {
          earlyReverbSizeMinus1 := k;
        }
      }
      size := if earlyReverbSizeMinus1 == 0 then 0 else earlyReverbSizeMinus1 + 1;
    }

    /** Adds a point, and at the end of a block completes a section. */
    method Accumulate(value: real, smoothing: real)
      requires Valid() && blockCounter + 1 < |numerators| + BLOCKS_PER_SECTION
      modifies this
      ensures Valid() && |numerators| == |old(numerators)| && values == old(values) + [value]
      ensures old(coefficientsCounter) + 1 == BLOCK && old(blockCounter) >= BLOCKS_PER_SECTION - 1 ==>
                var s := old(blockCounter) - (BLOCKS_PER_SECTION - 1);
                && nSections == s + 1
                && BLOCK * s + SECTION == |values|
                && numeratorsSmooth == old(numeratorsSmooth)
                   [s := old(numeratorsSmooth)[s]
                         + Times(smoothing,
                                 Numerator(values[BLOCK * s..BLOCK * s + SECTION]) - old(numeratorsSmooth)[s])]
      ensures !(old(coefficientsCounter) + 1 == BLOCK && old(blockCounter) >= BLOCKS_PER_SECTION - 1) ==>
                numeratorsSmooth == old(numeratorsSmooth) && nSections == old(nSections)
    {
      UpdateSections(value);
      values := values + [value];
      hide Times, Contribution, Numerator;
      coefficientsCounter := coefficientsCounter + 1;
      if coefficientsCounter == BLOCK {
        if blockCounter >= BLOCKS_PER_SECTION - 1 {
          var section := blockCounter - (BLOCKS_PER_SECTION - 1);
          ContributionIsNumerator(values, section);
          numeratorsSmooth := numeratorsSmooth
            [section := numeratorsSmooth[section] + Times(smoothing, numerators[section] - numeratorsSmooth[section])];
          nSections := section + 1;
        }
        blockCounter := blockCounter + 1;
        coefficientsCounter := 0;
      }
    }
  }

  /** The amount for one section less is larger by one block's worth. */
  lemma Shares(x: real, b: int, section: int, value: real)
    ensures Times(x, value) + Times((b - section) as real, Times(BLOCK as real, value))
         == Times(x + BLOCK as real * (b - section) as real, value)
    ensures Times(x + BLOCK as real * (b - section) as real, value) + Times(BLOCK as real, value)
         == Times(x + BLOCK as real * (b - (section - 1)) as real, value)
  {
    var d := (b - section) as real;
    assert (b - (section - 1)) as real == d + 1.0;
    assert (x + 64.0 * d) * value == x * value + d * (64.0 * value);
    assert (x + 64.0 * (d + 1.0)) * value == (x + 64.0 * d) * value + 64.0 * value;
  }

  lemma ContributionNext(values: seq<real>, value: real, s: nat, b: nat, c: nat)
    requires |values| == BLOCK * b + c && c < BLOCK
    ensures Contribution(values + [value], s) == Contribution(values, s)
            + if b - BLOCKS_PER_SECTION + 1 <= s <= b
              then Times(c as real + FIRST_POINT + BLOCK as real * (b - s) as real, value) else 0.0
  {
    var i := |values|;
    assert (values + [value])[..i] == values;
    assert BLOCK * s <= i < BLOCK * s + SECTION <==> b - BLOCKS_PER_SECTION + 1 <= s <= b;
    if b - BLOCKS_PER_SECTION + 1 <= s <= b {
      assert (i - BLOCK * s) as real == c as real + BLOCK as real * (b - s) as real;
    }
    hide Times;
  }
}

/** Which blocks of the filter are analyzed for the reverb. */
module ReverbDecayEstimator {
  import opened Products
  import opened Numbers
  import opened Regression
  import opened LateReverb
  import opened EarlyReverb

  const EARLY_REVERB_MIN_SIZE_BLOCKS: nat := 3

  /** What one block of the filter shows: whether its gain changed, whether it is above the noise floor, and the
      logarithms of its squared coefficients. */
  datatype Analysis = Analysis(adapting: bool, aboveNoiseFloor: bool, log2: seq<real>)

  /** What the whole filter shows when it has been analyzed, and what lies past the end of the sections. */
  datatype Verdict = Verdict(validFilter: bool, sufficientReverbDecay: bool, pastEnd: real)

  const MAX_DECAY: real := 0.95
  const MIN_DECAY: real := 0.02

  function MinReal(a: real, b: real): real {
    if b < a then b else a
  }

  function MaxReal(a: real, b: real): real {
    if a < b then b else a
  }

  /** The decay a new estimate leads to: it falls by no more than 3 percent and is kept between two limits. */
  function TargetDecay(decay: real, estimate: real): real {
    MaxReal(MinReal(MaxReal(0.97 * decay, estimate), MAX_DECAY), MIN_DECAY)
  }

  function SmoothedDecay(decay: real, smoothing: real, estimate: real): real {
    decay + Times(smoothing, TargetDecay(decay, estimate) - decay)
  }

  /** The target is the estimate wherever that is within the limits and no more than 3 percent down, and otherwise the
      nearest value that is. Smoothing goes its part of the way there. */
  lemma DecayFollowsEstimate(decay: real, smoothing: real, estimate: real)
    ensures var t, lowest := TargetDecay(decay, estimate), 0.97 * decay;
            && 0.02 <= t <= 0.95
            && (lowest <= estimate && 0.02 <= estimate <= 0.95 ==> t == estimate)
            && (estimate <= lowest && 0.02 <= lowest <= 0.95 ==> t == lowest)
            && (estimate >= 0.95 || lowest >= 0.95 ==> t == 0.95)
            && (estimate <= 0.02 && lowest <= 0.02 ==> t == 0.02)
            && SmoothedDecay(decay, smoothing, estimate) == (1.0 - smoothing) * decay + smoothing * t
  {
    var t := TargetDecay(decay, estimate);
    assert smoothing * (t - decay) == smoothing * t - smoothing * decay;
  }

  /** With a smoothing in [0, 1] the decay moves towards its target and not beyond it, never by more than 3 percent
      down, and stays between the limits once it is there. */
  lemma SmoothedDecayInRange(decay: real, smoothing: real, estimate: real)
    requires 0.0 <= smoothing <= 1.0
    ensures var d, t := SmoothedDecay(decay, smoothing, estimate), TargetDecay(decay, estimate);
            && (decay <= d <= t || t <= d <= decay)
            && (MIN_DECAY <= decay <= MAX_DECAY ==> MIN_DECAY <= d <= MAX_DECAY && 0.97 * decay <= d)
  {
    var t := TargetDecay(decay, estimate);
    Fraction(smoothing, t - decay);
    Fraction(smoothing, decay - t);
    assert Times(smoothing, t - decay) == -Times(smoothing, decay - t);
    hide Times;
  }

  lemma Fraction(a: real, b: real)
    requires 0.0 <= a <= 1.0
    ensures b >= 0.0 ==> 0.0 <= Times(a, b) <= b
  {
    if b >= 0.0 {
      assert (1.0 - a) * b >= 0.0;
      assert (1.0 - a) * b == b - a * b;
    }
  }

  /** How many sections fit over a filter. */
  function SectionCount(filterLengthBlocks: int): int {
    filterLengthBlocks - EARLY_REVERB_MIN_SIZE_BLOCKS - BLOCKS_PER_SECTION
  }

  /** The size that is asked of the section arrays: the count as an unsigned 64-bit number. */
  function SectionArraySize(filterLengthBlocks: int): SizeT {
    SectionCount(filterLengthBlocks) % SIZE_T
  }

  /** For the filter lengths that the code lets through, the arrays have as many sections as fit exactly from 9 blocks
      on; a shorter filter asks for more than half of all 64-bit sizes. */
  lemma SectionsNeedNineBlocks(filterLengthBlocks: int)
    requires EARLY_REVERB_MIN_SIZE_BLOCKS < filterLengthBlocks < 0x8000_0000
    ensures SectionCount(filterLengthBlocks) >= 0 <==> filterLengthBlocks >= 9
    ensures SectionArraySize(filterLengthBlocks) == SectionCount(filterLengthBlocks) <==> filterLengthBlocks >= 9
    ensures filterLengthBlocks < 9 ==> SectionArraySize(filterLengthBlocks) > SIZE_T / 2
  {
    var n := SectionCount(filterLengthBlocks);
    assert n < 0 ==> n % SIZE_T == n + SIZE_T;
  }

  /** A filter of 4 blocks passes the code's check and has no room for a section. */
  lemma FourBlocksAreTooFew()
    ensures 4 > EARLY_REVERB_MIN_SIZE_BLOCKS && SectionCount(4) == -5 && SectionArraySize(4) == SIZE_T - 5
  {
    SectionsNeedNineBlocks(4);
    assert SectionArraySize(4) == -5 % SIZE_T;
  }

  class ReverbDecayEstimator {
    const filterLengthBlocks: nat
    const filterLengthCoefficients: nat
    const useAdaptiveEchoDecay: bool
    const lateReverbDecayEstimator: LateReverbLinearRegressor
    const earlyReverbEstimator: EarlyReverbLengthEstimator
    var lateReverbStart: nat
    var lateReverbEnd: int
    var blockToAnalyze: nat
    var estimationRegionCandidateSize: nat
    var estimationRegionIdentified: bool
    var decay: real
    var smoothingConstant: real
    /** Two to the power of a number. */
    const pow2: real -> real

    /** The blocks of the late region that have been analyzed. */
    ghost function LateBlocks(): nat
      reads this
    {
      if blockToAnalyze <= lateReverbStart then 0
      else if blockToAnalyze <= lateReverbEnd then blockToAnalyze - lateReverbStart
      else if lateReverbStart <= lateReverbEnd then lateReverbEnd - lateReverbStart + 1
      else 0
    }

    /** Either no late region is set, or the regressor waits for exactly the points of that region. */
    ghost predicate LateInStep()
      reads this, lateReverbDecayEstimator
    {
      lateReverbDecayEstimator.N == 0
      || (lateReverbDecayEstimator.N == BLOCK * (lateReverbEnd - lateReverbStart + 1)
          && lateReverbDecayEstimator.n == BLOCK * LateBlocks())
    }

    /** Not more blocks are collected than the sections have room for: either only the first four blocks of the filter
        are, or the analysis started at its fifth block or later. */
    ghost predicate EarlyInStep()
      reads this, earlyReverbEstimator
    {
      && earlyReverbEstimator.coefficientsCounter == 0
      && |earlyReverbEstimator.numerators| == SectionCount(filterLengthBlocks)
      && ((lateReverbEnd <= 3 && earlyReverbEstimator.blockCounter <= blockToAnalyze
           && earlyReverbEstimator.blockCounter <= 4)
          || earlyReverbEstimator.blockCounter + 4 <= blockToAnalyze)
    }

    ghost predicate Valid()
      reads this, lateReverbDecayEstimator, earlyReverbEstimator
    {
      && SectionCount(filterLengthBlocks) >= 0
      && filterLengthCoefficients == filterLengthBlocks * BLOCK
      && blockToAnalyze <= filterLengthBlocks
      && lateReverbDecayEstimator.Valid() && earlyReverbEstimator.Valid()
      && LateInStep() && EarlyInStep()
    }

    /** The decay is only adapted when the default length is negative; it starts at that length without its sign. */
    constructor (filterLengthBlocks: nat, defaultLen: real, pow2: real -> real)
      requires SectionCount(filterLengthBlocks) >= 0
      ensures Valid() && this.filterLengthBlocks == filterLengthBlocks && this.pow2 == pow2
      ensures useAdaptiveEchoDecay == (defaultLen < 0.0) && (decay == defaultLen || decay == -defaultLen)
              && decay >= 0.0
      ensures smoothingConstant == 0.0
    {
      this.filterLengthBlocks := filterLengthBlocks;
      this.pow2 := pow2;
      useAdaptiveEchoDecay := defaultLen < 0.0;
      decay := if defaultLen < 0.0 then -defaultLen else defaultLen;
      filterLengthCoefficients := filterLengthBlocks * BLOCK;
      lateReverbDecayEstimator := new LateReverbLinearRegressor();
      earlyReverbEstimator := new EarlyReverbLengthEstimator(filterLengthBlocks - EARLY_REVERB_MIN_SIZE_BLOCKS);
      lateReverbStart := EARLY_REVERB_MIN_SIZE_BLOCKS;
      lateReverbEnd := EARLY_REVERB_MIN_SIZE_BLOCKS;
      blockToAnalyze := 0;
      estimationRegionCandidateSize := 0;
      estimationRegionIdentified := false;
      smoothingConstant := 0.0;
    }

    method ResetDecayEstimation()
      requires Valid()
      modifies this, lateReverbDecayEstimator, earlyReverbEstimator
      ensures Valid() && blockToAnalyze == 0 && lateReverbDecayEstimator.N == 0 && earlyReverbEstimator.values == []
      ensures lateReverbStart == 0 == lateReverbEnd && estimationRegionCandidateSize == 0 && !estimationRegionIdentified
      ensures smoothingConstant == 0.0 && decay == old(decay)
    {
      earlyReverbEstimator.Reset();
      lateReverbDecayEstimator.Reset(0);
      blockToAnalyze := 0;
      estimationRegionCandidateSize := 0;
      estimationRegionIdentified := false;
      smoothingConstant := 0.0;
      lateReverbStart := 0;
      lateReverbEnd := 0;
    }

    /** Collects the points of the block if it is in a region of interest. */
    method AnalyzeFilter(block: Analysis)
      requires Valid() && blockToAnalyze < filterLengthBlocks && |block.log2| == BLOCK
      modifies this, lateReverbDecayEstimator, earlyReverbEstimator
      ensures Valid() && blockToAnalyze == old(blockToAnalyze) + 1
      ensures lateReverbStart == old(lateReverbStart) && lateReverbEnd == old(lateReverbEnd)
      ensures earlyReverbEstimator.values ==
              if old(blockToAnalyze) <= lateReverbEnd
              then old(earlyReverbEstimator.values) + block.log2 else old(earlyReverbEstimator.values)
      ensures lateReverbDecayEstimator.values ==
              if lateReverbStart <= old(blockToAnalyze) <= lateReverbEnd
              then old(lateReverbDecayEstimator.values) + block.log2 else old(lateReverbDecayEstimator.values)
      ensures estimationRegionIdentified
              == (old(estimationRegionIdentified) || block.adapting || !block.aboveNoiseFloor)
      ensures estimationRegionCandidateSize
           == old(estimationRegionCandidateSize) + if estimationRegionIdentified then 0 else 1
      ensures decay == old(decay) && smoothingConstant == old(smoothingConstant)
    {
      hide LateReverbLinearRegressor.Valid, EarlyReverbLengthEstimator.Valid;
      IdentifyRegion(block);
      if blockToAnalyze <= lateReverbEnd {
        if blockToAnalyze >= lateReverbStart {
          AccumulateLate(block.log2);
        }
        AccumulateEarly(block.log2);
      }
      blockToAnalyze := blockToAnalyze + 1;
    }

    /** The candidate region grows until a block that is adapting or in the noise ends it. */
    method IdentifyRegion(block: Analysis)
      modifies this`estimationRegionIdentified, this`estimationRegionCandidateSize
      ensures estimationRegionIdentified
              == (old(estimationRegionIdentified) || block.adapting || !block.aboveNoiseFloor)
      ensures estimationRegionCandidateSize
           == old(estimationRegionCandidateSize) + if estimationRegionIdentified then 0 else 1
    {
      estimationRegionIdentified := estimationRegionIdentified || block.adapting || !block.aboveNoiseFloor;
      if !estimationRegionIdentified {
        estimationRegionCandidateSize := estimationRegionCandidateSize + 1;
      }
    }

    method AccumulateLate(log2: seq<real>)
      requires lateReverbDecayEstimator.Valid()
      modifies lateReverbDecayEstimator
      ensures lateReverbDecayEstimator.Valid() && lateReverbDecayEstimator.N == old(lateReverbDecayEstimator.N)
      ensures lateReverbDecayEstimator.values == old(lateReverbDecayEstimator.values) + log2
      ensures lateReverbDecayEstimator.n == old(lateReverbDecayEstimator.n) + |log2|
    {
      ghost var was := lateReverbDecayEstimator.values;
      for k := 0 to |log2|
        invariant lateReverbDecayEstimator.Valid() && lateReverbDecayEstimator.N == old(lateReverbDecayEstimator.N)
        invariant lateReverbDecayEstimator.values == was + log2[..k]
      {
        lateReverbDecayEstimator.Accumulate(log2[k]);
        assert was + log2[..k + 1] == (was + log2[..k]) + [log2[k]];
      }
      assert log2[..|log2|] == log2;
    }

    method AccumulateEarly(log2: seq<real>)
      requires earlyReverbEstimator.Valid() && earlyReverbEstimator.coefficientsCounter == 0 && |log2| == BLOCK
      requires earlyReverbEstimator.blockCounter + 1 < |earlyReverbEstimator.numerators| + BLOCKS_PER_SECTION
      modifies earlyReverbEstimator
      ensures earlyReverbEstimator.Valid() && earlyReverbEstimator.coefficientsCounter == 0
      ensures |earlyReverbEstimator.numerators| == |old(earlyReverbEstimator.numerators)|
      ensures earlyReverbEstimator.values == old(earlyReverbEstimator.values) + log2
      ensures earlyReverbEstimator.blockCounter == old(earlyReverbEstimator.blockCounter) + 1
    {
      ghost var was, n := earlyReverbEstimator.values, |earlyReverbEstimator.numerators|;
      ghost var b := earlyReverbEstimator.blockCounter;
      for k := 0 to |log2|
        invariant earlyReverbEstimator.Valid() && |earlyReverbEstimator.numerators| == n
        invariant earlyReverbEstimator.values == was + log2[..k]
      {
        assert BLOCK * earlyReverbEstimator.blockCounter + earlyReverbEstimator.coefficientsCounter == BLOCK * b + k;
        earlyReverbEstimator.Accumulate(log2[k], smoothingConstant);
        assert was + log2[..k + 1] == (was + log2[..k]) + [log2[k]];
      }
      assert log2[..|log2|] == log2;
    }

    /** The region of the late reverb, if it is long enough for an estimate. */
    method PlanLateRegion(start: nat, size: int, end: int)
      modifies this`lateReverbStart, this`lateReverbEnd, lateReverbDecayEstimator
      ensures lateReverbDecayEstimator.Valid() && lateReverbDecayEstimator.values == []
              && lateReverbDecayEstimator.n == 0
      ensures if size >= 5
              then lateReverbDecayEstimator.N == size * BLOCK && lateReverbStart == start && lateReverbEnd == end
              else lateReverbDecayEstimator.N == 0 && lateReverbStart == 0 == lateReverbEnd
    {
      if size >= 5 {
        lateReverbDecayEstimator.Reset(size * BLOCK);
        lateReverbStart := start;
        lateReverbEnd := end;
      } else {
        lateReverbDecayEstimator.Reset(0);
        lateReverbStart := 0;
        lateReverbEnd := 0;
      }
    }

    /** A new decay, if there is enough for an estimate. */
    method UpdateDecay(sizeLateReverb: int, validFilter: bool) returns (slope: Option<real>)
      requires lateReverbDecayEstimator.Valid()
      modifies this`decay
      ensures slope.Some? <==> sizeLateReverb >= 5 && validFilter && lateReverbDecayEstimator.EstimateAvailable()
      ensures slope.Some? ==>
                && |lateReverbDecayEstimator.values| == lateReverbDecayEstimator.N >= 2
                && SlopeOf(lateReverbDecayEstimator.values, slope.value)
      ensures decay == if slope.Some? then SmoothedDecay(old(decay), smoothingConstant,
                                                         pow2(Times(slope.value, BLOCK as real))) else old(decay)
    {
      hide SmoothedDecay, SymmetricArithmeticSum, Numerator, Affine, Times;
      slope := None;
      if sizeLateReverb >= 5 {
        if validFilter && lateReverbDecayEstimator.EstimateAvailable() {
          var s := lateReverbDecayEstimator.Estimate();
          assert SlopeOf(lateReverbDecayEstimator.values, s);
          slope := Some(s);
          decay := SmoothedDecay(decay, smoothingConstant, pow2(Times(s, BLOCK as real)));
        }
      }
    }

    /** Evaluates the analyzed filter and plans the next analysis. */
    method EstimateDecay(peakBlock: nat, verdict: Verdict)
      returns (slope: Option<real>, ghost sizeEarlyReverb: nat, ghost tail: real)
      requires Valid() && 0 < peakBlock <= filterLengthBlocks - EARLY_REVERB_MIN_SIZE_BLOCKS - 1
      modifies this, lateReverbDecayEstimator, earlyReverbEstimator
      ensures Valid() && blockToAnalyze == peakBlock + EARLY_REVERB_MIN_SIZE_BLOCKS
      ensures old(earlyReverbEstimator.EarlySize(sizeEarlyReverb, tail, verdict.pastEnd))
      ensures var sizeLate := old(estimationRegionCandidateSize) - sizeEarlyReverb;
              if sizeLate >= 5
              then lateReverbDecayEstimator.N == sizeLate * BLOCK
                   && lateReverbStart == blockToAnalyze + sizeEarlyReverb
                   && lateReverbEnd - lateReverbStart + 1 == sizeLate
              else lateReverbDecayEstimator.N == 0 && lateReverbStart == 0 == lateReverbEnd
      ensures lateReverbDecayEstimator.values == [] && earlyReverbEstimator.values == []
      ensures estimationRegionIdentified == !(verdict.validFilter && verdict.sufficientReverbDecay)
      ensures estimationRegionCandidateSize == 0 && smoothingConstant == 0.0
      ensures decay == if slope.Some? then SmoothedDecay(old(decay), old(smoothingConstant),
                                                         pow2(Times(slope.value, BLOCK as real))) else old(decay)
      ensures slope.Some? <==> old(estimationRegionCandidateSize) - sizeEarlyReverb >= 5 && verdict.validFilter
                               && old(lateReverbDecayEstimator.EstimateAvailable())
      ensures slope.Some? ==>
                |old(lateReverbDecayEstimator.values)| == old(lateReverbDecayEstimator.N) >= 2
                && SlopeOf(old(lateReverbDecayEstimator.values), slope.value)
    {
      hide LateReverbLinearRegressor.Valid, EarlyReverbLengthEstimator.Valid, EarlyReverbLengthEstimator.EarlySize;
      hide SmoothedDecay, SymmetricArithmeticSum, Numerator, Affine, Times;
      blockToAnalyze := Min(peakBlock + EARLY_REVERB_MIN_SIZE_BLOCKS, filterLengthBlocks);
      var early;
      early, tail := earlyReverbEstimator.Estimate(verdict.pastEnd);
      sizeEarlyReverb := early;
      var sizeLateReverb := Max(estimationRegionCandidateSize - early, 0);
      hide SlopeOf;
      slope := UpdateDecay(sizeLateReverb, verdict.validFilter);
      PlanLateRegion(peakBlock + EARLY_REVERB_MIN_SIZE_BLOCKS + early, sizeLateReverb,
                     blockToAnalyze + estimationRegionCandidateSize - 1);
      estimationRegionIdentified := !(verdict.validFilter && verdict.sufficientReverbDecay);
      estimationRegionCandidateSize := 0;
      smoothingConstant := 0.0;
      earlyReverbEstimator.Reset();
    }

    ghost predicate DecayInRange()
      reads this
    {
      MIN_DECAY <= decay <= MAX_DECAY && 0.0 <= smoothingConstant <= 1.0
    }

    /** One call: every index into the sections stays inside them, whatever the calls were before. */
    method Update(filterSize: nat, filterQuality: Option<real>, filterDelayBlocks: int, usableLinearFilter: bool,
                  stationarySignal: bool, block: Analysis, verdict: Verdict)
      requires Valid() && |block.log2| == BLOCK
      modifies this, lateReverbDecayEstimator, earlyReverbEstimator
      ensures Valid()
      ensures stationarySignal ==> unchanged(this, lateReverbDecayEstimator, earlyReverbEstimator)
      ensures var feasible := 0 < filterDelayBlocks <= filterLengthBlocks - 4 && usableLinearFilter
                              && filterSize == 64 * filterLengthBlocks;
              && (!stationarySignal && !feasible ==>
                    blockToAnalyze == 0 && lateReverbDecayEstimator.N == 0 && earlyReverbEstimator.values == [])
              && (!stationarySignal && feasible && useAdaptiveEchoDecay
                  && (old(smoothingConstant) > 0.0 || (filterQuality.Some? && filterQuality.value > 0.0)) ==>
                    blockToAnalyze == if old(blockToAnalyze) < filterLengthBlocks then old(blockToAnalyze) + 1
                                      else filterDelayBlocks + 3)
      ensures old(DecayInRange()) && (filterQuality.Some? ==> filterQuality.value <= 5.0) ==>
                DecayInRange() && 0.97 * old(decay) <= decay
    {
      hide LateReverbLinearRegressor.Valid, EarlyReverbLengthEstimator.Valid, SmoothedDecay, TargetDecay, SlopeOf;
      if stationarySignal {
        return;
      }
      var estimationFeasible := filterDelayBlocks <= filterLengthBlocks - EARLY_REVERB_MIN_SIZE_BLOCKS - 1;
      estimationFeasible := estimationFeasible && filterSize == filterLengthCoefficients;
      estimationFeasible := estimationFeasible && filterDelayBlocks > 0;
      estimationFeasible := estimationFeasible && usableLinearFilter;
      if !estimationFeasible {
        ResetDecayEstimation();
        return;
      }
      if !useAdaptiveEchoDecay {
        return;
      }
      var newSmoothing := if filterQuality.Some? then filterQuality.value * 0.2 else 0.0;
      smoothingConstant := if newSmoothing > smoothingConstant then newSmoothing else smoothingConstant;
      if smoothingConstant == 0.0 {
        return;
      }
      if blockToAnalyze < filterLengthBlocks {
        AnalyzeFilter(block);
      } else {
        ghost var before, smoothing := decay, smoothingConstant;
        var slope, early, tail := EstimateDecay(filterDelayBlocks, verdict);
        if slope.Some? && 0.0 <= smoothing <= 1.0 {
          SmoothedDecayInRange(before, smoothing, pow2(Times(slope.value, BLOCK as real)));
        }
      }
    }

    /** An estimate is there exactly when the whole late region has been analyzed. */
    lemma AvailableWhenAnalyzed()
      requires Valid() && lateReverbDecayEstimator.N > 0
      ensures lateReverbDecayEstimator.EstimateAvailable() <==> blockToAnalyze > lateReverbEnd
    {
    }
  }

  /** The slope of the direct centred regression over the points. */
  ghost predicate SlopeOf(values: seq<real>, slope: real) {
    && Times(slope, SymmetricArithmeticSum(|values|)) == Numerator(values)
    && forall a: real, b: real :: values == Affine(a, b, |values|) ==> slope == b
  }
}
