/** The matched filter over exact reals: what it computes, the scalar loop and the four-lane loop. */
module MatchedFilterSpec {
  import opened Circular
  import opened Products

  /** Filter times the circular stretch of the buffer that starts at an index. */
  function Correlation(h: seq<real>, x: seq<real>, start: nat, n: nat): real
    requires start < |x| && n <= |h|
  {
    if n == 0 then 0.0 else Correlation(h, x, start, n - 1) + Times(h[n - 1], x[Advance(start, |x|, n - 1)])
  }

  function Power(x: seq<real>, start: nat, n: nat): real
    requires start < |x|
  {
    if n == 0 then 0.0 else Power(x, start, n - 1) + Times(x[Advance(start, |x|, n - 1)], x[Advance(start, |x|, n - 1)])
  }

  /** The filter moved by a multiple of the stretch. */
  function Moved(h: seq<real>, x: seq<real>, start: nat, alpha: real): (r: seq<real>)
    requires start < |x|
    ensures |r| == |h|
  {
    seq(|h|, k requires 0 <= k < |h| => MovedAt(h[k], x, start, alpha, k))
  }

  function MovedAt(v: real, x: seq<real>, start: nat, alpha: real, k: nat): real
    requires start < |x|
  {
    v + Times(alpha, x[Advance(start, |x|, k)])
  }

  datatype Settings = Settings(threshold: real, smoothing: real)

  datatype State = State(h: seq<real>, start: nat, updated: bool, errorSum: real)

  function Error(s: State, x: seq<real>, y: real): real
    requires s.start < |x|
  {
    y - Correlation(s.h, x, s.start, |s.h|)
  }

  /** The excitation is strong enough and the capture signal is not clipped. */
  predicate Adapts(s: State, x: seq<real>, y: real, c: Settings)
    requires s.start < |x|
  {
    Power(x, s.start, |s.h|) > c.threshold && -32000.0 < y < 32000.0
  }

  function Quotient(a: real, b: real): real
    requires b != 0.0
  {
    a / b
  }

  function Step(s: State, x: seq<real>, y: real, c: Settings): (r: State)
    requires s.start < |x| && c.threshold >= 0.0
    ensures |r.h| == |s.h| && r.start < |x|
  {
    var e := Error(s, x, y);
    State(if Adapts(s, x, y, c)
          then Moved(s.h, x, s.start, Quotient(Times(c.smoothing, e), Power(x, s.start, |s.h|))) else s.h,
          if s.start > 0 then s.start - 1 else |x| - 1,
          s.updated || Adapts(s, x, y, c),
          s.errorSum + Times(e, e))
  }

  function Steps(s: State, x: seq<real>, y: seq<real>, c: Settings): (r: State)
    requires s.start < |x| && c.threshold >= 0.0
    ensures |r.h| == |s.h| && r.start < |x|
  {
    if y == [] then s else Step(Steps(s, x, y[..|y| - 1], c), x, y[|y| - 1], c)
  }

  lemma {:induction false} MovedCorrelation(h: seq<real>, x: seq<real>, start: nat, alpha: real, n: nat)
    requires start < |x| && n <= |h|
    ensures Correlation(Moved(h, x, start, alpha), x, start, n)
         == Correlation(h, x, start, n) + Times(alpha, Power(x, start, n))
  {
    MovedTerm(0.0, alpha, 0.0, 0.0);
    hide Times, Advance;
    if n > 0 {
      MovedCorrelation(h, x, start, alpha, n - 1);
      var v := x[Advance(start, |x|, n - 1)];
      MovedTerm(h[n - 1], alpha, v, Power(x, start, n - 1));
    }
  }

  lemma MovedTerm(h: real, alpha: real, v: real, p: real)
    ensures Times(h + Times(alpha, v), v) + Times(alpha, p) == Times(h, v) + Times(alpha, p + Times(v, v))
    ensures Times(alpha, 0.0) == 0.0
  {
    assert (h + alpha * v) * v == h * v + alpha * v * v;
    assert alpha * (p + v * v) == alpha * p + alpha * (v * v);
  }

  lemma QuotientTimes(a: real, b: real)
    requires b != 0.0
    ensures Times(Quotient(a, b), b) == a
  {
  }

  /** An adapting step leaves, for the sample it adapted to, the fraction 1 - smoothing of the error. */
  lemma PosteriorError(s: State, x: seq<real>, y: real, c: Settings)
    requires s.start < |x| && c.threshold >= 0.0 && Adapts(s, x, y, c)
    ensures y - Correlation(Step(s, x, y, c).h, x, s.start, |s.h|) == Times(1.0 - c.smoothing, Error(s, x, y))
  {
    hide Times, Power, Correlation, Quotient, Moved;
    var e := Error(s, x, y);
    var p := Power(x, s.start, |s.h|);
    MovedCorrelation(s.h, x, s.start, Quotient(Times(c.smoothing, e), p), |s.h|);
    QuotientTimes(Times(c.smoothing, e), p);
    Rest(c.smoothing, e);
  }

  /** Every coefficient moves along the sample it meets, by the same multiple. */
  lemma AdaptedFilter(s: State, x: seq<real>, y: real, c: Settings, k: nat)
    requires s.start < |x| && c.threshold >= 0.0 && k < |s.h|
    requires Power(x, s.start, |s.h|) > c.threshold && -32000.0 < y < 32000.0
    ensures var alpha := c.smoothing * (y - Correlation(s.h, x, s.start, |s.h|)) / Power(x, s.start, |s.h|);
            Step(s, x, y, c).h[k] == s.h[k] + alpha * x[(s.start + k) % |x|]
  {
    hide Step, Power, Correlation, Quotient, Times, MovedAt;
    var p, e := Power(x, s.start, |s.h|), Error(s, x, y);
    StepFilter(s, x, y, c, k);
    MovedSample(s.h[k], x, s.start, Quotient(Times(c.smoothing, e), p), k);
    QuotientOfProduct(c.smoothing, e, p);
  }

  lemma MovedSample(v: real, x: seq<real>, start: nat, alpha: real, k: nat)
    requires start < |x|
    ensures MovedAt(v, x, start, alpha, k) == v + alpha * x[(start + k) % |x|]
  {
    AdvanceIsRemainder(start, |x|, k);
    hide Advance;
  }

  lemma QuotientOfProduct(a: real, b: real, c: real)
    requires c != 0.0
    ensures Quotient(Times(a, b), c) == a * b / c
  {
  }

  lemma StepFilter(s: State, x: seq<real>, y: real, c: Settings, k: nat)
    requires s.start < |x| && c.threshold >= 0.0 && k < |s.h| && Adapts(s, x, y, c)
    ensures Step(s, x, y, c).h[k]
         == MovedAt(s.h[k], x, s.start, Quotient(Times(c.smoothing, Error(s, x, y)), Power(x, s.start, |s.h|)), k)
  {
    hide Times, Power, Correlation, Advance, Quotient, Error, MovedAt;
  }

  lemma Rest(a: real, b: real)
    ensures Times(1.0 - a, b) == b - Times(a, b)
    ensures Times(b, b) >= 0.0
  {
  }

  ghost predicate AdaptsAt(s: State, x: seq<real>, y: seq<real>, c: Settings, i: nat)
    requires s.start < |x| && c.threshold >= 0.0 && i < |y|
  {
    Adapts(Steps(s, x, y[..i], c), x, y[i], c)
  }

  lemma AdaptsAtPrefix(s: State, x: seq<real>, y: seq<real>, c: Settings, k: nat)
    requires s.start < |x| && c.threshold >= 0.0 && k <= |y|
    ensures forall i: nat :: i < k ==> AdaptsAt(s, x, y[..k], c, i) == AdaptsAt(s, x, y, c, i)
  {
    forall i: nat | i < k
      ensures AdaptsAt(s, x, y[..k], c, i) == AdaptsAt(s, x, y, c, i)
    {
      assert y[..k][..i] == y[..i];
      hide Steps, Adapts;
    }
  }

  /** The flag tells exactly whether some sample made the filter adapt: one within the range of the capture signal, met
      by a stretch of more power than the threshold. */
  lemma FlagIsExact(s: State, x: seq<real>, y: seq<real>, c: Settings)
    requires s.start < |x| && c.threshold >= 0.0
    ensures Steps(s, x, y, c).updated <==>
            s.updated
            || exists i: nat :: i < |y| && -32000.0 < y[i] < 32000.0
                                && Power(x, Steps(s, x, y[..i], c).start, |s.h|) > c.threshold
  {
    FlagTells(s, x, y, c);
    hide Steps, Power;
    forall i: nat | i < |y|
      ensures AdaptsAt(s, x, y, c, i) <==>
              -32000.0 < y[i] < 32000.0 && Power(x, Steps(s, x, y[..i], c).start, |s.h|) > c.threshold
    {
    }
  }

  lemma {:induction false} FlagTells(s: State, x: seq<real>, y: seq<real>, c: Settings)
    requires s.start < |x| && c.threshold >= 0.0
    ensures Steps(s, x, y, c).updated <==> s.updated || exists i: nat :: i < |y| && AdaptsAt(s, x, y, c, i)
  {
    if y != [] {
      var k := |y| - 1;
      FlagTells(s, x, y[..k], c);
      AdaptsAtPrefix(s, x, y, c, k);
      var t := Steps(s, x, y[..k], c);
      assert Steps(s, x, y, c).updated == (t.updated || Adapts(t, x, y[k], c));
      assert AdaptsAt(s, x, y, c, k) == Adapts(t, x, y[k], c);
      hide Steps, Adapts, AdaptsAt;
      if exists i: nat :: i < |y| && AdaptsAt(s, x, y, c, i) {
        var i: nat :| i < |y| && AdaptsAt(s, x, y, c, i);
        assert i < k ==> AdaptsAt(s, x, y[..k], c, i);
      }
    }
  }

  /** Without the flag the filter is unchanged, and the error sum only grows. */
  lemma {:induction false} UnflaggedIsUnchanged(s: State, x: seq<real>, y: seq<real>, c: Settings)
    requires s.start < |x| && c.threshold >= 0.0
    ensures !Steps(s, x, y, c).updated ==> Steps(s, x, y, c).h == s.h && !s.updated
    ensures Steps(s, x, y, c).errorSum >= s.errorSum
  {
    if y != [] {
      UnflaggedIsUnchanged(s, x, y[..|y| - 1], c);
      Rest(0.0, Error(Steps(s, x, y[..|y| - 1], c), x, y[|y| - 1]));
      hide Times, Power, Correlation, Quotient, Moved, Error;
    }
  }

  function SquareSum(s: seq<real>): real {
    if s == [] then 0.0 else SquareSum(s[..|s| - 1]) + s[|s| - 1] * s[|s| - 1]
  }

  lemma {:induction false} SquareSumIsPositive(s: seq<real>)
    ensures SquareSum(s) >= 0.0
    ensures SquareSum(s) == 0.0 <==> forall i: nat :: i < |s| ==> s[i] == 0.0
  {
    if s != [] {
      var k := |s| - 1;
      var r := s[..k];
      SquareSumIsPositive(r);
      SquareSumNext(s);
      SquareIsPositive(s[k]);
      hide SquareSum, Times;
      assert forall i: nat :: i < |s| ==> s[i] == if i < k then r[i] else s[k];
    }
  }

  lemma SquareSumNext(s: seq<real>)
    requires s != []
    ensures SquareSum(s) == SquareSum(s[..|s| - 1]) + Times(s[|s| - 1], s[|s| - 1])
  {
  }

  lemma Signs(a: real, b: real)
    ensures a > 0.0 && b > 0.0 ==> Times(a, b) > 0.0
    ensures Times(-a, -b) == Times(a, b) && Times(0.0, b) == 0.0
  {
  }

  lemma SquareIsPositive(v: real)
    ensures Times(v, v) >= 0.0 && (Times(v, v) == 0.0 <==> v == 0.0)
  {
    hide Times;
    Signs(v, v);
    Signs(-v, -v);
  }

  /** What each sample differs by from the output of the filter that meets it. */
  ghost predicate AreErrors(errors: seq<real>, s: State, x: seq<real>, y: seq<real>, c: Settings)
    requires s.start < |x| && c.threshold >= 0.0
  {
    |errors| == |y| && forall i: nat :: i < |y| ==> errors[i] == ErrorBefore(s, x, y, c, i)
  }

  function ErrorBefore(s: State, x: seq<real>, y: seq<real>, c: Settings, i: nat): real
    requires s.start < |x| && c.threshold >= 0.0 && i < |y|
  {
    Error(Steps(s, x, y[..i], c), x, y[i])
  }

  lemma {:induction false} ErrorsAddUp(s: State, x: seq<real>, y: seq<real>, c: Settings) returns (errors: seq<real>)
    requires s.start < |x| && c.threshold >= 0.0
    ensures AreErrors(errors, s, x, y, c) && Steps(s, x, y, c).errorSum == s.errorSum + SquareSum(errors)
  {
    if y == [] {
      errors := [];
    } else {
      hide *;
      var k := |y| - 1;
      var before := ErrorsAddUp(s, x, y[..k], c);
      errors := before + [ErrorBefore(s, x, y, c, k)];
      ErrorsSnoc(before, s, x, y, c);
      ErrorSumNext(s, x, y, c);
      SquareSumNext(errors);
      assert errors[..|errors| - 1] == before;
    }
  }

  lemma ErrorsSnoc(before: seq<real>, s: State, x: seq<real>, y: seq<real>, c: Settings)
    requires s.start < |x| && c.threshold >= 0.0 && y != [] && AreErrors(before, s, x, y[..|y| - 1], c)
    ensures AreErrors(before + [ErrorBefore(s, x, y, c, |y| - 1)], s, x, y, c)
  {
    hide ErrorBefore;
    ErrorsBefore(s, x, y, c);
  }

  lemma ErrorSumNext(s: State, x: seq<real>, y: seq<real>, c: Settings)
    requires s.start < |x| && c.threshold >= 0.0 && y != []
    ensures Steps(s, x, y, c).errorSum == Steps(s, x, y[..|y| - 1], c).errorSum
                                        + Times(ErrorBefore(s, x, y, c, |y| - 1), ErrorBefore(s, x, y, c, |y| - 1))
  {
    hide *;
    var k := |y| - 1;
    var t := Steps(s, x, y[..k], c);
    StepsNext(s, x, y, c);
    StepErrorSum(t, x, y[k], c);
    LastError(s, x, y, c);
  }

  lemma StepsNext(s: State, x: seq<real>, y: seq<real>, c: Settings)
    requires s.start < |x| && c.threshold >= 0.0 && y != []
    ensures Steps(s, x, y, c) == Step(Steps(s, x, y[..|y| - 1], c), x, y[|y| - 1], c)
  {
    hide Step;
  }

  lemma LastError(s: State, x: seq<real>, y: seq<real>, c: Settings)
    requires s.start < |x| && c.threshold >= 0.0 && y != []
    ensures ErrorBefore(s, x, y, c, |y| - 1) == Error(Steps(s, x, y[..|y| - 1], c), x, y[|y| - 1])
  {
    hide Steps, Error;
  }

  lemma StepErrorSum(s: State, x: seq<real>, y: real, c: Settings)
    requires s.start < |x| && c.threshold >= 0.0
    ensures Step(s, x, y, c).errorSum == s.errorSum + Times(Error(s, x, y), Error(s, x, y))
  {
    hide Times, Error, Adapts, Moved, Quotient;
  }

  lemma ErrorsBefore(s: State, x: seq<real>, y: seq<real>, c: Settings)
    requires s.start < |x| && c.threshold >= 0.0 && y != []
    ensures forall i: nat :: i < |y| - 1 ==>
              ErrorBefore(s, x, y[..|y| - 1], c, i) == ErrorBefore(s, x, y, c, i)
  {
    hide Steps, Error;
    forall i: nat | i < |y| - 1
      ensures ErrorBefore(s, x, y[..|y| - 1], c, i) == ErrorBefore(s, x, y, c, i)
    {
      assert y[..|y| - 1][..i] == y[..i];
    }
  }

  /** The error sum grows by the squares of what each sample differs by from the output of the filter before it, and so
      stays the same exactly when the filter predicts every sample. */
  lemma ErrorSumIs(s: State, x: seq<real>, y: seq<real>, c: Settings) returns (errors: seq<real>)
    requires s.start < |x| && c.threshold >= 0.0
    ensures |errors| == |y| && forall i: nat :: i < |y| ==>
              var t := Steps(s, x, y[..i], c); errors[i] == y[i] - Correlation(t.h, x, t.start, |s.h|)
    ensures Steps(s, x, y, c).errorSum == s.errorSum + SquareSum(errors)
    ensures Steps(s, x, y, c).errorSum == s.errorSum <==> forall i: nat :: i < |y| ==> errors[i] == 0.0
  {
    hide Steps, Correlation, SquareSum;
    errors := ErrorsAddUp(s, x, y, c);
    SquareSumIsPositive(errors);
  }

  /** A filter that is zero and never adapts leaves the energy of the capture signal. */
  lemma {:induction false} ErrorSumOfZero(s: State, x: seq<real>, y: seq<real>, c: Settings)
    requires s.start < |x| && c.threshold >= 0.0 && !Steps(s, x, y, c).updated
    requires forall k: nat :: k < |s.h| ==> s.h[k] == 0.0
    ensures Steps(s, x, y, c).errorSum == s.errorSum + SquareSum(y)
  {
    if y != [] {
      var k := |y| - 1;
      ErrorSumOfZero(s, x, y[..k], c);
      UnflaggedIsUnchanged(s, x, y[..k], c);
      var t := Steps(s, x, y[..k], c);
      CorrelationOfZero(s.h, x, t.start, |s.h|);
      SquareSumNext(y);
      hide Times, Power, Correlation, Quotient, Moved, SquareSum;
    }
  }

  lemma {:induction false} CorrelationOfZero(h: seq<real>, x: seq<real>, start: nat, n: nat)
    requires start < |x| && n <= |h| && forall k: nat :: k < n ==> h[k] == 0.0
    ensures Correlation(h, x, start, n) == 0.0
  {
    if n > 0 {
      CorrelationOfZero(h, x, start, n - 1);
    }
  }

  /** Changing one coefficient changes the output by that much of the sample it meets: with the zero filter, this
      determines every output. */
  lemma {:induction false} CorrelationChanges(h: seq<real>, x: seq<real>, start: nat, n: nat, k: nat, d: real)
    requires start < |x| && n <= |h| && k < |h|
    ensures Correlation(h[k := h[k] + d], x, start, n)
         == Correlation(h, x, start, n) + if k < n then d * x[(start + k) % |x|] else 0.0
  {
    if n > 0 {
      CorrelationChanges(h, x, start, n - 1, k, d);
      AdvanceIsRemainder(start, |x|, n - 1);
      hide Correlation, Advance;
      if k == n - 1 {
        var v := x[(start + k) % |x|];
        assert (h[k] + d) * v == h[k] * v + d * v;
      }
    }
  }

  /** Each sample that the filter covers adds its square to the power. */
  lemma PowerGrows(x: seq<real>, start: nat, n: nat)
    requires start < |x|
    ensures var v := x[(start + n) % |x|]; Power(x, start, n + 1) == Power(x, start, n) + v * v
    ensures Power(x, start, 0) == 0.0
  {
    AdvanceIsRemainder(start, |x|, n);
  }

  /** After all samples the start index has gone back once for each. */
  lemma {:induction false} StartGoesBack(s: State, x: seq<real>, y: seq<real>, c: Settings)
    requires s.start < |x| && c.threshold >= 0.0
    ensures Advance(Steps(s, x, y, c).start, |x|, |y|) == s.start
  {
    if y != [] {
      var k := |y| - 1;
      StartGoesBack(s, x, y[..k], c);
      AdvanceFirst(Steps(s, x, y, c).start, |x|, k);
    }
  }

  lemma {:induction false} AdvanceFirst(i: nat, size: nat, steps: nat)
    requires i < size
    ensures Advance(i, size, steps + 1) == Advance(Next(i, size), size, steps)
  {
    if steps > 0 {
      AdvanceFirst(i, size, steps - 1);
    }
  }
}

module MatchedFilter {
  import opened Circular
  import opened Products
  import opened MatchedFilterSpec

  /** The scalar loops over the filter. */
  method Filter(x: seq<real>, h: array<real>, start: nat) returns (s: real, x2Sum: real)
    requires start < |x|
    ensures s == Correlation(h[..], x, start, h.Length) && x2Sum == Power(x, start, h.Length)
  {
    hide Times;
    s, x2Sum := 0.0, 0.0;
    var xIndex := start;
    for k := 0 to h.Length
      invariant xIndex == Advance(start, |x|, k)
      invariant s == Correlation(h[..], x, start, k) && x2Sum == Power(x, start, k)
    {
      x2Sum := x2Sum + Times(x[xIndex], x[xIndex]);
      s := s + Times(h[k], x[xIndex]);
      xIndex := if xIndex < |x| - 1 then xIndex + 1 else 0;
    }
  }

  method Move(x: seq<real>, h: array<real>, start: nat, alpha: real)
    requires start < |x|
    modifies h
    ensures h[..] == Moved(old(h[..]), x, start, alpha)
  {
    ghost var was := h[..];
    var xIndex := start;
    for k := 0 to h.Length
      invariant xIndex == Advance(start, |x|, k)
      invariant forall i: nat :: i < k ==> h[i] == MovedAt(was[i], x, start, alpha, i)
      invariant forall i: nat :: k <= i < h.Length ==> h[i] == was[i]
    {
      var v := h[k] + Times(alpha, x[xIndex]);
      assert v == MovedAt(was[k], x, start, alpha, k);
      xIndex := if xIndex < |x| - 1 then xIndex + 1 else 0;
      assert xIndex == Advance(start, |x|, k + 1);
      hide Times, Advance, MovedAt;
      h[k] := v;
    }
    hide MovedAt;
    assert h[..] == Moved(was, x, start, alpha);
  }

  method MatchedFilterCore(xStartIndex: nat, x2SumThreshold: real, smoothing: real, x: seq<real>, y: seq<real>,
                           h: array<real>, filtersUpdated: bool, errorSum: real)
    returns (filtersUpdated': bool, errorSum': real, ghost start': nat)
    requires xStartIndex < |x| && x2SumThreshold >= 0.0
    modifies h
    ensures State(h[..], start', filtersUpdated', errorSum')
         == Steps(State(old(h[..]), xStartIndex, filtersUpdated, errorSum), x, y, Settings(x2SumThreshold, smoothing))
  {
    ghost var first := State(h[..], xStartIndex, filtersUpdated, errorSum);
    ghost var c := Settings(x2SumThreshold, smoothing);
    filtersUpdated', errorSum' := filtersUpdated, errorSum;
    var start: nat := xStartIndex;
    for i := 0 to |y|
      invariant start < |x|
      invariant State(h[..], start, filtersUpdated', errorSum') == Steps(first, x, y[..i], c)
    {
      assert y[..i + 1][..i] == y[..i];
      var s, x2Sum := Filter(x, h, start);
      hide Times, Correlation, Power, Moved, Quotient;
      var e := y[i] - s;
      var saturation := y[i] >= 32000.0 || y[i] <= -32000.0;
      errorSum' := errorSum' + Times(e, e);
      if x2Sum > x2SumThreshold && !saturation {
        var alpha := Quotient(Times(smoothing, e), x2Sum);
        Move(x, h, start, alpha);
        filtersUpdated' := true;
      }
      start := if start > 0 then start - 1 else |x| - 1;
    }
    assert y[..|y|] == y;
    start' := start;
  }
}

/** The same filter with four lanes, walking the circular buffer in two straight chunks. */
module MatchedFilterLanes {
  import opened Circular
  import opened Products
  import opened SimdLanes
  import opened MatchedFilterSpec

  lemma FourTerms(h: seq<real>, x: seq<real>, start: nat, p: nat, offset: int)
    requires start < |x| && p + 4 <= |h| && Straight(start, |x|, p, 4, offset)
    ensures 0 <= p + offset && p + offset + 4 <= |x|
    ensures Correlation(h, x, start, p + 4) == Correlation(h, x, start, p) + Total(Mul(Load(h, p), Load(x, p + offset)))
    ensures Power(x, start, p + 4) == Power(x, start, p) + Total(Mul(Load(x, p + offset), Load(x, p + offset)))
  {
    hide Times;
    OneTerm(h, x, start, p, offset);
    OneTerm(h, x, start, p + 1, offset);
    OneTerm(h, x, start, p + 2, offset);
    OneTerm(h, x, start, p + 3, offset);
    hide Correlation, Power, Advance, Straight;
  }

  lemma OneTerm(h: seq<real>, x: seq<real>, start: nat, p: nat, offset: int)
    requires start < |x| && p < |h| && Advance(start, |x|, p) == p + offset
    ensures 0 <= p + offset < |x|
    ensures Correlation(h, x, start, p + 1) == Correlation(h, x, start, p) + Times(h[p], x[p + offset])
    ensures Power(x, start, p + 1) == Power(x, start, p) + Times(x[p + offset], x[p + offset])
  {
    hide Times;
  }

  /** One chunk of the two inner products: whole vectors, and then what is over one by one. */
  method FilterChunk(x: seq<real>, h: array<real>, ghost start: nat, hp: nat, xp: nat, limit: nat,
                     s128: Lanes, x2Sum128: Lanes, s: real, x2Sum: real)
    returns (hp': nat, s128': Lanes, x2Sum128': Lanes, s': real, x2Sum': real)
    requires start < |x| && hp + limit <= h.Length && Straight(start, |x|, hp, limit, xp - hp)
    requires Total(s128) + s == Correlation(h[..], x, start, hp)
    requires Total(x2Sum128) + x2Sum == Power(x, start, hp)
    ensures hp' == hp + limit
    ensures Total(s128') + s' == Correlation(h[..], x, start, hp')
    ensures Total(x2Sum128') + x2Sum' == Power(x, start, hp')
  {
    hide Times, Total, Correlation, Power, Mul, Load, Add, Straight;
    ghost var all := h[..];
    var limitBy4 := limit / 4;
    var xp' := xp;
    hp', s128', x2Sum128', s', x2Sum' := hp, s128, x2Sum128, s, x2Sum;
    var k := limitBy4;
    while k > 0
      invariant 0 <= k && hp' == hp + 4 * (limitBy4 - k) && xp' - hp' == xp - hp
      invariant Total(s128') + s' == Correlation(all, x, start, hp')
      invariant Total(x2Sum128') + x2Sum' == Power(x, start, hp')
    {
      SubStraight(start, |x|, hp, limit, xp - hp, hp', 4);
      FourTerms(all, x, start, hp', xp - hp);
      var xk := Load(x, xp');
      var hk := Load(h[..], hp');
      TotalAdd(x2Sum128', Mul(xk, xk));
      TotalAdd(s128', Mul(hk, xk));
      x2Sum128' := Add(x2Sum128', Mul(xk, xk));
      s128' := Add(s128', Mul(hk, xk));
      k, hp', xp' := k - 1, hp' + 4, xp' + 4;
    }
    k := limit - limitBy4 * 4;
    while k > 0
      invariant 0 <= k && hp' == hp + limit - k && xp' - hp' == xp - hp
      invariant Total(s128') + s' == Correlation(all, x, start, hp')
      invariant Total(x2Sum128') + x2Sum' == Power(x, start, hp')
    {
      SubStraight(start, |x|, hp, limit, xp - hp, hp', 1);
      OneTerm(all, x, start, hp', xp - hp);
      var xk := x[xp'];
      x2Sum' := x2Sum' + Times(xk, xk);
      s' := s' + Times(h[hp'], xk);
      k, hp', xp' := k - 1, hp' + 1, xp' + 1;
    }
  }

  /** The two inner products over the whole filter. */
  method FilterSse2(x: seq<real>, h: array<real>, start: nat) returns (s: real, x2Sum: real)
    requires start < |x| && h.Length <= |x|
    ensures s == Correlation(h[..], x, start, h.Length) && x2Sum == Power(x, start, h.Length)
  {
    var hSize := h.Length;
    var chunk1 := if hSize < |x| - start then hSize else |x| - start;
    var chunk2 := hSize - chunk1;
    var s128, x2Sum128 := Set1(0.0), Set1(0.0);
    ChunksAreStraight(start, |x|, hSize);
    s, x2Sum := 0.0, 0.0;
    var hp: nat := 0;
    assert Total(s128) + s == Correlation(h[..], x, start, 0) && Total(x2Sum128) + x2Sum == Power(x, start, 0);
    hide Times, Correlation, Power, Straight;
    hp, s128, x2Sum128, s, x2Sum := FilterChunk(x, h, start, hp, start, chunk1, s128, x2Sum128, s, x2Sum);
    if chunk2 == 0 {
      StraightNothing(start, |x|, hp, 0 - hp);
    }
    hp, s128, x2Sum128, s, x2Sum := FilterChunk(x, h, start, hp, 0, chunk2, s128, x2Sum128, s, x2Sum);
    x2Sum := x2Sum + (x2Sum128.v0 + x2Sum128.v1 + x2Sum128.v2 + x2Sum128.v3);
    s := s + (s128.v0 + s128.v1 + s128.v2 + s128.v3);
  }

  lemma MovedStraight(v: real, x: seq<real>, start: nat, alpha: real, k: nat, offset: int)
    requires start < |x| && Advance(start, |x|, k) == k + offset
    ensures 0 <= k + offset < |x| && MovedAt(v, x, start, alpha, k) == v + Times(alpha, x[k + offset])
  {
  }

  /** Which part of the filter has been moved. */
  ghost predicate MovedUpTo(h: seq<real>, was: seq<real>, x: seq<real>, start: nat, alpha: real, n: nat)
    requires start < |x|
  {
    && |h| == |was|
    && (forall k: nat :: k < n && k < |was| ==> h[k] == MovedAt(was[k], x, start, alpha, k))
    && (forall k: nat :: n <= k < |was| ==> h[k] == was[k])
  }

  lemma MovedUpToNext(h: seq<real>, was: seq<real>, x: seq<real>, start: nat, alpha: real, n: nat)
    requires start < |x| && n < |h| && MovedUpTo(h, was, x, start, alpha, n)
    ensures h[n] == was[n] && MovedUpTo(h[n := MovedAt(was[n], x, start, alpha, n)], was, x, start, alpha, n + 1)
  {
    hide MovedAt;
  }

  method MoveVector(x: seq<real>, h: array<real>, ghost was: seq<real>, ghost start: nat, hp: nat, xp: nat, alpha: real)
    requires start < |x| && hp + 4 <= h.Length && Straight(start, |x|, hp, 4, xp - hp)
    requires MovedUpTo(h[..], was, x, start, alpha, hp)
    modifies h
    ensures MovedUpTo(h[..], was, x, start, alpha, hp + 4)
  {
    MovedUpToFour(h[..], was, x, start, alpha, hp, xp - hp);
    hide Times, MovedUpTo;
    var hk := Load(h[..], hp);
    var xk := Load(x, xp);
    var alphaX := Mul(Set1(alpha), xk);
    hk := Add(hk, alphaX);
    ghost var before := h[..];
    h[hp], h[hp + 1], h[hp + 2], h[hp + 3] := hk.v0, hk.v1, hk.v2, hk.v3;
    assert h[..] == before[hp := hk.v0][hp + 1 := hk.v1][hp + 2 := hk.v2][hp + 3 := hk.v3];
  }

  lemma MovedUpToFour(h: seq<real>, was: seq<real>, x: seq<real>, start: nat, alpha: real, n: nat, offset: int)
    requires start < |x| && n + 4 <= |h| && Straight(start, |x|, n, 4, offset) && MovedUpTo(h, was, x, start, alpha, n)
    ensures 0 <= n + offset && n + offset + 4 <= |x|
    ensures MovedUpTo(h[n := h[n] + Times(alpha, x[n + offset])]
                      [n + 1 := h[n + 1] + Times(alpha, x[n + 1 + offset])]
                      [n + 2 := h[n + 2] + Times(alpha, x[n + 2 + offset])]
                      [n + 3 := h[n + 3] + Times(alpha, x[n + 3 + offset])], was, x, start, alpha, n + 4)
  {
    MovedStraight(h[n], x, start, alpha, n, offset);
    MovedStraight(h[n + 1], x, start, alpha, n + 1, offset);
    MovedStraight(h[n + 2], x, start, alpha, n + 2, offset);
    MovedStraight(h[n + 3], x, start, alpha, n + 3, offset);
    hide Times, MovedAt, MovedUpTo, Straight;
    MovedUpToNext(h, was, x, start, alpha, n);
    var a := h[n := MovedAt(was[n], x, start, alpha, n)];
    MovedUpToNext(a, was, x, start, alpha, n + 1);
    var b := a[n + 1 := MovedAt(was[n + 1], x, start, alpha, n + 1)];
    MovedUpToNext(b, was, x, start, alpha, n + 2);
    var c := b[n + 2 := MovedAt(was[n + 2], x, start, alpha, n + 2)];
    MovedUpToNext(c, was, x, start, alpha, n + 3);
  }

  method MoveChunk(x: seq<real>, h: array<real>, ghost was: seq<real>, ghost start: nat, hp: nat, xp: nat, limit: nat,
                   alpha: real) returns (hp': nat)
    requires start < |x| && hp + limit <= h.Length && Straight(start, |x|, hp, limit, xp - hp)
    requires MovedUpTo(h[..], was, x, start, alpha, hp)
    modifies h
    ensures hp' == hp + limit && MovedUpTo(h[..], was, x, start, alpha, hp')
  {
    var limitBy4 := limit / 4;
    var xp': nat := xp;
    hp' := hp;
    var k := limitBy4;
    hide Times, Straight, MovedUpTo;
    while k > 0
      invariant 0 <= k && hp' == hp + 4 * (limitBy4 - k) && xp' - hp' == xp - hp
      invariant MovedUpTo(h[..], was, x, start, alpha, hp')
    {
      SubStraight(start, |x|, hp, limit, xp - hp, hp', 4);
      MoveVector(x, h, was, start, hp', xp', alpha);
      k, hp', xp' := k - 1, hp' + 4, xp' + 4;
    }
    k := limit - limitBy4 * 4;
    while k > 0
      invariant 0 <= k && hp' == hp + limit - k && xp' - hp' == xp - hp
      invariant MovedUpTo(h[..], was, x, start, alpha, hp')
    {
      SubStraight(start, |x|, hp, limit, xp - hp, hp', 1);
      MovedStraight(h[hp'], x, start, alpha, hp', xp - hp);
      MovedUpToNext(h[..], was, x, start, alpha, hp');
      ghost var before := h[..];
      h[hp'] := h[hp'] + Times(alpha, x[xp']);
      assert h[..] == before[hp' := h[hp']];
      k, hp', xp' := k - 1, hp' + 1, xp' + 1;
    }
  }

  method MoveSse2(x: seq<real>, h: array<real>, start: nat, alpha: real)
    requires start < |x| && h.Length <= |x|
    modifies h
    ensures h[..] == Moved(old(h[..]), x, start, alpha)
  {
    ghost var was := h[..];
    var hSize := h.Length;
    var chunk1 := if hSize < |x| - start then hSize else |x| - start;
    var chunk2 := hSize - chunk1;
    ChunksAreStraight(start, |x|, hSize);
    assert MovedUpTo(h[..], was, x, start, alpha, 0);
    hide Times, Straight, MovedAt;
    var hp: int := MoveChunk(x, h, was, start, 0, start, chunk1, alpha);
    if chunk2 == 0 {
      StraightNothing(start, |x|, hp, 0 - hp);
    }
    hp := MoveChunk(x, h, was, start, hp, 0, chunk2, alpha);
    assert h[..] == Moved(was, x, start, alpha);
  }

  /** The same contract as the scalar form, whenever the filter is no longer than the buffer. */
  method MatchedFilterCoreSse2(xStartIndex: nat, x2SumThreshold: real, smoothing: real, x: seq<real>, y: seq<real>,
                               h: array<real>, filtersUpdated: bool, errorSum: real)
    returns (filtersUpdated': bool, errorSum': real, ghost start': nat)
    requires xStartIndex < |x| && x2SumThreshold >= 0.0 && h.Length <= |x|
    modifies h
    ensures State(h[..], start', filtersUpdated', errorSum')
         == Steps(State(old(h[..]), xStartIndex, filtersUpdated, errorSum), x, y, Settings(x2SumThreshold, smoothing))
  {
    ghost var first := State(h[..], xStartIndex, filtersUpdated, errorSum);
    ghost var c := Settings(x2SumThreshold, smoothing);
    filtersUpdated', errorSum' := filtersUpdated, errorSum;
    var start: nat := xStartIndex;
    for i := 0 to |y|
      invariant start < |x|
      invariant State(h[..], start, filtersUpdated', errorSum') == Steps(first, x, y[..i], c)
    {
      assert y[..i + 1][..i] == y[..i];
      var s, x2Sum := FilterSse2(x, h, start);
      hide Times, Correlation, Power, Moved, Quotient;
      var e := y[i] - s;
      var saturation := y[i] >= 32000.0 || y[i] <= -32000.0;
      errorSum' := errorSum' + Times(e, e);
      if x2Sum > x2SumThreshold && !saturation {
        var alpha := Quotient(Times(smoothing, e), x2Sum);
        MoveSse2(x, h, start, alpha);
        filtersUpdated' := true;
      }
      start := if start > 0 then start - 1 else |x| - 1;
    }
    assert y[..|y|] == y;
    start' := start;
  }
}
