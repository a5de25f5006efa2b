/** A window of n elements of a circular buffer, and what writing two chunks around its end does to it. */
module CircularViews {
  import opened RingBuffers

  /** n elements from begin onwards, around the end of the buffer. */
  function View<T>(buffer: seq<T>, begin: nat, n: nat): (r: seq<T>)
    requires begin < |buffer| && n <= |buffer|
    ensures |r| == n
  {
    if begin + n <= |buffer| then buffer[begin..begin + n] else buffer[begin..] + buffer[..begin + n - |buffer|]
  }

  lemma ViewAt<T>(buffer: seq<T>, begin: nat, n: nat, i: nat)
    requires begin < |buffer| && n <= |buffer| && i < n
    ensures View(buffer, begin, n)[i] == buffer[Wrapped(begin + i, |buffer|)]
  {
  }

  /** Writing x from slot start onwards, the part that does not fit going to the front of the buffer. */
  function Overlay<T>(buffer: seq<T>, start: nat, x: seq<T>): (r: seq<T>)
    requires start < |buffer| && |x| <= |buffer|
    ensures |r| == |buffer|
  {
    var k := if |x| <= |buffer| - start then |x| else |buffer| - start;
    Splice(Splice(buffer, start, x[..k]), 0, x[k..])
  }

  lemma OverlayAt<T>(buffer: seq<T>, start: nat, x: seq<T>, p: nat)
    requires start < |buffer| && |x| <= |buffer| && p < |buffer|
    ensures Overlay(buffer, start, x)[p] ==
            if Ahead(start, p, |buffer|) < |x| then x[Ahead(start, p, |buffer|)] else buffer[p]
  {
    var k := if |x| <= |buffer| - start then |x| else |buffer| - start;
    SpliceAt(buffer, start, x[..k], p);
    SpliceAt(Splice(buffer, start, x[..k]), 0, x[k..], p);
  }

  lemma ViewSplit<T>(buffer: seq<T>, begin: nat, n: nat, m: nat)
    requires begin < |buffer| && m <= n <= |buffer| && m < |buffer|
    ensures View(buffer, begin, n)[..m] == View(buffer, begin, m)
    ensures View(buffer, begin, n)[m..] == View(buffer, Wrapped(begin + m, |buffer|), n - m)
  {
    hide View;
    var v, v' := View(buffer, begin, n), View(buffer, Wrapped(begin + m, |buffer|), n - m);
    forall i | 0 <= i < n
      ensures i < m ==> v[i] == View(buffer, begin, m)[i]
      ensures i >= m ==> v[i] == v'[i - m]
    {
      ViewAt(buffer, begin, n, i);
      if i < m {
        ViewAt(buffer, begin, m, i);
      } else {
        ViewAt(buffer, Wrapped(begin + m, |buffer|), n - m, i - m);
      }
    }
  }

  lemma SubView<T>(buffer: seq<T>, begin: nat, size: nat, position: nat, n: nat)
    requires begin < |buffer| && position + n <= size < |buffer|
    ensures View(buffer, begin, size)[position..position + n] == View(buffer, Wrapped(begin + position, |buffer|), n)
  {
    hide View;
    ViewSplit(buffer, begin, size, position);
    ViewSplit(buffer, Wrapped(begin + position, |buffer|), size - position, n);
    var v := View(buffer, begin, size);
    assert v[position..position + n] == v[position..][..n];
  }

  /** Writing inside a window replaces that part of it and nothing else. */
  lemma OverlayView<T>(buffer: seq<T>, begin: nat, n: nat, d: nat, x: seq<T>)
    requires begin < |buffer| && n <= |buffer| && d + |x| <= n && d < |buffer|
    ensures var v := View(buffer, begin, n);
            View(Overlay(buffer, Wrapped(begin + d, |buffer|), x), begin, n) == Splice(v, d, x)
  {
    var v := View(buffer, begin, n);
    var v' := View(Overlay(buffer, Wrapped(begin + d, |buffer|), x), begin, n);
    hide View, Overlay, Wrapped, Splice;
    forall i | 0 <= i < n
      ensures v'[i] == Splice(v, d, x)[i]
    {
      OverlayViewAt(buffer, begin, n, d, x, i);
      SpliceAt(v, d, x, i);
    }
  }

  lemma OverlayViewAt<T>(buffer: seq<T>, begin: nat, n: nat, d: nat, x: seq<T>, i: nat)
    requires begin < |buffer| && n <= |buffer| && d + |x| <= n && d < |buffer| && i < n
    ensures View(Overlay(buffer, Wrapped(begin + d, |buffer|), x), begin, n)[i]
            == if d <= i < d + |x| then x[i - d] else View(buffer, begin, n)[i]
  {
    hide View, Overlay;
    var cap, start, p := |buffer|, Wrapped(begin + d, |buffer|), Wrapped(begin + i, |buffer|);
    ViewAt(buffer, begin, n, i);
    ViewAt(Overlay(buffer, start, x), begin, n, i);
    OverlayAt(buffer, start, x, p);
    assert Ahead(start, p, cap) == if i >= d then i - d else i - d + cap;
  }

  lemma UpdateView<T>(buffer: seq<T>, begin: nat, n: nat, i: nat, x: T)
    requires begin < |buffer| && n <= |buffer| && i < n
    ensures View(buffer[Wrapped(begin + i, |buffer|) := x], begin, n) == View(buffer, begin, n)[i := x]
  {
    hide View, Overlay, Wrapped, Splice;
    OverlayView(buffer, begin, n, i, [x]);
    OverlayOne(buffer, Wrapped(begin + i, |buffer|), x);
    SpliceOne(View(buffer, begin, n), i, x);
  }

  lemma OverlayOne<T>(buffer: seq<T>, start: nat, x: T)
    requires start < |buffer|
    ensures Overlay(buffer, start, [x]) == buffer[start := x]
  {
    OverlayChunks(buffer, start, [x], 1);
    SpliceOne(buffer, start, x);
  }

  lemma SpliceOne<T>(s: seq<T>, i: nat, x: T)
    requires i < |s|
    ensures Splice(s, i, [x]) == s[i := x] && [x][..1] == [x]
  {
  }

  lemma SpliceTwo<T>(target: seq<T>, a: seq<T>, b: seq<T>)
    requires |a| + |b| <= |target|
    ensures Splice(Splice(target, 0, a), |a|, b) == Splice(target, 0, a + b)
    ensures Splice(target, 0, []) == target
    ensures |a| + |b| == |target| ==> Splice(target, 0, a + b) == a + b
    ensures b == [] ==> a + b == a
  {
  }

  lemma SpliceNone<T>(target: seq<T>, start: nat, x: seq<T>)
    requires start <= |target|
    ensures Splice(target, start, x[..0]) == target
  {
  }

  lemma SpliceSnoc<T>(target: seq<T>, start: nat, x: seq<T>, i: nat)
    requires i < |x| && start + |x| <= |target|
    ensures Splice(target, start, x[..i])[start + i := x[i]] == Splice(target, start, x[..i + 1])
  {
  }

  /** The overlay is the writing of one chunk, or of two. */
  lemma OverlayChunks<T>(buffer: seq<T>, start: nat, x: seq<T>, k: nat)
    requires start < |buffer| && |x| <= |buffer|
    requires k == if |x| <= |buffer| - start then |x| else |buffer| - start
    ensures k == |x| ==> Overlay(buffer, start, x) == Splice(buffer, start, x[..k])
    ensures Overlay(buffer, start, x) == Splice(Splice(buffer, start, x[..k]), 0, x[k..])
  {
    SpliceTwo(Splice(buffer, start, x[..k]), [], []);
  }

  /** The same overlay written backwards from begin: its tail first, then its head at the end of the buffer. */
  lemma OverlayChunksBackward<T>(buffer: seq<T>, begin: nat, x: seq<T>, k: nat)
    requires begin < |buffer| && |x| < |buffer|
    requires k == if |x| <= begin then |x| else begin
    ensures var start, n := Wrapped(begin - |x|, |buffer|), |x| - k;
            && (n == 0 ==> Overlay(buffer, start, x) == Splice(buffer, begin - k, x[n..]))
            && (n > 0 ==> Overlay(buffer, start, x) == Splice(Splice(buffer, begin - k, x[n..]), |buffer| - n, x[..n]))
  {
    hide Overlay, Splice;
    var n := |x| - k;
    if n == 0 {
      OverlayChunks(buffer, begin - |x|, x, |x|);
      assert x[..|x|] == x[0..];
    } else {
      OverlayChunks(buffer, |buffer| - n, x, n);
      SpliceBothEnds(buffer, begin, x, n);
    }
  }

  lemma SpliceBothEnds<T>(buffer: seq<T>, begin: nat, x: seq<T>, n: nat)
    requires begin + n <= |buffer| && begin + n == |x|
    ensures Splice(Splice(buffer, |buffer| - n, x[..n]), 0, x[n..])
            == Splice(Splice(buffer, 0, x[n..]), |buffer| - n, x[..n])
  {
    var middle := x[n..] + buffer[begin..|buffer| - n] + x[..n];
    assert Splice(Splice(buffer, |buffer| - n, x[..n]), 0, x[n..]) == middle;
    assert Splice(Splice(buffer, 0, x[n..]), |buffer| - n, x[..n]) == middle;
  }

  /** Overlaying what follows a window appends to it. */
  lemma AppendView<T>(buffer: seq<T>, begin: nat, n: nat, x: seq<T>)
    requires begin < |buffer| && n + |x| < |buffer|
    ensures var end := Wrapped(begin + n, |buffer|);
            && View(Overlay(buffer, end, x), begin, n + |x|) == View(buffer, begin, n) + x
            && Ahead(begin, Wrapped(end + |x|, |buffer|), |buffer|) == n + |x|
  {
    hide View, Overlay;
    OverlayView(buffer, begin, n + |x|, n, x);
    ViewSplit(buffer, begin, n + |x|, n);
  }

  /** Overlaying what precedes a window prepends to it. */
  lemma PrependView<T>(buffer: seq<T>, begin: nat, n: nat, x: seq<T>)
    requires begin < |buffer| && n + |x| < |buffer|
    ensures var begin', end := Wrapped(begin - |x|, |buffer|), Wrapped(begin + n, |buffer|);
            && View(Overlay(buffer, begin', x), begin', n + |x|) == x + View(buffer, begin, n)
            && Ahead(begin', end, |buffer|) == n + |x|
  {
    hide View, Overlay;
    var begin' := Wrapped(begin - |x|, |buffer|);
    assert Wrapped(begin' + 0, |buffer|) == begin' && Wrapped(begin' + |x|, |buffer|) == begin;
    OverlayView(buffer, begin', n + |x|, 0, x);
    ViewSplit(buffer, begin', n + |x|, |x|);
  }

  /** s with x written over it from position p, extended if x reaches beyond its end. */
  function Overwritten<T>(s: seq<T>, p: nat, x: seq<T>): seq<T>
    requires p <= |s|
  {
    s[..p] + x + if p + |x| < |s| then s[p + |x|..] else []
  }

  /** x where it was written, the old samples elsewhere, and no gap. */
  lemma OverwrittenSamples<T>(s: seq<T>, p: nat, x: seq<T>, i: nat)
    requires p <= |s|
    ensures |Overwritten(s, p, x)| == if p + |x| < |s| then |s| else p + |x|
    ensures i < |Overwritten(s, p, x)| ==>
              if p <= i < p + |x| then Overwritten(s, p, x)[i] == x[i - p]
              else i < |s| && Overwritten(s, p, x)[i] == s[i]
  {
  }

  lemma OverwrittenTwice<T>(s: seq<T>, p: nat, a: seq<T>, b: seq<T>)
    requires p <= |s|
    ensures p + |a| <= |Overwritten(s, p, a)|
    ensures Overwritten(Overwritten(s, p, a), p + |a|, b) == Overwritten(s, p, a + b)
    ensures Overwritten(s, p, []) == s
  {
  }

  lemma OverwriteView<T>(buffer: seq<T>, begin: nat, n: nat, p: nat, x: seq<T>, n': nat)
    requires begin < |buffer| && p <= n && n' < |buffer| && n' == if p + |x| <= n then n else p + |x|
    ensures View(Overlay(buffer, Wrapped(begin + p, |buffer|), x), begin, n')
            == Overwritten(View(buffer, begin, n), p, x)
    ensures Ahead(begin, Wrapped(begin + n', |buffer|), |buffer|) == n'
  {
    hide View, Overlay;
    OverlayView(buffer, begin, n', p, x);
    ViewSplit(buffer, begin, n', n);
    var v := View(buffer, begin, n');
    assert Splice(v, p, x) == v[..p] + x + v[p + |x|..];
  }

  /** A window is at most two chunks of the buffer. */
  lemma ChunksOfView<T>(buffer: array<T>, begin: nat, n: nat, k: nat, target: seq<T>)
    requires begin < buffer.Length && n <= buffer.Length && n <= |target|
    requires k == if n <= buffer.Length - begin then n else buffer.Length - begin
    ensures var first := buffer[begin..begin + k];
            && (n > k ==> Splice(Splice(target, 0, first), k, buffer[..n - k])
                          == Splice(target, 0, View(buffer[..], begin, n)))
            && (n == k ==> first == View(buffer[..], begin, n))
  {
    hide Splice;
    SpliceTwo(target, buffer[begin..begin + k], buffer[..n - k]);
    ViewIsChunks(buffer, begin, n, k);
    hide View;
  }

  lemma ViewIsChunks<T>(buffer: array<T>, begin: nat, n: nat, k: nat)
    requires begin < buffer.Length && n <= buffer.Length
    requires k == if n <= buffer.Length - begin then n else buffer.Length - begin
    ensures k == n ==> buffer[begin..begin + k] == View(buffer[..], begin, n)
    ensures k < n ==> buffer[begin..begin + k] + buffer[..n - k] == View(buffer[..], begin, n)
  {
  }

  /** The remainder of a sum of two indices. */
  function Remainder(i: nat, n: nat): (r: nat)
    requires i < 2 * n
    ensures r == Wrapped(i, n)
  {
    RemainderIs(i, n, if i < n then 0 else 1, Wrapped(i, n));
    i % n
  }

  method Copy<T>(target: array<T>, start: nat, source: seq<T>)
    requires start + |source| <= target.Length
    modifies target
    ensures target[..] == Splice(old(target[..]), start, source)
  {
    ghost var was := target[..];
    forall i | 0 <= i < |source| {
      target[start + i] := source[i];
    }
    assert target[..] == was[..start] + source + was[start + |source|..];
  }
}


/** Growable vector of 16-bit samples over a circular array that always keeps one slot free. */
module AudioVector {
  import opened Numbers
  import opened RingBuffers
  import opened CircularViews

  type Sample = x: int | -0x8000 <= x < 0x8000

  const DEFAULT_INITIAL_SIZE: nat := 10

  function Zeros(n: nat): (r: seq<Sample>)
    ensures |r| == n && forall i :: 0 <= i < n ==> r[i] == 0
  {
    seq(n, _ => 0)
  }

  const ONE_Q14: int := 16384

  /** The decrease of the mixing factor from one faded sample to the next, in Q14. */
  function AlphaStep(fadeLength: nat): nat {
    ONE_Q14 / (fadeLength + 1)
  }

  function Alpha(fadeLength: nat, i: nat): int {
    ONE_Q14 - i * AlphaStep(fadeLength)
  }

  /** The mixing factor never leaves [0, 1]. */
  lemma AlphaInRange(fadeLength: nat, i: nat)
    requires i <= fadeLength
    ensures 0 <= Alpha(fadeLength, i) <= ONE_Q14
    ensures i > 0 ==> Alpha(fadeLength, i) == Alpha(fadeLength, i - 1) - AlphaStep(fadeLength)
  {
    var n, step := fadeLength + 1, AlphaStep(fadeLength);
    assert step * n <= ONE_Q14 by {
      assert ONE_Q14 == n * (ONE_Q14 / n) + ONE_Q14 % n;
    }
    assert i * step <= n * step by {
      assert (n - i) * step >= 0;
    }
    if i > 0 {
      assert i * step == (i - 1) * step + step;
    }
  }

  /** The mixed value lies between its two sources, and nothing on the way leaves 32 bits. */
  lemma MixIsBetween(alpha: int, a: Sample, b: Sample)
    requires 0 <= alpha <= ONE_Q14
    ensures var r := (alpha * a + (ONE_Q14 - alpha) * b + 8192) / ONE_Q14; a <= r <= b || b <= r <= a
    ensures -0x8000_0000 <= alpha * a + (ONE_Q14 - alpha) * b + 8192 < 0x8000_0000
  {
    var x := alpha * a + (ONE_Q14 - alpha) * b;
    assert x == ONE_Q14 * b + alpha * (a - b);
    if a <= b {
      ProductBounds(alpha, ONE_Q14, b - a);
      assert alpha * (a - b) == 0 - alpha * (b - a);
    } else {
      ProductBounds(alpha, ONE_Q14, a - b);
    }
  }

  /** Rounded mix of two samples: alpha parts of a, the rest of b. */
  function Mix(alpha: int, a: Sample, b: Sample): (r: Sample)
    requires 0 <= alpha <= ONE_Q14
    ensures a <= r <= b || b <= r <= a
  {
    MixIsBetween(alpha, a, b);
    (alpha * a + (ONE_Q14 - alpha) * b + 8192) / ONE_Q14
  }

  lemma ProductBounds(k: int, m: int, d: int)
    requires 0 <= k <= m && 0 <= d
    ensures 0 <= k * d <= m * d
  {
    assert (m - k) * d >= 0;
  }

  /** s faded into x. */
  function Faded(s: seq<Sample>, x: seq<Sample>): (r: seq<Sample>)
    requires |s| == |x|
    ensures |r| == |s|
  {
    seq(|s|, i requires 0 <= i < |s| => FadedAt(s, x, i))
  }

  function FadedAt(s: seq<Sample>, x: seq<Sample>, i: nat): (r: Sample)
    requires i < |s| == |x|
    ensures s[i] <= r <= x[i] || x[i] <= r <= s[i]
  {
    AlphaInRange(|s|, i + 1);
    Mix(Alpha(|s|, i + 1), s[i], x[i])
  }

  /** r is, up to rounding, the sample a faded into b after k + 1 of f + 1 parts of the way: off by at most one half
      and, because the step of the mixing factor is rounded down, a part in 2^14 of the difference for each step. */
  ghost predicate FadeOf(r: int, a: int, b: int, k: int, f: int) {
    var exact := (f - k) * a + (k + 1) * b;
    var error := (f + 1) * (ONE_Q14 / 2 + (k + 1) * Distance(a, b));
    -error <= ONE_Q14 * ((f + 1) * r - exact) <= error
  }

  function Distance(a: int, b: int): (r: int)
    ensures r >= a - b && r >= b - a && (r == a - b || r == b - a)
  {
    if a < b then b - a else a - b
  }

  /** Every faded sample is that close to the line from the old one to the new one. */
  lemma FadedIsLinear(s: seq<Sample>, x: seq<Sample>, k: nat)
    requires k < |s| == |x|
    ensures FadeOf(Faded(s, x)[k], s[k], x[k], k, |s|)
  {
    var f, a, b := |s|, s[k], x[k];
    var alpha, r, rest := Alpha(f, k + 1), Faded(s, x)[k], ONE_Q14 - (f + 1) * AlphaStep(f);
    AlphaInRange(f, k + 1);
    assert r == Mix(alpha, a, b);
    MixIsRounded(alpha, a, b);
    AlphaIs(f, k);
    hide Faded, Mix, Alpha, AlphaStep;
    Expand(f + 1, k + 1, f - k, r, b, a - b, alpha, rest);
    ProductIsBounded(f + 1, ONE_Q14 * r - (ONE_Q14 * b + alpha * (a - b)), ONE_Q14 / 2);
    RestIsBounded(f + 1, k + 1, rest, a - b, Distance(a, b));
    assert (f - k) * a == (f - k) * (b + (a - b));
    Distribute(f + 1, ONE_Q14 / 2, (k + 1) * Distance(a, b));
    hide Distance;
  }

  lemma Expand(n: int, k: int, m: int, r: int, b: int, d: int, alpha: int, rest: int)
    requires n == m + k && n * alpha == ONE_Q14 * m + k * rest
    ensures ONE_Q14 * (n * r - (m * (b + d) + k * b)) == n * (ONE_Q14 * r - (ONE_Q14 * b + alpha * d)) + k * (rest * d)
  {
    Distribute(n, ONE_Q14 * r, -(ONE_Q14 * b + alpha * d));
    Distribute(n, ONE_Q14 * b, alpha * d);
    Distribute(m, b, d);
    assert n * b == m * b + k * b;
    assert n * (alpha * d) == (n * alpha) * d == ONE_Q14 * (m * d) + k * (rest * d) by {
      Distribute(d, ONE_Q14 * m, k * rest);
    }
  }

  lemma Distribute(a: int, b: int, c: int)
    ensures a * (b + c) == a * b + a * c && a * -b == -(a * b) && a * (ONE_Q14 * b) == ONE_Q14 * (a * b)
  {
  }

  lemma ProductIsBounded(n: nat, u: int, bound: int)
    requires -bound <= u <= bound
    ensures -(n * bound) <= n * u <= n * bound
  {
    assert n * (bound - u) >= 0 && n * (bound + u) >= 0;
  }

  lemma RestIsBounded(n: nat, k: nat, rest: nat, d: int, distance: int)
    requires rest < n && -distance <= d <= distance
    ensures -(n * (k * distance)) <= k * (rest * d) <= n * (k * distance)
  {
    ProductIsBounded(rest, d, distance);
    ProductIsBounded(k, rest * d, rest * distance);
    assert k * (rest * distance) == rest * (k * distance);
    assert (n - rest) * (k * distance) >= 0 by {
      assert k * distance >= 0;
    }
  }

  /** Between two constant sources the fade moves from the old one to the new one without turning back. */
  lemma FadeMoves(s: seq<Sample>, x: seq<Sample>, a: Sample, b: Sample, k: nat)
    requires k + 1 < |s| == |x|
    requires forall i: nat :: i < |s| ==> s[i] == a && x[i] == b
    ensures var y := Faded(s, x);
            (a <= b ==> a <= y[k] <= y[k + 1] <= b) && (b <= a ==> b <= y[k + 1] <= y[k] <= a)
  {
    AlphaInRange(|s|, k + 1);
    AlphaInRange(|s|, k + 2);
    assert Faded(s, x)[k] == Mix(Alpha(|s|, k + 1), a, b) && Faded(s, x)[k + 1] == Mix(Alpha(|s|, k + 2), a, b);
    MixMoves(Alpha(|s|, k + 1), Alpha(|s|, k + 2), a, b);
    hide Faded, Mix, Alpha;
  }

  lemma MixMoves(alpha: int, beta: int, a: Sample, b: Sample)
    requires 0 <= beta <= alpha <= ONE_Q14
    ensures a <= b ==> Mix(alpha, a, b) <= Mix(beta, a, b)
    ensures b <= a ==> Mix(beta, a, b) <= Mix(alpha, a, b)
  {
    assert a <= b ==> (alpha - beta) * (b - a) >= 0;
    assert b <= a ==> (alpha - beta) * (a - b) >= 0;
    var u, v := alpha * a + (ONE_Q14 - alpha) * b + 8192, beta * a + (ONE_Q14 - beta) * b + 8192;
    assert u == v + (alpha - beta) * (a - b) == v - (alpha - beta) * (b - a);
  }

  lemma MixIsRounded(alpha: int, a: Sample, b: Sample)
    requires 0 <= alpha <= ONE_Q14
    ensures -8192 <= ONE_Q14 * Mix(alpha, a, b) - (ONE_Q14 * b + alpha * (a - b)) <= 8192
  {
  }

  lemma AlphaIs(f: nat, k: nat)
    requires k < f
    ensures var rest := ONE_Q14 - (f + 1) * AlphaStep(f);
            0 <= rest <= f && (f + 1) * Alpha(f, k + 1) == ONE_Q14 * (f - k) + (k + 1) * rest
  {
    var step := AlphaStep(f);
    var rest := ONE_Q14 - (f + 1) * step;
    assert rest == ONE_Q14 % (f + 1);
    assert (f + 1) * ((k + 1) * step) == (k + 1) * ((f + 1) * step);
    assert (k + 1) * ((f + 1) * step) == (k + 1) * (ONE_Q14 - rest);
  }

  /** What cross-fading the end of s into the start of x over f samples gives. */
  function CrossFaded(s: seq<Sample>, x: seq<Sample>, f: nat): seq<Sample>
    requires f <= |s| && f <= |x|
  {
    s[..|s| - f] + Faded(s[|s| - f..], x[..f]) + x[f..]
  }

  /** Before the overlap the old samples, in it the fade of the pairs that meet, after it the new samples. */
  lemma CrossFadedSamples(s: seq<Sample>, x: seq<Sample>, f: nat, i: nat)
    requires f <= |s| && f <= |x| && i < |s| + |x| - f
    ensures |CrossFaded(s, x, f)| == |s| + |x| - f
    ensures var y, k := CrossFaded(s, x, f), i - (|s| - f);
            && (k < 0 ==> y[i] == s[i])
            && (0 <= k < f ==> FadeOf(y[i], s[i], x[k], k, f) && (s[i] <= y[i] <= x[k] || x[k] <= y[i] <= s[i]))
            && (f <= k ==> y[i] == x[k])
  {
    var k := i - (|s| - f);
    if 0 <= k < f {
      FadedIsLinear(s[|s| - f..], x[..f], k);
      hide FadeOf;
      var a, b := s[|s| - f..], x[..f];
      assert a[k] == s[i] && b[k] == x[k];
      assert Faded(a, b)[k] == FadedAt(a, b, k);
      assert CrossFaded(s, x, f)[i] == Faded(a, b)[k];
    }
  }

  class AudioVector {
    var data: array<Sample>
    var capacity: nat
    var beginIndex: nat
    var endIndex: nat

    ghost predicate Valid()
      reads this
    {
      0 < capacity == data.Length && beginIndex < capacity && endIndex < capacity
    }

    function Size(): (r: nat)
      reads this
      requires Valid()
      ensures r == Ahead(beginIndex, endIndex, capacity)
    {
      Remainder(endIndex + capacity - beginIndex, capacity)
    }

    predicate Empty()
      reads this
      requires Valid()
      ensures Empty() <==> Size() == 0
    {
      beginIndex == endIndex
    }

    /** The samples, in order. */
    ghost function Contents(): (r: seq<Sample>)
      reads this, data
      requires Valid()
      ensures |r| == Size()
    {
      View(data[..], beginIndex, Size())
    }

    constructor WithSize(initialSize: nat)
      ensures Valid() && fresh(data) && Contents() == Zeros(initialSize)
    {
      data := new Sample[initialSize + 1](_ => 0);
      capacity := initialSize + 1;
      beginIndex := 0;
      endIndex := initialSize;
    }

    constructor ()
      ensures Valid() && fresh(data) && Contents() == []
    {
      data := new Sample[DEFAULT_INITIAL_SIZE + 1](_ => 0);
      capacity := DEFAULT_INITIAL_SIZE + 1;
      beginIndex := 0;
      endIndex := 0;
    }

    method Clear()
      requires Valid()
      modifies this`beginIndex, this`endIndex
      ensures Valid() && Contents() == []
    {
      beginIndex, endIndex := 0, 0;
    }

    /** The index operators. */
    function WrapIndex(index: nat): (r: nat)
      reads this
      requires Valid() && index < capacity
      ensures r == Wrapped(beginIndex + index, capacity)
    {
      var ix := beginIndex + index;
      if ix >= capacity then ix - capacity else ix
    }

    function Get(index: nat): (r: Sample)
      reads this, data
      requires Valid() && index < Size()
      ensures r == Contents()[index]
    {
      data[WrapIndex(index)]
    }

    method Set(index: nat, value: Sample)
      requires Valid() && index < Size()
      modifies data
      ensures Contents() == old(Contents())[index := value]
    {
      hide View;
      UpdateView(data[..], beginIndex, Size(), index, value);
      data[WrapIndex(index)] := value;
    }

    /** Copies in at most two chunks. */
    method CopyToArray(length: nat, position: nat, target: array<Sample>)
      requires Valid() && position <= Size() && target != data
      requires Min(length, Size() - position) <= target.Length
      modifies target
      ensures target[..] == Splice(old(target[..]), 0, Contents()[position..position + Min(length, Size() - position)])
    {
      hide Remainder, View, Splice, Wrapped, Ahead;
      if length == 0 {
        SpliceTwo<Sample>(target[..], [], []);
        assert Contents()[position..position] == [];
        return;
      }
      var n := Min(length, Size() - position);
      var copyIndex := Remainder(beginIndex + position, capacity);
      var firstChunkLength := Min(n, capacity - copyIndex);
      SubView(data[..], beginIndex, Size(), position, n);
      ChunksOfView(data, copyIndex, n, firstChunkLength, target[..]);
      Copy(target, 0, data[copyIndex..copyIndex + firstChunkLength]);
      var remainingLength := n - firstChunkLength;
      if remainingLength > 0 {
        Copy(target, firstChunkLength, data[..remainingLength]);
      }
    }

    /** Grows the array, if it has no room for n samples beside the free slot, and keeps the contents. */
    method Reserve(n: nat)
      requires Valid()
      modifies this
      ensures Valid() && capacity > n && capacity >= old(capacity)
      ensures data == old(data) || fresh(data)
      ensures Contents() == old(Contents())
    {
      if capacity > n {
        return;
      }
      var length := Size();
      var temp := new Sample[n + 1];
      SpliceTwo(temp[..], Contents(), temp[length..]);
      CopyToArray(length, 0, temp);
      data := temp;
      beginIndex := 0;
      endIndex := length;
      capacity := n + 1;
    }

    /** Appends raw samples. */
    method PushBackArray(x: seq<Sample>)
      requires Valid()
      modifies this, data
      ensures Valid() && (data == old(data) || fresh(data))
      ensures Contents() == old(Contents()) + x
    {
      hide Remainder, View, Splice, Overlay, Wrapped;
      if |x| == 0 {
        return;
      }
      Reserve(Size() + |x|);
      var firstChunkLength := Min(|x|, capacity - endIndex);
      EndOf(beginIndex, endIndex, capacity);
      AppendView(data[..], beginIndex, Size(), x);
      OverlayChunks(data[..], endIndex, x, firstChunkLength);
      Copy(data, endIndex, x[..firstChunkLength]);
      var remainingLength := |x| - firstChunkLength;
      if remainingLength > 0 {
        Copy(data, 0, x[firstChunkLength..]);
      }
      endIndex := Remainder(endIndex + |x|, capacity);
    }

    static lemma EndOf(begin: nat, end: nat, n: nat)
      requires begin < n && end < n
      ensures Wrapped(begin + Ahead(begin, end, n), n) == end
    {
    }

    /** Prepends raw samples. */
    method PushFrontArray(x: seq<Sample>)
      requires Valid()
      modifies this, data
      ensures Valid() && (data == old(data) || fresh(data))
      ensures Contents() == x + old(Contents())
    {
      hide Remainder, View, Splice, Overlay, Wrapped;
      if |x| == 0 {
        return;
      }
      Reserve(Size() + |x|);
      var firstChunkLength := Min(|x|, beginIndex);
      EndOf(beginIndex, endIndex, capacity);
      PrependView(data[..], beginIndex, Size(), x);
      OverlayChunksBackward(data[..], beginIndex, x, firstChunkLength);
      Copy(data, beginIndex - firstChunkLength, x[|x| - firstChunkLength..]);
      var remainingLength := |x| - firstChunkLength;
      if remainingLength > 0 {
        Copy(data, capacity - remainingLength, x[..remainingLength]);
      }
      BackBy(beginIndex, |x|, capacity);
      beginIndex := Remainder(beginIndex + capacity - |x|, capacity);
    }

    static lemma BackBy(index: nat, k: nat, n: nat)
      requires index < n && k <= n
      ensures Wrapped(index + n - k, n) == Wrapped(index - k, n)
    {
    }

    method PopFront(length: nat)
      requires Valid()
      modifies this`beginIndex
      ensures Valid() && Contents() == old(Contents())[Min(length, old(Size()))..]
    {
      hide Remainder, View;
      if length == 0 {
        return;
      }
      var n := Min(length, Size());
      ViewSplit(data[..], beginIndex, Size(), n);
      beginIndex := Remainder(beginIndex + n, capacity);
    }

    method PopBack(length: nat)
      requires Valid()
      modifies this`endIndex
      ensures Valid() && Contents() == old(Contents())[..old(Size()) - Min(length, old(Size()))]
    {
      hide Remainder, View;
      if length == 0 {
        assert Contents()[..Size()] == Contents();
        return;
      }
      var n := Min(length, Size());
      ViewSplit(data[..], beginIndex, Size(), Size() - n);
      endIndex := Remainder(endIndex + capacity - n, capacity);
    }

    /** Appends a segment of another vector, chunk by chunk. */
    method PushBackSegment(other: AudioVector, length: nat, position: nat)
      requires Valid() && other.Valid() && other != this && other.data != data
      requires position + length <= other.Size()
      modifies this, data
      ensures Valid() && (data == old(data) || fresh(data))
      ensures Contents() == old(Contents()) + other.Contents()[position..position + length]
    {
      hide Remainder, View, Splice, Overlay, Wrapped;
      if length == 0 {
        assert other.Contents()[position..position] == [];
        return;
      }
      Reserve(Size() + length);
      var startIndex := Remainder(other.beginIndex + position, other.capacity);
      var firstChunkLength := Min(length, other.capacity - startIndex);
      SubView(other.data[..], other.beginIndex, other.Size(), position, length);
      ViewIsChunks(other.data, startIndex, length, firstChunkLength);
      PushBackArray(other.data[startIndex..startIndex + firstChunkLength]);
      var remainingLength := length - firstChunkLength;
      if remainingLength > 0 {
        PushBackArray(other.data[..remainingLength]);
        Associates(old(Contents()), other.data[startIndex..startIndex + firstChunkLength],
                   other.data[..remainingLength]);
      }
    }

    static lemma Associates<T>(a: seq<T>, b: seq<T>, c: seq<T>)
      ensures a + b + c == a + (b + c)
      ensures b == [] ==> b + c == c
    {
    }

    method PushBack(other: AudioVector)
      requires Valid() && other.Valid() && other != this && other.data != data
      modifies this, data
      ensures Valid() && (data == old(data) || fresh(data))
      ensures Contents() == old(Contents()) + other.Contents()
    {
      assert other.Contents()[..other.Size()] == other.Contents();
      PushBackSegment(other, other.Size(), 0);
    }

    /** The contents are two chunks of the array, of which the second may be empty. */
    lemma InChunks(k: nat)
      requires Valid() && k == Min(Size(), capacity - beginIndex)
      ensures Contents() == data[beginIndex..beginIndex + k] + data[..Size() - k]
    {
      ViewIsChunks(data, beginIndex, Size(), k);
      hide View;
      assert data[beginIndex..beginIndex + k] + [] == data[beginIndex..beginIndex + k];
    }

    method PushFront(other: AudioVector)
      requires Valid() && other.Valid() && other != this && other.data != data
      modifies this, data
      ensures Valid() && (data == old(data) || fresh(data))
      ensures Contents() == other.Contents() + old(Contents())
    {
      hide Remainder, View, Splice, Overlay, Wrapped, Ahead;
      var length := other.Size();
      if length == 0 {
        return;
      }
      Reserve(Size() + length);
      var firstChunkLength := Min(length, other.capacity - other.beginIndex);
      var remainingLength := length - firstChunkLength;
      other.InChunks(firstChunkLength);
      ghost var was := Contents();
      ghost var first, second := other.data[other.beginIndex..other.beginIndex + firstChunkLength],
                                 other.data[..remainingLength];
      Associates(first, second, was);
      if remainingLength > 0 {
        PushFrontArray(other.data[..remainingLength]);
      }
      assert Contents() == second + was;
      PushFrontArray(other.data[other.beginIndex..other.beginIndex + firstChunkLength]);
    }

    /** Makes another vector a replica of this one. */
    method CopyTo(other: AudioVector)
      requires Valid() && other.Valid() && other != this && other.data != data
      modifies other, other.data
      ensures other.Valid() && (other.data == old(other.data) || fresh(other.data))
      ensures other.Contents() == Contents()
    {
      other.Reserve(Size());
      hide Remainder;
      assert Contents()[..Size()] == Contents();
      CopyToArray(Size(), 0, other.data);
      other.beginIndex := 0;
      other.endIndex := Size();
    }

    static lemma InsertParts<T>(s: seq<T>, x: seq<T>, p: nat)
      requires p <= |s|
      ensures s[p..p + (|s| - p)] == s[p..] && s[..p] + (x + s[p..]) == s[..p] + x + s[p..]
      ensures p == |s| ==> s[..p] == s && s[p..] == [] && s[..p] + x + s[p..] == s[..p] + x
    {
    }

    /** Inserts by moving what follows the position away and pushing it back. */
    method InsertByPushBack(x: seq<Sample>, position: nat)
      requires Valid() && position <= Size()
      modifies this, data
      ensures Valid() && (data == old(data) || fresh(data))
      ensures Contents() == old(Contents())[..position] + x + old(Contents())[position..]
    {
      hide Remainder, View, Splice, Overlay, Wrapped;
      var moveChunkLength := Size() - position;
      ghost var was := Contents();
      var temp := new Sample[moveChunkLength];
      if moveChunkLength > 0 {
        SpliceTwo(temp[..], was[position..], []);
        CopyToArray(moveChunkLength, position, temp);
        PopBack(moveChunkLength);
      }
      InsertParts(was, x, position);
      assert Contents() == was[..position];
      Reserve(Size() + |x| + moveChunkLength);
      PushBackArray(x);
      if moveChunkLength > 0 {
        PushBackArray(temp[..]);
      }
    }

    /** Inserts by moving what precedes the position away and pushing it in front. */
    method InsertByPushFront(x: seq<Sample>, position: nat)
      requires Valid() && position <= Size()
      modifies this, data
      ensures Valid() && (data == old(data) || fresh(data))
      ensures Contents() == old(Contents())[..position] + x + old(Contents())[position..]
    {
      hide Remainder, View, Splice, Overlay, Wrapped;
      ghost var was := Contents();
      var temp := new Sample[position];
      if position > 0 {
        SpliceTwo(temp[..], was[..position], []);
        CopyToArray(position, 0, temp);
        PopFront(position);
      }
      Reserve(Size() + |x| + position);
      PushFrontArray(x);
      if position > 0 {
        PushFrontArray(temp[..]);
      }
      InsertParts(was, x, position);
    }

    /** Whichever way is cheaper, the meaning is the same. */
    method InsertAt(x: seq<Sample>, position: nat)
      requires Valid()
      modifies this, data
      ensures Valid() && (data == old(data) || fresh(data))
      ensures var p := Min(position, old(Size())); Contents() == old(Contents())[..p] + x + old(Contents())[p..]
    {
      if |x| == 0 {
        ghost var p := Min(position, Size());
        assert Contents() == Contents()[..p] + x + Contents()[p..];
        return;
      }
      var p := Min(Size(), position);
      if p <= Size() - p {
        InsertByPushFront(x, p);
      } else {
        InsertByPushBack(x, p);
      }
    }

    method InsertZerosByPushBack(length: nat, position: nat)
      requires Valid() && position <= Size()
      modifies this, data
      ensures Valid() && (data == old(data) || fresh(data))
      ensures Contents() == old(Contents())[..position] + Zeros(length) + old(Contents())[position..]
    {
      hide Remainder, View, Splice, Overlay, Wrapped, Zeros;
      var moveChunkLength := Size() - position;
      ghost var was := Contents();
      var temp := new Sample[moveChunkLength];
      if moveChunkLength > 0 {
        SpliceTwo(temp[..], was[position..], []);
        CopyToArray(moveChunkLength, position, temp);
        PopBack(moveChunkLength);
      }
      InsertParts(was, Zeros(length), position);
      assert Contents() == was[..position];
      Reserve(Size() + length + moveChunkLength);
      WriteZerosAtEnd(length);
      if moveChunkLength > 0 {
        PushBackArray(temp[..]);
      }
    }

    method WriteZerosAtEnd(length: nat)
      requires Valid() && Size() + length < capacity
      modifies this`endIndex, data
      ensures Valid() && Contents() == old(Contents()) + Zeros(length)
    {
      hide Remainder, View, Splice, Overlay, Wrapped, Zeros;
      var firstZeroChunkLength := Min(length, capacity - endIndex);
      EndOf(beginIndex, endIndex, capacity);
      AppendView(data[..], beginIndex, Size(), Zeros(length));
      OverlayChunks(data[..], endIndex, Zeros(length), firstZeroChunkLength);
      ZeroChunks(length, firstZeroChunkLength);
      Copy(data, endIndex, Zeros(firstZeroChunkLength));
      var remainingZeroLength := length - firstZeroChunkLength;
      if remainingZeroLength > 0 {
        Copy(data, 0, Zeros(remainingZeroLength));
      }
      endIndex := Remainder(endIndex + length, capacity);
    }

    static lemma ZeroChunks(n: nat, k: nat)
      requires k <= n
      ensures Zeros(n)[..k] == Zeros(k) && Zeros(n)[k..] == Zeros(n - k)
    {
    }

    method InsertZerosByPushFront(length: nat, position: nat)
      requires Valid() && position <= Size()
      modifies this, data
      ensures Valid() && (data == old(data) || fresh(data))
      ensures Contents() == old(Contents())[..position] + Zeros(length) + old(Contents())[position..]
    {
      hide Remainder, View, Splice, Overlay, Wrapped, Zeros;
      ghost var was := Contents();
      var temp := new Sample[position];
      if position > 0 {
        SpliceTwo(temp[..], was[..position], []);
        CopyToArray(position, 0, temp);
        PopFront(position);
      }
      Reserve(Size() + length + position);
      WriteZerosAtFront(length);
      if position > 0 {
        PushFrontArray(temp[..]);
      }
      InsertParts(was, Zeros(length), position);
    }

    method WriteZerosAtFront(length: nat)
      requires Valid() && Size() + length < capacity
      modifies this`beginIndex, data
      ensures Valid() && Contents() == Zeros(length) + old(Contents())
    {
      hide Remainder, View, Splice, Overlay, Wrapped, Zeros;
      var firstZeroChunkLength := Min(length, beginIndex);
      var remainingZeroLength := length - firstZeroChunkLength;
      EndOf(beginIndex, endIndex, capacity);
      PrependView(data[..], beginIndex, Size(), Zeros(length));
      OverlayChunksBackward(data[..], beginIndex, Zeros(length), firstZeroChunkLength);
      ZeroChunks(length, remainingZeroLength);
      Copy(data, beginIndex - firstZeroChunkLength, Zeros(firstZeroChunkLength));
      if remainingZeroLength > 0 {
        Copy(data, capacity - remainingZeroLength, Zeros(remainingZeroLength));
      }
      BackBy(beginIndex, length, capacity);
      beginIndex := Remainder(beginIndex + capacity - length, capacity);
    }

    method InsertZerosAt(length: nat, position: nat)
      requires Valid()
      modifies this, data
      ensures Valid() && (data == old(data) || fresh(data))
      ensures var p := Min(position, old(Size()));
              Contents() == old(Contents())[..p] + Zeros(length) + old(Contents())[p..]
    {
      if length == 0 {
        ghost var p := Min(position, Size());
        assert Contents() == Contents()[..p] + Zeros(length) + Contents()[p..];
        return;
      }
      var p := Min(Size(), position);
      if p <= Size() - p {
        InsertZerosByPushFront(length, p);
      } else {
        InsertZerosByPushBack(length, p);
      }
    }

    method Extend(extraLength: nat)
      requires Valid()
      modifies this, data
      ensures Valid() && (data == old(data) || fresh(data))
      ensures Contents() == old(Contents()) + Zeros(extraLength)
    {
      if extraLength == 0 {
        return;
      }
      ghost var was := Contents();
      InsertZerosByPushBack(extraLength, Size());
      assert was[..|was|] + Zeros(extraLength) + was[|was|..] == was + Zeros(extraLength);
    }

    method OverwriteAtArray(x: seq<Sample>, position: nat)
      requires Valid()
      modifies this, data
      ensures Valid() && (data == old(data) || fresh(data))
      ensures Contents() == Overwritten(old(Contents()), Min(position, old(Size())), x)
    {
      hide Remainder, View, Splice, Overlay, Wrapped;
      if |x| == 0 {
        OverwrittenTwice(Contents(), Min(position, Size()), [], []);
        return;
      }
      var p := Min(Size(), position);
      var newSize := Max(Size(), p + |x|);
      Reserve(newSize);
      var overwriteIndex := Remainder(beginIndex + p, capacity);
      var firstChunkLength := Min(|x|, capacity - overwriteIndex);
      OverwriteView(data[..], beginIndex, Size(), p, x, newSize);
      OverlayChunks(data[..], overwriteIndex, x, firstChunkLength);
      Copy(data, overwriteIndex, x[..firstChunkLength]);
      var remainingLength := |x| - firstChunkLength;
      if remainingLength > 0 {
        Copy(data, 0, x[firstChunkLength..]);
      }
      endIndex := Remainder(beginIndex + newSize, capacity);
    }

    method OverwriteAt(other: AudioVector, length: nat, position: nat)
      requires Valid() && other.Valid() && other != this && other.data != data
      requires length <= other.Size()
      modifies this, data
      ensures Valid() && (data == old(data) || fresh(data))
      ensures Contents() == Overwritten(old(Contents()), Min(position, old(Size())), other.Contents()[..length])
    {
      hide Remainder, View, Splice, Overlay, Wrapped, Overwritten;
      if length == 0 {
        OverwrittenTwice(Contents(), Min(position, Size()), [], []);
        assert other.Contents()[..0] == [];
        return;
      }
      var p := Min(Size(), position);
      Reserve(Max(Size(), p + length));
      var firstChunkLength := Min(length, other.capacity - other.beginIndex);
      var remainingLength := length - firstChunkLength;
      ghost var first, second := other.data[other.beginIndex..other.beginIndex + firstChunkLength],
                                 other.data[..remainingLength];
      ViewSplit(other.data[..], other.beginIndex, other.Size(), length);
      ViewIsChunks(other.data, other.beginIndex, length, firstChunkLength);
      OverwrittenTwice(Contents(), p, first, second);
      OverwriteAtArray(other.data[other.beginIndex..other.beginIndex + firstChunkLength], p);
      if remainingLength > 0 {
        OverwriteAtArray(other.data[..remainingLength], p + firstChunkLength);
      }
    }

    /** Appends another vector, letting the two overlap in a linear fade. */
    method CrossFade(other: AudioVector, fadeLength: nat)
      requires Valid() && other.Valid() && other != this && other.data != data
      modifies this, data
      ensures Valid() && (data == old(data) || fresh(data))
      ensures var f := Min(Min(fadeLength, old(Size())), other.Size());
              Contents() == CrossFaded(old(Contents()), other.Contents(), f)
    {
      hide Remainder, View, Splice, Overlay, Wrapped, Ahead, Faded;
      var f := Min(Min(fadeLength, Size()), other.Size());
      FadeEnd(other, f);
      var samplesToPushBack := other.Size() - f;
      assert other.Contents()[f..f + samplesToPushBack] == other.Contents()[f..];
      if samplesToPushBack > 0 {
        PushBackSegment(other, samplesToPushBack, f);
      }
    }

    method FadeEnd(other: AudioVector, f: nat)
      requires Valid() && other.Valid() && other != this && other.data != data
      requires f <= Size() && f <= other.Size()
      modifies data
      ensures var start := Size() - f;
              Contents() == old(Contents())[..start] + Faded(old(Contents())[start..], other.Contents()[..f])
    {
      hide Remainder, View, Splice, Overlay, Wrapped, Ahead, Alpha, AlphaStep, Mix, Faded;
      ghost var was, x := Contents(), other.Contents();
      ghost var start := |was| - f;
      ghost var faded := Faded(was[start..], x[..f]);
      FadedEnds(was, faded, start);
      var position := Size() - f + beginIndex;
      var alphaStep := AlphaStep(f);
      var alpha := ONE_Q14;
      AlphaStart(f);
      for i := 0 to f
        invariant alpha == Alpha(f, i)
        invariant Contents() == was[..start] + faded[..i] + was[start + i..]
      {
        AlphaInRange(f, i + 1);
        alpha := alpha - alphaStep;
        FadedIs(was[start..], x[..f], i);
        MixAt(Remainder(position + i, capacity), alpha, other.Get(i), start + i);
        FadedPrefix(was, faded, start, i);
      }
      AlphaInRange(f, f);
      assert alpha >= 0;
    }

    static lemma FadedIs(s: seq<Sample>, x: seq<Sample>, i: nat)
      requires |s| == |x| && i < |s|
      ensures Faded(s, x)[i] == FadedAt(s, x, i)
    {
    }

    static lemma FadedEnds<T>(s: seq<T>, faded: seq<T>, start: nat)
      requires start + |faded| == |s|
      ensures s[..start] + faded[..0] + s[start..] == s
      ensures s[..start] + faded[..|faded|] + s[|s|..] == s[..start] + faded
    {
    }

    static lemma FadedPrefix<T>(s: seq<T>, faded: seq<T>, start: nat, i: nat)
      requires start + |faded| == |s| && i < |faded|
      ensures var now := s[..start] + faded[..i] + s[start + i..];
              && now[start + i] == s[start..][i]
              && now[start + i := faded[i]] == s[..start] + faded[..i + 1] + s[start + i + 1..]
    {
    }

    method MixAt(index: nat, alpha: int, b: Sample, ghost i: nat)
      requires Valid() && i < Size() && index == Wrapped(beginIndex + i, capacity)
      requires 0 <= alpha <= ONE_Q14
      modifies data
      ensures Contents() == old(Contents())[i := Mix(alpha, old(Contents())[i], b)]
    {
      hide View, Mix;
      ViewAt(data[..], beginIndex, Size(), i);
      UpdateView(data[..], beginIndex, Size(), i, Mix(alpha, data[index], b));
      data[index] := Mix(alpha, data[index], b);
    }

    static lemma AlphaStart(f: nat)
      ensures Alpha(f, 0) == ONE_Q14
    {
    }
  }
}
