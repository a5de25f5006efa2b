/** Small functions that several components use. */
module Numbers {

  datatype Option<T> = None | Some(value: T)

  /** How many values a 64-bit size has. */
  const SIZE_T: int := 0x1_0000_0000_0000_0000

  type SizeT = x: int | 0 <= x < SIZE_T

  function Min(a: int, b: int): (r: int)
    ensures r == a <= b || r == b <= a
  {
    if a < b then a else b
  }

  function Max(a: int, b: int): (r: int)
    ensures r == a >= b || r == b >= a
  {
    if a < b then b else a
  }
}

/** One number for every bin of a 128-point FFT of a real signal. */
module PowerSpectra {

  const BINS: nat := 65

  type PowerSpectrum = s: seq<real> | |s| == BINS witness seq(BINS, _ => 0.0)

  function NoPower(): PowerSpectrum {
    seq(BINS, _ => 0.0)
  }
}

module Products {

  /** A product, kept apart so that proofs about sums do not see it. */
  function Times(a: real, b: real): real {
    a * b
  }
}

/** Sums of sequences of integers. */
module Sums {

  function Sum(s: seq<int>): int {
    if s == [] then 0 else Sum(s[..|s| - 1]) + s[|s| - 1]
  }

  ghost predicate NonNegative(s: seq<int>) {
    forall i :: 0 <= i < |s| ==> s[i] >= 0
  }

  lemma SumSnoc(s: seq<int>, x: int)
    ensures Sum(s + [x]) == Sum(s) + x
  {
    assert (s + [x])[..|s|] == s;
  }

  lemma {:induction false} SumConcat(s: seq<int>, t: seq<int>)
    ensures Sum(s + t) == Sum(s) + Sum(t)
  {
    if t == [] {
      assert s + t == s;
    } else {
      var k := |t| - 1;
      SumConcat(s, t[..k]);
      assert s + t == (s + t[..k]) + [t[k]];
      SumSnoc(s + t[..k], t[k]);
    }
  }

  lemma SumCons(s: seq<int>)
    requires s != []
    ensures Sum(s) == s[0] + Sum(s[1..])
  {
    SumConcat([s[0]], s[1..]);
    assert s == [s[0]] + s[1..];
  }

  lemma SumUpdate(s: seq<int>, i: nat, x: int)
    requires i < |s|
    ensures Sum(s[i := x]) == Sum(s) - s[i] + x
  {
    assert s == s[..i] + [s[i]] + s[i + 1..] && s[i := x] == s[..i] + [x] + s[i + 1..];
    SumConcat(s[..i] + [s[i]], s[i + 1..]);
    SumConcat(s[..i] + [x], s[i + 1..]);
    SumSnoc(s[..i], s[i]);
    SumSnoc(s[..i], x);
  }

  lemma {:induction false} SumNonNegative(s: seq<int>)
    requires NonNegative(s)
    ensures Sum(s) >= 0
    ensures forall i :: 0 <= i < |s| ==> s[i] <= Sum(s)
  {
    if s != [] {
      SumNonNegative(s[..|s| - 1]);
    }
  }

  lemma PrefixSums(s: seq<int>, k: nat)
    requires NonNegative(s) && k <= |s|
    ensures 0 <= Sum(s[..k]) <= Sum(s)
    ensures k < |s| ==> Sum(s[..k + 1]) == Sum(s[..k]) + s[k]
  {
    assert NonNegative(s[..k]) && NonNegative(s[k..]);
    hide Sum, NonNegative;
    SumConcat(s[..k], s[k..]);
    assert s == s[..k] + s[k..];
    SumNonNegative(s[..k]);
    SumNonNegative(s[k..]);
    if k < |s| {
      assert s[..k + 1] == s[..k] + [s[k]];
      SumSnoc(s[..k], s[k]);
    }
  }

  function Zeros(n: nat): (r: seq<int>)
    ensures |r| == n
  {
    seq(n, _ => 0)
  }

  lemma {:induction false} SumZeros(n: nat)
    ensures Sum(Zeros(n)) == 0
  {
    if n > 0 {
      SumZeros(n - 1);
      assert Zeros(n)[..n - 1] == Zeros(n - 1);
    }
  }
}
