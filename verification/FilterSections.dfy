/** How the linear filter is divided into sections. */
module FilterSections {
  import opened Numbers
  import opened Sums

  ghost predicate AllAtLeast(s: seq<int>, least: int) {
    forall i: nat :: i < |s| ==> s[i] >= least
  }

  ghost predicate Ascending(s: seq<int>) {
    forall i: nat, j: nat :: i <= j < |s| ==> s[i] <= s[j]
  }

  ghost predicate StrictlyAscending(s: seq<int>) {
    forall i: nat, j: nat :: i < j < |s| ==> s[i] < s[j]
  }

  function Scaled(a: int, b: int): int {
    a * b
  }

  lemma ScaledRules(a: int, b: int)
    ensures Scaled(a, b + 1) == Scaled(a, b) + a
    ensures Scaled(a, 0) == 0 && Scaled(1, b) == b && Scaled(0, b) == 0
  {
  }

  function Quotient(a: nat, b: nat): nat
    requires b > 0
  {
    a / b
  }

  lemma QuotientIs(a: nat, b: nat, least: nat)
    requires b > 0 && a >= Scaled(least, b)
    ensures Quotient(a, b) >= least && Scaled(Quotient(a, b), b) <= a
  {
    var q, r := a / b, a % b;
    assert a == q * b + r;
    assert least - q >= 1 ==> (least - q) * b >= b;
    assert (least - q) * b == least * b - q * b;
  }

  function Constant(x: int, n: nat): (r: seq<int>)
    ensures |r| == n
  {
    seq(n, _ => x)
  }

  lemma {:induction false} SumConstant(x: int, n: nat)
    ensures Sum(Constant(x, n)) == Scaled(x, n)
  {
    ScaledRules(x, n - 1);
    ScaledRules(x, 0);
    hide Scaled;
    if n > 0 {
      SumConstant(x, n - 1);
      assert Constant(x, n)[..n - 1] == Constant(x, n - 1);
    }
  }

  /** Even shares, with the remainder in the last. */
  function Shares(blocks: nat, sections: nat): (r: seq<int>)
    requires sections > 0
    ensures |r| == sections
  {
    var q := Quotient(blocks, sections);
    Constant(q, sections - 1) + [q + (blocks - Scaled(q, sections))]
  }

  lemma SharesAre(blocks: nat, sections: nat, least: nat)
    requires sections > 0 && blocks >= Scaled(least, sections)
    ensures AllAtLeast(Shares(blocks, sections), least) && Ascending(Shares(blocks, sections))
    ensures Sum(Shares(blocks, sections)) == blocks
  {
    var q := Quotient(blocks, sections);
    QuotientIs(blocks, sections, least);
    SumConstant(q, sections - 1);
    ScaledRules(q, sections - 1);
    hide Scaled, Quotient;
    SumSnoc(Constant(q, sections - 1), q + (blocks - Scaled(q, sections)));
  }

  /** Doubling sizes as long as more than that much is left for every section, and even shares of the rest. */
  function Sizes(blocks: nat, sections: nat, size: nat): (r: seq<int>)
    requires sections > 0
    ensures |r| == sections
    decreases sections
  {
    if sections > 1 && blocks > Scaled(size, sections) && blocks >= size
    then [size] + Sizes(blocks - size, sections - 1, size * 2)
    else Shares(blocks, sections)
  }

  lemma LeavesEnough(blocks: int, size: nat, sections: nat)
    requires blocks > Scaled(size, sections) && sections > 0
    ensures blocks - size >= Scaled(size, sections - 1) >= 0
  {
    assert size * (sections - 1) >= 0;
    ScaledRules(size, sections - 1);
  }

  /** The sections cover exactly the blocks, none is smaller than the one before, and each has at least what every
      section could have. */
  lemma {:induction false} SizesAre(blocks: nat, sections: nat, size: nat, least: nat)
    requires sections > 0 && blocks >= Scaled(least, sections) && least <= size
    ensures Sum(Sizes(blocks, sections, size)) == blocks
    ensures AllAtLeast(Sizes(blocks, sections, size), least) && Ascending(Sizes(blocks, sections, size))
    decreases sections
  {
    hide Scaled;
    if sections > 1 && blocks > Scaled(size, sections) {
      LeavesEnough(blocks, size, sections);
      var rest := Sizes(blocks - size, sections - 1, size * 2);
      SizesAre(blocks - size, sections - 1, size * 2, size);
      assert Sizes(blocks, sections, size) == [size] + rest;
      hide Sizes, Sum, AllAtLeast, Ascending;
      OneMore(size, rest, least);
    } else {
      SharesAre(blocks, sections, least);
    }
  }

  lemma OneMore(size: int, rest: seq<int>, least: int)
    requires AllAtLeast(rest, size) && Ascending(rest) && least <= size
    ensures AllAtLeast([size] + rest, least) && Ascending([size] + rest) && Sum([size] + rest) == size + Sum(rest)
  {
    SumSnoc([], size);
    SumConcat([size], rest);
    assert [] + [size] == [size];
    assert Sum([]) == 0;
    hide Sum;
  }

  /** The first j sizes double from `size`; each of them was less than an even share of what was left, and the next
      one would not be, unless only one section is left. The rest is shared evenly, the last section taking the
      remainder. */
  ghost predicate Doubles(r: seq<int>, blocks: int, size: int, j: nat) {
    var sections := |r| - j;
    && 0 < sections
    && (j == 0 ==>
          && (sections == 1 || blocks <= size * sections)
          && (forall i: nat :: i < sections - 1 ==> r[i] == r[0])
          && 0 <= blocks - r[0] * sections < sections && r[sections - 1] == r[0] + (blocks - r[0] * sections))
    && (j > 0 ==> r[0] == size && blocks > size * |r| && Doubles(r[1..], blocks - size, 2 * size, j - 1))
  }

  lemma {:induction false} SizesDouble(blocks: nat, sections: nat, size: nat) returns (j: nat)
    requires sections > 0
    ensures Doubles(Sizes(blocks, sections, size), blocks, size, j)
    decreases sections
  {
    if sections > 1 && blocks > Scaled(size, sections) {
      LeavesEnough(blocks, size, sections);
      var i := SizesDouble(blocks - size, sections - 1, size * 2);
      j := i + 1;
      var rest := Sizes(blocks - size, sections - 1, size * 2);
      assert Sizes(blocks, sections, size) == [size] + rest;
      assert ([size as int] + rest)[1..] == rest;
    } else {
      j := 0;
      SharesAreEven(blocks, sections);
      LastSizes(blocks, sections, size);
    }
  }

  lemma SharesAreEven(blocks: nat, sections: nat)
    requires sections > 0
    ensures var r := Shares(blocks, sections);
            && (forall i: nat :: i < sections - 1 ==> r[i] == Quotient(blocks, sections))
            && r[sections - 1] == Quotient(blocks, sections) + (blocks - Quotient(blocks, sections) * sections)
            && 0 <= blocks - Quotient(blocks, sections) * sections < sections
  {
    assert blocks == blocks / sections * sections + blocks % sections;
  }

  lemma NextSize(done: seq<int>, blocks: nat, sections: nat, size: nat)
    requires sections > 1 && blocks > Scaled(size, sections)
    ensures blocks >= size
    ensures done + Sizes(blocks, sections, size) == (done + [size]) + Sizes(blocks - size, sections - 1, size * 2)
  {
    LeavesEnough(blocks, size, sections);
    hide Scaled;
    var rest := Sizes(blocks - size, sections - 1, size * 2);
    assert Sizes(blocks, sections, size) == [size] + rest;
    assert done + ([size as int] + rest) == (done + [size]) + rest;
  }

  lemma LastSizes(blocks: nat, sections: nat, size: nat)
    requires sections > 0 && !(sections > 1 && blocks > Scaled(size, sections))
    ensures Sizes(blocks, sections, size) == Shares(blocks, sections)
  {
    hide Scaled, Shares;
  }

  /** The 64-bit difference that the sizes divide; it wraps when the headroom is longer than the filter. */
  function FilterLength(headroom: SizeT, numBlocks: SizeT): (r: SizeT)
    ensures r == if headroom <= numBlocks then numBlocks - headroom else numBlocks - headroom + SIZE_T
  {
    (numBlocks - headroom) % SIZE_T
  }

  method DefineFilterSectionSizes(delayHeadroomBlocks: SizeT, numBlocks: SizeT, numSections: nat)
    returns (sectionSizes: seq<int>)
    requires numSections > 0
    ensures sectionSizes == Sizes(FilterLength(delayHeadroomBlocks, numBlocks), numSections, 2)
  {
    var filterLengthBlocks := FilterLength(delayHeadroomBlocks, numBlocks);
    sectionSizes := Zeros(numSections);
    var remainingBlocks: nat, remainingSections: nat, estimatorSize: nat := filterLengthBlocks, numSections, 2;
    var idx := 0;
    hide Scaled, Shares, Sizes;
    ghost var all := Sizes(filterLengthBlocks, numSections, 2);
    while remainingSections > 1 && remainingBlocks > Scaled(estimatorSize, remainingSections)
      invariant remainingSections > 0 && idx + remainingSections == numSections && |sectionSizes| == numSections
      invariant sectionSizes[..idx] + Sizes(remainingBlocks, remainingSections, estimatorSize) == all
      decreases remainingSections
    {
      ghost var done := sectionSizes[..idx];
      NextSize(done, remainingBlocks, remainingSections, estimatorSize);
      sectionSizes := sectionSizes[idx := estimatorSize];
      assert sectionSizes[..idx + 1] == done + [estimatorSize];
      remainingBlocks := remainingBlocks - estimatorSize;
      remainingSections := remainingSections - 1;
      estimatorSize := estimatorSize * 2;
      idx := idx + 1;
    }
    LastSizes(remainingBlocks, remainingSections, estimatorSize);
    sectionSizes := ShareRest(sectionSizes, idx, remainingBlocks, remainingSections);
  }

  /** Even shares for the sections from an index on. */
  method ShareRest(sizes: seq<int>, from: nat, remainingBlocks: nat, remainingSections: nat)
    returns (sectionSizes: seq<int>)
    requires remainingSections > 0 && from + remainingSections == |sizes|
    ensures sectionSizes == sizes[..from] + Shares(remainingBlocks, remainingSections)
  {
    sectionSizes := sizes;
    hide Scaled, Quotient;
    var lastGroupsSize := Quotient(remainingBlocks, remainingSections);
    for idx := from to |sizes|
      invariant |sectionSizes| == |sizes| && sectionSizes[..from] == sizes[..from]
      invariant forall i: nat :: from <= i < idx ==> sectionSizes[i] == lastGroupsSize
    {
      sectionSizes := sectionSizes[idx := lastGroupsSize];
    }
    var last := |sizes| - 1;
    var left := remainingBlocks - Scaled(lastGroupsSize, remainingSections);
    sectionSizes := sectionSizes[last := sectionSizes[last] + left];
    assert sectionSizes[from..] == Shares(remainingBlocks, remainingSections);
    assert sectionSizes == sectionSizes[..from] + sectionSizes[from..];
  }

  /** Each boundary is the one before plus the size of the section between them. */
  ghost predicate Bounds(boundaries: seq<int>, sizes: seq<int>, headroom: int, n: nat)
    requires n <= |sizes|
  {
    n < |boundaries| && forall i: nat :: i <= n ==> boundaries[i] == headroom + Sum(sizes[..i])
  }

  lemma PrefixNext(sizes: seq<int>, i: nat)
    requires i < |sizes| && AllAtLeast(sizes, 0)
    ensures Sum(sizes[..i + 1]) == Sum(sizes[..i]) + sizes[i] && Sum(sizes[..0]) == 0
    ensures Sum(sizes[..i + 1]) <= Sum(sizes)
  {
    PrefixSums(sizes, i + 1);
    PrefixSums(sizes, i);
    assert sizes[..0] == [];
  }

  lemma BoundsNext(boundaries: seq<int>, sizes: seq<int>, headroom: int, n: nat)
    requires n < |sizes| && n + 1 < |boundaries| && AllAtLeast(sizes, 0) && Bounds(boundaries, sizes, headroom, n)
    ensures Bounds(boundaries[n + 1 := boundaries[n] + sizes[n]], sizes, headroom, n + 1)
  {
    PrefixNext(sizes, n);
    hide Sum;
  }

  lemma BoundsAt(boundaries: seq<int>, sizes: seq<int>, headroom: int, n: nat)
    requires n < |sizes| && AllAtLeast(sizes, 0) && Bounds(boundaries, sizes, headroom, n)
    ensures n < |boundaries| && boundaries[n] + sizes[n] <= headroom + Sum(sizes)
    ensures n + 1 == |sizes| ==> boundaries[n] + sizes[n] == headroom + Sum(sizes)
  {
    PrefixNext(sizes, n);
    assert n + 1 == |sizes| ==> sizes[..n + 1] == sizes;
  }

  /** There is a block for every section. */
  predicate Spacious(headroom: nat, numBlocks: nat, numSections: nat) {
    numSections <= numBlocks - headroom
  }

  /** With fewer blocks than sections each block is a boundary, and the boundaries after them stay zero. */
  ghost predicate Crowded(boundaries: seq<int>, headroom: nat, last: int) {
    forall i: nat :: i < |boundaries| ==>
      boundaries[i] == if headroom + i <= Max(headroom, last) then headroom + i else 0
  }

  method SetSectionsBoundaries(delayHeadroomBlocks: SizeT, numBlocks: SizeT, numSections: nat)
    returns (boundaries: seq<int>)
    requires numSections > 0
    ensures |boundaries| == numSections + 1 && boundaries[numSections] == numBlocks
    ensures numSections == 1 ==> boundaries[0] == 0
    ensures numSections > 1 && Spacious(delayHeadroomBlocks, numBlocks, numSections) ==>
              Bounds(boundaries, Sizes(numBlocks - delayHeadroomBlocks, numSections, 2), delayHeadroomBlocks,
                     numSections)
    ensures numSections > 1 && !Spacious(delayHeadroomBlocks, numBlocks, numSections) ==>
              Crowded(boundaries[..numSections], delayHeadroomBlocks, numBlocks)
  {
    boundaries := Zeros(numSections + 1);
    if |boundaries| == 2 {
      boundaries := boundaries[0 := 0];
      boundaries := boundaries[1 := numBlocks];
      return;
    }
    var sectionSizes := DefineFilterSectionSizes(delayHeadroomBlocks, numBlocks, numSections);
    SizesFit(delayHeadroomBlocks, numBlocks, numSections);
    hide Sizes, Bounds, SizesOf, Crowded;
    boundaries := Place(boundaries, sectionSizes, delayHeadroomBlocks, numBlocks);
  }

  /** Where the loop over the blocks stands: at block k in section idx, of which it has seen some blocks. */
  ghost predicate Placing(boundaries: seq<int>, sizes: seq<int>, headroom: nat, numBlocks: nat, idx: nat, seen: int,
                          k: int) {
    && |boundaries| == |sizes| + 1 && idx < |sizes| && headroom <= k <= Max(headroom, numBlocks)
    && if Spacious(headroom, numBlocks, |sizes|)
       then Bounds(boundaries, sizes, headroom, idx) && k == boundaries[idx] + seen && seen < sizes[idx]
       else k == headroom + idx && seen == 0 && Crowded(boundaries, headroom, k)
  }

  ghost predicate Placed(boundaries: seq<int>, sizes: seq<int>, headroom: nat, numBlocks: nat) {
    && |boundaries| == |sizes| + 1 && boundaries[|sizes|] == numBlocks
    && if Spacious(headroom, numBlocks, |sizes|) then Bounds(boundaries, sizes, headroom, |sizes|)
       else Crowded(boundaries[..|sizes|], headroom, numBlocks)
  }

  ghost predicate SizesOf(sizes: seq<int>, headroom: nat, numBlocks: nat) {
    && |sizes| > 0
    && if Spacious(headroom, numBlocks, |sizes|) then Sum(sizes) == numBlocks - headroom && AllAtLeast(sizes, 1)
       else headroom <= numBlocks ==> forall i: nat :: i < |sizes| - 1 ==> sizes[i] == 0
  }

  lemma SizesFit(headroom: SizeT, numBlocks: SizeT, n: nat)
    requires n > 0
    ensures SizesOf(Sizes(FilterLength(headroom, numBlocks), n, 2), headroom, numBlocks)
  {
    hide Sizes, Sum, Scaled, Ascending;
    if Spacious(headroom, numBlocks, n) {
      ScaledRules(1, n);
      SizesAre(numBlocks - headroom, n, 2, 1);
    } else if headroom <= numBlocks {
      FewBlocks(numBlocks - headroom, n);
    }
  }

  lemma FewBlocks(blocks: nat, n: nat)
    requires blocks < n
    ensures forall i: nat :: i < n - 1 ==> Sizes(blocks, n, 2)[i] == 0
  {
    assert Scaled(2, n) == 2 * n;
    LastSizes(blocks, n, 2);
  }

  lemma PlaceStart(boundaries: seq<int>, sizes: seq<int>, headroom: nat, numBlocks: nat)
    requires SizesOf(sizes, headroom, numBlocks) && boundaries == Zeros(|sizes| + 1)
    ensures Placing(boundaries[0 := headroom], sizes, headroom, numBlocks, 0, 0, headroom)
  {
    if Spacious(headroom, numBlocks, |sizes|) {
      PrefixNext(sizes, 0);
      hide Sum;
    }
  }

  /** One block more: still in the section, or at its end, or at the end of the last section. */
  lemma PlaceNext(boundaries: seq<int>, sizes: seq<int>, headroom: nat, numBlocks: nat, idx: nat, seen: int, k: int)
    requires SizesOf(sizes, headroom, numBlocks) && Placing(boundaries, sizes, headroom, numBlocks, idx, seen, k)
    requires k < numBlocks
    ensures seen + 1 < sizes[idx] ==> Placing(boundaries, sizes, headroom, numBlocks, idx, seen + 1, k + 1)
    ensures seen + 1 >= sizes[idx] && idx + 1 < |sizes| ==>
              Placing(boundaries[idx + 1 := k + 1], sizes, headroom, numBlocks, idx + 1, 0, k + 1)
    ensures seen + 1 >= sizes[idx] && idx + 1 == |sizes| ==>
              Placed(boundaries[|sizes| := numBlocks], sizes, headroom, numBlocks)
  {
    if Spacious(headroom, numBlocks, |sizes|) {
      hide Crowded;
      BoundsAt(boundaries, sizes, headroom, idx);
      BoundsNext(boundaries, sizes, headroom, idx);
      hide Bounds, Sum;
      assert idx + 1 < |sizes| ==> sizes[idx + 1] >= 1;
    }
  }

  /** The blocks do not run out before the last section is complete. */
  lemma PlaceEnd(boundaries: seq<int>, sizes: seq<int>, headroom: nat, numBlocks: nat, idx: nat, seen: int, k: int)
    requires SizesOf(sizes, headroom, numBlocks) && Placing(boundaries, sizes, headroom, numBlocks, idx, seen, k)
    requires k >= numBlocks
    ensures Placed(boundaries[|sizes| := numBlocks], sizes, headroom, numBlocks)
  {
    if Spacious(headroom, numBlocks, |sizes|) {
      BoundsAt(boundaries, sizes, headroom, idx);
    }
  }

  /** The loop over the blocks. */
  method Place(start: seq<int>, sectionSizes: seq<int>, delayHeadroomBlocks: nat, numBlocks: nat)
    returns (boundaries: seq<int>)
    requires start == Zeros(|sectionSizes| + 1) && SizesOf(sectionSizes, delayHeadroomBlocks, numBlocks)
    ensures Placed(boundaries, sectionSizes, delayHeadroomBlocks, numBlocks)
  {
    hide Placed, SizesOf, Crowded;
    boundaries := start;
    var idx: nat, currentSizeBlock := 0, 0;
    PlaceStart(boundaries, sectionSizes, delayHeadroomBlocks, numBlocks);
    boundaries := boundaries[0 := delayHeadroomBlocks];
    var k: int := delayHeadroomBlocks;
    hide Bounds;
    while k < numBlocks
      invariant Placing(boundaries, sectionSizes, delayHeadroomBlocks, numBlocks, idx, currentSizeBlock, k)
      decreases numBlocks - k
    {
      PlaceNext(boundaries, sectionSizes, delayHeadroomBlocks, numBlocks, idx, currentSizeBlock, k);
      currentSizeBlock := currentSizeBlock + 1;
      if currentSizeBlock >= sectionSizes[idx] {
        idx := idx + 1;
        if idx == |sectionSizes| {
          boundaries := boundaries[|sectionSizes| := numBlocks];
          return;
        }
        boundaries := boundaries[idx := k + 1];
        currentSizeBlock := 0;
      }
      k := k + 1;
    }
    PlaceEnd(boundaries, sectionSizes, delayHeadroomBlocks, numBlocks, idx, currentSizeBlock, k);
    boundaries := boundaries[|sectionSizes| := numBlocks];
  }

  /** The boundaries rise strictly exactly when there is a block for every section. */
  lemma {:induction false} StrictlyAscendingBoundaries(boundaries: seq<int>, headroom: nat, numBlocks: nat,
                                                       numSections: nat)
    requires numSections > 1 && |boundaries| == numSections + 1 && boundaries[numSections] == numBlocks
    requires Spacious(headroom, numBlocks, numSections) ==>
               Bounds(boundaries, Sizes(numBlocks - headroom, numSections, 2), headroom, numSections)
    requires !Spacious(headroom, numBlocks, numSections) ==> Crowded(boundaries[..numSections], headroom, numBlocks)
    ensures StrictlyAscending(boundaries) <==> Spacious(headroom, numBlocks, numSections)
  {
    if Spacious(headroom, numBlocks, numSections) {
      ScaledRules(1, numSections);
      SizesAre(numBlocks - headroom, numSections, 2, 1);
      var sizes := Sizes(numBlocks - headroom, numSections, 2);
      hide Sizes, Sum;
      forall i: nat, j: nat | i < j <= numSections
        ensures boundaries[i] < boundaries[j]
      {
        PrefixRises(sizes, i, j);
      }
    } else if StrictlyAscending(boundaries) {
      assert boundaries[..numSections][0] == headroom;
      AtLeastSteps(boundaries, numSections);
    }
  }

  lemma {:induction false} PrefixRises(sizes: seq<int>, i: nat, j: nat)
    requires AllAtLeast(sizes, 1) && i < j <= |sizes|
    ensures Sum(sizes[..i]) < Sum(sizes[..j])
    decreases j
  {
    PrefixNext(sizes, j - 1);
    if i < j - 1 {
      PrefixRises(sizes, i, j - 1);
    }
  }

  lemma {:induction false} AtLeastSteps(s: seq<int>, i: nat)
    requires StrictlyAscending(s) && i < |s|
    ensures s[i] >= s[0] + i
  {
    if i > 0 {
      AtLeastSteps(s, i - 1);
    }
  }
}

/** Which sections of the filter carry the echo. */
module SignalDependentErle {
  import opened Numbers
  import opened PowerSpectra
  import opened Circular
  import opened Products
  import opened RingBuffers

  function Plus(a: PowerSpectrum, b: PowerSpectrum): PowerSpectrum {
    seq(BINS, k requires 0 <= k < BINS => a[k] + b[k])
  }

  function Product(a: PowerSpectrum, b: PowerSpectrum): PowerSpectrum {
    seq(BINS, k requires 0 <= k < BINS => Times(a[k], b[k]))
  }

  /** The render power under the filter blocks from lo up to hi, block b being b steps after the position. */
  function RenderPower(x: seq<PowerSpectrum>, position: nat, lo: nat, hi: nat): PowerSpectrum
    requires position < |x|
    decreases hi
  {
    if hi <= lo then NoPower() else Plus(RenderPower(x, position, lo, hi - 1), x[Advance(position, |x|, hi - 1)])
  }

  function FilterPower(h: seq<PowerSpectrum>, lo: nat, hi: nat): PowerSpectrum
    requires hi <= |h|
    decreases hi
  {
    if hi <= lo then NoPower() else Plus(FilterPower(h, lo, hi - 1), h[hi - 1])
  }

  function Limit(boundaries: seq<nat>, h: seq<PowerSpectrum>, section: nat): nat
    requires section + 1 < |boundaries|
  {
    if boundaries[section + 1] < |h| then boundaries[section + 1] else |h|
  }

  /** The approximate echo power of one section. */
  function SectionPower(x: seq<PowerSpectrum>, position: nat, h: seq<PowerSpectrum>, boundaries: seq<nat>, section: nat)
    : PowerSpectrum
    requires position < |x| && section + 1 < |boundaries|
  {
    var limit := Limit(boundaries, h, section);
    Product(RenderPower(x, position, boundaries[section], limit), FilterPower(h, boundaries[section], limit))
  }

  /** The approximate echo power of the sections up to one. */
  function EchoPower(x: seq<PowerSpectrum>, position: nat, h: seq<PowerSpectrum>, boundaries: seq<nat>, section: nat)
    : PowerSpectrum
    requires position < |x| && section + 1 < |boundaries|
  {
    var here := SectionPower(x, position, h, boundaries, section);
    if section == 0 then here else Plus(EchoPower(x, position, h, boundaries, section - 1), here)
  }

  /** In every bin, a section has the sum of the render power under its blocks, the block b steps after the position for
      filter block b, times the sum of the filter power over them; it ends with the filter at the latest. */
  lemma SectionPowerIs(x: seq<PowerSpectrum>, position: nat, h: seq<PowerSpectrum>, boundaries: seq<nat>, section: nat,
                       k: nat)
    requires position < |x| && section + 1 < |boundaries| && k < BINS
    ensures var lo, hi := boundaries[section], Min(boundaries[section + 1], |h|);
            SectionPower(x, position, h, boundaries, section)[k]
            == RenderPower(x, position, lo, hi)[k] * FilterPower(h, lo, hi)[k]
    ensures EchoPower(x, position, h, boundaries, section)[k]
         == SectionPower(x, position, h, boundaries, section)[k]
            + if section == 0 then 0.0 else EchoPower(x, position, h, boundaries, section - 1)[k]
  {
    hide RenderPower, FilterPower;
  }

  lemma PowersAdd(x: seq<PowerSpectrum>, position: nat, h: seq<PowerSpectrum>, lo: nat, hi: nat, k: nat)
    requires position < |x| && lo <= hi && k < BINS
    ensures RenderPower(x, position, lo, lo)[k] == 0.0
    ensures RenderPower(x, position, lo, hi + 1)[k] == RenderPower(x, position, lo, hi)[k] + x[(position + hi) % |x|][k]
    ensures hi < |h| ==> FilterPower(h, lo, lo)[k] == 0.0
                         && FilterPower(h, lo, hi + 1)[k] == FilterPower(h, lo, hi)[k] + h[hi][k]
  {
    AdvanceIsRemainder(position, |x|, hi);
    hide Advance;
  }

  ghost predicate NonNegative(s: seq<PowerSpectrum>) {
    forall i: nat, k: nat :: i < |s| && k < BINS ==> s[i][k] >= 0.0
  }

  lemma {:induction false} RenderPowerNonNegative(x: seq<PowerSpectrum>, position: nat, lo: nat, hi: nat, k: nat)
    requires position < |x| && NonNegative(x) && k < BINS
    ensures RenderPower(x, position, lo, hi)[k] >= 0.0
    decreases hi
  {
    if hi > lo {
      RenderPowerNonNegative(x, position, lo, hi - 1, k);
    }
  }

  lemma {:induction false} FilterPowerNonNegative(h: seq<PowerSpectrum>, lo: nat, hi: nat, k: nat)
    requires hi <= |h| && NonNegative(h) && k < BINS
    ensures FilterPower(h, lo, hi)[k] >= 0.0
    decreases hi
  {
    if hi > lo {
      FilterPowerNonNegative(h, lo, hi - 1, k);
    }
  }

  lemma TimesNonNegative(a: real, b: real)
    requires a >= 0.0 && b >= 0.0
    ensures Times(a, b) >= 0.0
  {
  }

  /** With non-negative powers the echo power grows from section to section. */
  lemma {:induction false} EchoPowerGrows(x: seq<PowerSpectrum>, position: nat, h: seq<PowerSpectrum>,
                                          boundaries: seq<nat>, section: nat, k: nat)
    requires position < |x| && section + 1 < |boundaries| && NonNegative(x) && NonNegative(h) && k < BINS
    ensures EchoPower(x, position, h, boundaries, section)[k] >= 0.0
    ensures section > 0 ==>
            EchoPower(x, position, h, boundaries, section - 1)[k] <= EchoPower(x, position, h, boundaries, section)[k]
  {
    var limit := Limit(boundaries, h, section);
    RenderPowerNonNegative(x, position, boundaries[section], limit, k);
    FilterPowerNonNegative(h, boundaries[section], limit, k);
    TimesNonNegative(RenderPower(x, position, boundaries[section], limit)[k],
                     FilterPower(h, boundaries[section], limit)[k]);
    hide Times, RenderPower, FilterPower, NonNegative;
    if section > 0 {
      EchoPowerGrows(x, position, h, boundaries, section - 1, k);
    }
  }

  ghost predicate Growing(accum: seq<PowerSpectrum>, k: nat)
    requires k < BINS
  {
    forall i: nat, j: nat :: i <= j < |accum| ==> 0.0 <= accum[i][k] <= accum[j][k]
  }

  class SignalDependentErleEstimator {
    const numSections: nat
    const sectionBoundariesBlocks: seq<nat>
    var S2SectionAccum: seq<PowerSpectrum>

    ghost predicate Valid()
      reads this
    {
      && numSections > 1 && |sectionBoundariesBlocks| == numSections + 1 && |S2SectionAccum| == numSections
      && forall i: nat, j: nat :: i <= j <= numSections ==> sectionBoundariesBlocks[i] <= sectionBoundariesBlocks[j]
    }

    constructor (sectionBoundariesBlocks: seq<nat>)
      requires |sectionBoundariesBlocks| > 2
      requires forall i: nat, j: nat :: i <= j < |sectionBoundariesBlocks| ==>
               sectionBoundariesBlocks[i] <= sectionBoundariesBlocks[j]
      ensures Valid() && this.sectionBoundariesBlocks == sectionBoundariesBlocks
    {
      numSections := |sectionBoundariesBlocks| - 1;
      this.sectionBoundariesBlocks := sectionBoundariesBlocks;
      S2SectionAccum := seq(|sectionBoundariesBlocks| - 1, _ => NoPower());
    }

    /** The power of render signal and filter over the blocks of one section. */
    method SumSection(x: seq<PowerSpectrum>, ring: Positions, h: seq<PowerSpectrum>, from: nat, limit: nat, start: nat,
                      ghost position: nat)
      returns (x2Section: PowerSpectrum, h2Section: PowerSpectrum, idxRender: nat)
      requires position < |x| == ring.size && limit <= |h| && start < |x|
      requires from <= limit ==> start == Advance(position, |x|, from)
      ensures idxRender < |x| && (from <= limit ==> idxRender == Advance(position, |x|, limit))
      ensures x2Section == RenderPower(x, position, from, limit) && h2Section == FilterPower(h, from, limit)
    {
      x2Section, h2Section, idxRender := NoPower(), NoPower(), start;
      hide Plus;
      var block := from;
      while block < limit
        invariant from <= block && (from <= limit ==> block <= limit) && idxRender < |x|
        invariant from <= limit ==> idxRender == Advance(position, |x|, block)
        invariant x2Section == RenderPower(x, position, from, if block <= limit then block else limit)
        invariant h2Section == FilterPower(h, from, if block <= limit then block else limit)
        decreases limit - block
      {
        x2Section := Plus(x2Section, x[idxRender]);
        h2Section := Plus(h2Section, h[block]);
        idxRender := ring.IncIndex(idxRender);
        block := block + 1;
      }
    }

    /** The echo power up to each section. */
    method ComputeEchoEstimatePerFilterSection(x: seq<PowerSpectrum>, ring: Positions, h: seq<PowerSpectrum>)
      requires Valid() && ring.size == |x| && ring.read < |x| && sectionBoundariesBlocks[0] <= |x|
      modifies this
      ensures Valid()
      ensures forall s: nat :: s < numSections ==>
                                 S2SectionAccum[s] == EchoPower(x, ring.read, h, sectionBoundariesBlocks, s)
    {
      var idxRender: nat := ring.read;
      AdvanceIs(ring.read, |x|, sectionBoundariesBlocks[0]);
      idxRender := ring.OffsetIndex(idxRender, sectionBoundariesBlocks[0]);
      ghost var position := ring.read;
      for section := 0 to numSections
        invariant Valid() && idxRender < |x|
        invariant sectionBoundariesBlocks[section] <= |h| || section == 0 ==>
                    idxRender == Advance(position, |x|, sectionBoundariesBlocks[section])
        invariant forall s: nat :: s < section ==>
                                     S2SectionAccum[s] == SectionPower(x, position, h, sectionBoundariesBlocks, s)
      {
        var blockLimit := Limit(sectionBoundariesBlocks, h, section);
        var x2Section, h2Section;
        assert sectionBoundariesBlocks[section] <= sectionBoundariesBlocks[section + 1];
        x2Section, h2Section, idxRender :=
          SumSection(x, ring, h, sectionBoundariesBlocks[section], blockLimit, idxRender, position);
        hide Product, RenderPower, FilterPower;
        S2SectionAccum := S2SectionAccum[section := Product(x2Section, h2Section)];
      }
      Accumulate(x, position, h);
    }

    method Accumulate(ghost x: seq<PowerSpectrum>, ghost position: nat, ghost h: seq<PowerSpectrum>)
      requires Valid() && position < |x|
      requires forall s: nat :: s < numSections ==>
               S2SectionAccum[s] == SectionPower(x, position, h, sectionBoundariesBlocks, s)
      modifies this
      ensures Valid()
      ensures forall s: nat :: s < numSections ==>
              S2SectionAccum[s] == EchoPower(x, position, h, sectionBoundariesBlocks, s)
    {
      hide SectionPower, Plus;
      for section := 1 to numSections
        invariant Valid()
        invariant forall s: nat :: s < section ==>
                  S2SectionAccum[s] == EchoPower(x, position, h, sectionBoundariesBlocks, s)
        invariant forall s: nat :: section <= s < numSections ==>
                                     S2SectionAccum[s] == SectionPower(x, position, h, sectionBoundariesBlocks, s)
      {
        S2SectionAccum := S2SectionAccum[section := Plus(S2SectionAccum[section - 1], S2SectionAccum[section])];
      }
    }

    /** For every bin the least section that reaches 90 percent of the echo power. */
    method ComputeActiveFilterSections() returns (numberActiveFilterSections: seq<nat>)
      requires Valid() && forall k: nat :: k < BINS ==> Growing(S2SectionAccum, k)
      ensures |numberActiveFilterSections| == BINS
      ensures forall k: nat :: k < BINS ==>
                var n, target := numberActiveFilterSections[k], 0.9 * S2SectionAccum[numSections - 1][k];
                && n < numSections && S2SectionAccum[n][k] >= target
                && forall s: nat :: s < n ==> S2SectionAccum[s][k] < target
    {
      numberActiveFilterSections := seq(BINS, _ => 0);
      for k := 0 to BINS
        invariant |numberActiveFilterSections| == BINS
        invariant forall i: nat :: i < k ==>
                    var n, target := numberActiveFilterSections[i], 0.9 * S2SectionAccum[numSections - 1][i];
                    && n < numSections && S2SectionAccum[n][i] >= target
                    && forall s: nat :: s < n ==> S2SectionAccum[s][i] < target
      {
        var section := LeastReaching(k);
        numberActiveFilterSections := numberActiveFilterSections[k := section];
      }
    }

    method LeastReaching(k: nat) returns (active: nat)
      requires Valid() && k < BINS && Growing(S2SectionAccum, k)
      ensures var target := 0.9 * S2SectionAccum[numSections - 1][k];
              && active < numSections && S2SectionAccum[active][k] >= target
              && forall s: nat :: s < active ==> S2SectionAccum[s][k] < target
    {
      active := 0;
      var section := numSections;
      var target := 0.9 * S2SectionAccum[numSections - 1][k];
      assert S2SectionAccum[numSections - 1][k] >= target;
      while section > 0 && S2SectionAccum[section - 1][k] >= target
        invariant section <= numSections
        invariant section < numSections ==> active == section && S2SectionAccum[section][k] >= target
      {
        section := section - 1;
        active := section;
      }
    }

    /** After the echo powers have been computed, they grow in every bin. */
    lemma PowersGrow(x: seq<PowerSpectrum>, position: nat, h: seq<PowerSpectrum>, k: nat)
      requires Valid() && position < |x| && NonNegative(x) && NonNegative(h) && k < BINS
      requires forall s: nat :: s < numSections ==>
               S2SectionAccum[s] == EchoPower(x, position, h, sectionBoundariesBlocks, s)
      ensures Growing(S2SectionAccum, k)
    {
      forall i: nat, j: nat | i <= j < numSections
        ensures 0.0 <= S2SectionAccum[i][k] <= S2SectionAccum[j][k]
      {
        EchoPowerOrder(x, position, h, sectionBoundariesBlocks, i, j, k);
      }
    }
  }

  lemma {:induction false} EchoPowerOrder(x: seq<PowerSpectrum>, position: nat, h: seq<PowerSpectrum>,
                                          boundaries: seq<nat>, i: nat, j: nat, k: nat)
    requires position < |x| && j + 1 < |boundaries| && NonNegative(x) && NonNegative(h) && k < BINS && i <= j
    ensures 0.0 <= EchoPower(x, position, h, boundaries, i)[k] <= EchoPower(x, position, h, boundaries, j)[k]
    decreases j
  {
    hide EchoPower, NonNegative;
    EchoPowerGrows(x, position, h, boundaries, j, k);
    if i < j {
      EchoPowerOrder(x, position, h, boundaries, i, j - 1, k);
    }
  }
}
