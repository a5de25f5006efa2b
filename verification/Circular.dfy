/** Stepping an index around a ring. */
module Circular {

  function Next(i: nat, size: nat): (r: nat)
    requires i < size
    ensures r < size
  {
    if i < size - 1 then i + 1 else 0
  }

  function Advance(i: nat, size: nat, steps: nat): (r: nat)
    requires i < size
    ensures r < size
  {
    if steps == 0 then i else Next(Advance(i, size, steps - 1), size)
  }

  /** Within one turn, stepping is adding and wrapping once. */
  lemma {:induction false} AdvanceIs(i: nat, size: nat, steps: nat)
    requires i < size && steps <= size
    ensures Advance(i, size, steps) == if i + steps < size then i + steps else i + steps - size
  {
    if steps > 0 {
      AdvanceIs(i, size, steps - 1);
    }
  }

  /** Any number of steps is adding and taking the remainder. */
  lemma {:induction false} AdvanceIsRemainder(i: nat, size: nat, steps: nat)
    requires i < size
    ensures Advance(i, size, steps) == (i + steps) % size
  {
    if steps > 0 {
      AdvanceIsRemainder(i, size, steps - 1);
      NextIsRemainder(i + steps - 1, size);
    }
  }

  lemma NextIsRemainder(a: nat, n: nat)
    requires n > 0
    ensures Next(a % n, n) == (a + 1) % n
  {
    var q, r := a / n, a % n;
    assert a == q * n + r;
    var q', r' := if r < n - 1 then q else q + 1, Next(r, n);
    assert (q + 1) * n == q * n + n;
    assert a + 1 == q' * n + r';
    RemainderOf(a + 1, n, q', r');
  }

  lemma RemainderOf(a: nat, n: nat, q: nat, r: nat)
    requires n > 0 && a == q * n + r && r < n
    ensures a % n == r
  {
    var d := q - a / n;
    assert a == (a / n) * n + a % n;
    assert d * n == a % n - r;
    assert d >= 1 ==> d * n >= n;
    assert d <= -1 ==> d * n + n <= 0;
  }

  /** The circular indices of a stretch of steps are consecutive. */
  ghost predicate Straight(start: nat, size: nat, from: nat, limit: nat, offset: int)
    requires start < size
  {
    forall k: nat :: from <= k < from + limit ==> Advance(start, size, k) == k + offset
  }

  /** No more steps than the ring is long fall into two consecutive chunks. */
  lemma ChunksAreStraight(start: nat, size: nat, n: nat)
    requires start < size && n <= size
    ensures var chunk1 := if n < size - start then n else size - start;
            Straight(start, size, 0, chunk1, start) && Straight(start, size, chunk1, n - chunk1, start - size)
  {
    forall k: nat | k < n
      ensures Advance(start, size, k) == if start + k < size then start + k else start + k - size
    {
      AdvanceIs(start, size, k);
    }
    hide Advance;
  }

  lemma SubStraight(start: nat, size: nat, from: nat, limit: nat, offset: int, from': nat, limit': nat)
    requires start < size && Straight(start, size, from, limit, offset)
    requires from <= from' && from' + limit' <= from + limit
    ensures Straight(start, size, from', limit', offset)
    ensures limit' > 0 ==> Advance(start, size, from') == from' + offset
  {
  }

  lemma StraightNothing(start: nat, size: nat, from: nat, offset: int)
    requires start < size
    ensures Straight(start, size, from, 0, offset)
  {
  }
}
