/** RTP sequence numbers: 16-bit values compared by serial number arithmetic. */
module SerialNumber {

  type Seq16 = x: int | 0 <= x < 0x1_0000

  function Wrap(x: int): Seq16 {
    x % 0x1_0000
  }

  lemma WrapOfSum(a: int, b: int)
    ensures Wrap(Wrap(a) + b) == Wrap(a + b)
  {
  }

  lemma WrapOfDifference(a: int, b: int)
    ensures Wrap(a - Wrap(b)) == Wrap(a - b)
  {
  }

  lemma WrapOfSmall(a: nat)
    ensures Wrap(a) <= a
    ensures a < 0x1_0000 ==> Wrap(a) == a
  {
  }

  /** RFC 1982, section 3.2, with SERIAL_BITS = 16; numbers exactly half the space apart compare by raw value. */
  predicate IsNewer(a: Seq16, b: Seq16) {
    var distance := Wrap(a - b);
    if distance == 0x8000 then a > b else 0 < distance < 0x8000
  }

  /** Any two different numbers are ordered one way and not the other... */
  lemma NewerIsAsymmetric(a: Seq16, b: Seq16)
    requires a != b
    ensures IsNewer(a, b) != IsNewer(b, a)
  {
    assert Wrap(a - b) == if a >= b then a - b else a - b + 0x1_0000;
    assert Wrap(b - a) == if b >= a then b - a else b - a + 0x1_0000;
  }

  /** ...but the relation is not transitive, so it orders only a window of the number space. */
  lemma NewerIsNotTransitive()
    ensures IsNewer(0x5000, 0) && IsNewer(0xA000, 0x5000) && !IsNewer(0xA000, 0)
  {
  }

  /** Inside a window of less than half the space, serial order is the order of the unwrapped integers. */
  lemma NewerUnwrapped(a: int, b: int)
    requires -0x8000 < a - b < 0x8000
    ensures IsNewer(Wrap(a), Wrap(b)) <==> a > b
    ensures Wrap(a) == Wrap(b) <==> a == b
  {
    assert Wrap(Wrap(a) - Wrap(b)) == Wrap(a - b);
    assert Wrap(a - b) == if a >= b then a - b else a - b + 0x1_0000;
  }

  /** The integer nearest to newest that s can stand for; of two equally near ones, the one the comparison picks. */
  function Unwrap(newest: int, s: Seq16): int {
    if s == Wrap(newest) then newest
    else if IsNewer(s, Wrap(newest)) then newest + Wrap(s - newest)
    else newest - Wrap(newest - s)
  }

  lemma UnwrapIsNearest(newest: int, s: Seq16)
    ensures Wrap(Unwrap(newest, s)) == s
    ensures -0x8000 <= Unwrap(newest, s) - newest <= 0x8000
    ensures Unwrap(newest, s) > newest <==> IsNewer(s, Wrap(newest))
    ensures Unwrap(newest, s) == newest <==> s == Wrap(newest)
  {
    var q, r := newest / 0x1_0000, Wrap(newest);
    assert newest == 0x1_0000 * q + r;
    assert Wrap(s - newest) == if s >= r then s - r else s - r + 0x1_0000;
    assert Wrap(newest - s) == if r >= s then r - s else r - s + 0x1_0000;
    assert Wrap(s - r) == Wrap(s - newest);
  }
}
