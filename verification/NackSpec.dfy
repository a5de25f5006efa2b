/** The integers that are missing from a set of received ones, in ascending order. */
module Gaps {

  ghost predicate Ascending(s: seq<int>) {
    forall i, j :: 0 <= i < j < |s| ==> s[i] < s[j]
  }

  ghost function Missing(lo: int, hi: int, received: set<int>): seq<int>
    decreases hi - lo
  {
    if hi <= lo then []
    else if hi - 1 in received then Missing(lo, hi - 1, received)
    else Missing(lo, hi - 1, received) + [hi - 1]
  }

  lemma {:induction false} MissingIs(lo: int, hi: int, received: set<int>)
    ensures Ascending(Missing(lo, hi, received))
    ensures forall n :: n in Missing(lo, hi, received) <==> lo <= n < hi && n !in received
    decreases hi - lo
  {
    if lo < hi {
      MissingIs(lo, hi - 1, received);
      var r := Missing(lo, hi - 1, received);
      assert forall i :: 0 <= i < |r| ==> r[i] in r;
    }
  }

  /** An ascending sequence is determined by its elements. */
  lemma {:induction false} AscendingUnique(a: seq<int>, b: seq<int>)
    requires Ascending(a) && Ascending(b)
    requires forall n :: n in a <==> n in b
    ensures a == b
  {
    SameEmptiness(a, b);
    SameEmptiness(b, a);
    if a != [] {
      DropLast(a);
      DropLast(b);
      AscendingUnique(a[..|a| - 1], b[..|b| - 1]);
    }
  }

  lemma SameEmptiness(a: seq<int>, b: seq<int>)
    requires forall n :: n in a ==> n in b
    ensures a != [] ==> b != [] && a[|a| - 1] in b
  {
    if a != [] {
      var x := a[|a| - 1];
      assert x in a && x in b;
    }
  }

  lemma DropLast(s: seq<int>)
    requires Ascending(s) && s != []
    ensures var k := |s| - 1;
            && s == s[..k] + [s[k]]
            && Ascending(s[..k])
            && (forall n :: n in s ==> n <= s[k])
            && forall n :: n in s[..k] <==> n in s && n != s[k]
  {
    var k := |s| - 1;
    assert s == s[..k] + [s[k]];
  }

  /** Receiving one of the missing numbers removes exactly that entry. */
  lemma MissingRemove(lo: int, hi: int, received: set<int>, k: nat)
    requires k < |Missing(lo, hi, received)|
    ensures var m := Missing(lo, hi, received);
            Missing(lo, hi, received + {m[k]}) == m[..k] + m[k + 1..]
  {
    var m := Missing(lo, hi, received);
    MissingIs(lo, hi, received);
    MissingIs(lo, hi, received + {m[k]});
    RemoveAt(m, k);
    var r, r' := m[..k] + m[k + 1..], Missing(lo, hi, received + {m[k]});
    forall n
      ensures n in r <==> n in r'
    {
      assert n in r <==> n in m && n != m[k];
    }
    AscendingUnique(r, r');
  }

  lemma RemoveAt(m: seq<int>, k: nat)
    requires k < |m| && Ascending(m)
    ensures Ascending(m[..k] + m[k + 1..])
    ensures forall n :: n in m[..k] + m[k + 1..] <==> n in m && n != m[k]
  {
    assert m == m[..k] + [m[k]] + m[k + 1..];
  }

  /** Receiving a number that is not missing changes nothing. */
  lemma MissingKeep(lo: int, hi: int, received: set<int>, u: int)
    requires u !in Missing(lo, hi, received)
    ensures Missing(lo, hi, received + {u}) == Missing(lo, hi, received)
  {
    MissingIs(lo, hi, received);
    MissingIs(lo, hi, received + {u});
    AscendingUnique(Missing(lo, hi, received + {u}), Missing(lo, hi, received));
  }

  /** Raising the lower end drops a prefix. */
  lemma MissingDrop(lo: int, lo': int, hi: int, received: set<int>, k: nat)
    requires lo <= lo'
    requires k <= |Missing(lo, hi, received)|
    requires forall i :: 0 <= i < |Missing(lo, hi, received)| ==> (Missing(lo, hi, received)[i] < lo' <==> i < k)
    ensures Missing(lo', hi, received) == Missing(lo, hi, received)[k..]
  {
    hide Missing;
    var m, r := Missing(lo, hi, received), Missing(lo', hi, received);
    MissingIs(lo, hi, received);
    MissingIs(lo', hi, received);
    var kept := m[k..];
    assert Ascending(kept);
    forall n
      ensures n in kept <==> n in r
    {
      assert n in kept <==> n in m && lo' <= n by {
        assert m == m[..k] + kept;
        assert forall i :: 0 <= i < |kept| ==> kept[i] == m[k + i] && lo' <= kept[i];
        assert forall i :: 0 <= i < k ==> m[..k][i] < lo';
      }
    }
    AscendingUnique(kept, r);
  }

  /** The first number to keep splits the sequence. */
  lemma {:induction false} SplitAt(s: seq<int>, bound: int) returns (k: nat)
    requires Ascending(s)
    ensures k <= |s|
    ensures forall i :: 0 <= i < |s| ==> (s[i] < bound <==> i < k)
  {
    k := 0;
    while k < |s| && s[k] < bound
      invariant k <= |s|
      invariant forall i :: 0 <= i < k ==> s[i] < bound
    {
      k := k + 1;
    }
  }

  function Range(lo: int, hi: int): (r: seq<int>)
    requires lo <= hi
    ensures |r| == hi - lo
    ensures forall i :: 0 <= i < |r| ==> r[i] == lo + i
    decreases hi - lo
  {
    if lo == hi then [] else Range(lo, hi - 1) + [hi - 1]
  }

  /** Moving the upper end past a run of numbers that were never received appends that run. */
  lemma {:induction false} MissingExtend(lo: int, hi: int, hi': int, received: set<int>)
    requires lo <= hi <= hi'
    requires forall r :: r in received ==> r < hi
    ensures Missing(lo, hi', received) == Missing(lo, hi, received) + Range(hi, hi')
    decreases hi' - hi
  {
    if hi < hi' {
      MissingExtend(lo, hi, hi' - 1, received);
      assert Missing(lo, hi', received) == Missing(lo, hi' - 1, received) + [hi' - 1];
    }
  }
}

/** The specification: a NACK list over unwrapped sequence numbers. */
module NackSpec {
  import opened Numbers
  import opened SerialNumber
  import opened Gaps

  /** floor is the lowest number the list may still hold. */
  datatype Tracked = Tracked(received: set<int>, newest: int, floor: int)

  function First(s: Seq16): Tracked {
    Tracked({s}, s, s)
  }

  /** A packet arrives: it counts as received, and a newer one moves the window. */
  function Receive(t: Tracked, s: Seq16, limit: nat): Tracked {
    var u := Unwrap(t.newest, s);
    if u <= t.newest then t.(received := t.received + {u})
    else Tracked(t.received + {u}, u, Max(t.floor, u - limit))
  }

  /** Everything below bound is given up. */
  function Forget(t: Tracked, bound: int): Tracked {
    t.(floor := Max(t.floor, Min(bound, t.newest)))
  }

  ghost function List(t: Tracked): seq<int> {
    Missing(t.floor, t.newest, t.received)
  }

  /** What is given up is everything below the bound. */
  lemma {:induction false} ForgetList(t: Tracked, bound: int)
    ensures forall n :: n in List(Forget(t, bound)) <==> n in List(t) && n >= bound
  {
    MissingIs(t.floor, t.newest, t.received);
    MissingIs(Forget(t, bound).floor, t.newest, t.received);
  }

  lemma FirstIsEmpty(s: Seq16)
    ensures List(First(s)) == [] && First(s).newest == Wrap(s)
  {
  }

  ghost predicate Consistent(t: Tracked, limit: nat) {
    && t.newest in t.received
    && (forall r :: r in t.received ==> r <= t.newest)
    && t.newest - limit <= t.floor <= t.newest
  }

  lemma ReceiveConsistent(t: Tracked, s: Seq16, limit: nat)
    requires Consistent(t, limit)
    ensures Consistent(Receive(t, s, limit), limit)
  {
    UnwrapIsNearest(t.newest, s);
  }

  /** A run of packets, with nothing decoded and the limit fixed. */
  function Run(packets: seq<Seq16>, limit: nat): Tracked
    requires packets != []
  {
    if |packets| == 1 then First(packets[0])
    else Receive(Run(packets[..|packets| - 1], limit), packets[|packets| - 1], limit)
  }

  /** The integer each packet of a run stands for: the one nearest to the newest before it. */
  function Unwrapped(packets: seq<Seq16>): seq<int>
  {
    if packets == [] then []
    else
      var before := Unwrapped(packets[..|packets| - 1]);
      var s := packets[|packets| - 1];
      before + [if before == [] then s else Unwrap(Newest(before), s)]
  }

  function Newest(s: seq<int>): int
    requires s != []
  {
    if |s| == 1 then s[0] else Max(Newest(s[..|s| - 1]), s[|s| - 1])
  }

  lemma {:induction false} NewestIsGreatest(s: seq<int>)
    requires s != []
    ensures Newest(s) in s
    ensures forall n :: n in s ==> n <= Newest(s)
  {
    var k := |s| - 1;
    if k > 0 {
      NewestIsGreatest(s[..k]);
    }
    assert s == s[..k] + [s[k]];
  }

  lemma {:induction false} UnwrappedValues(packets: seq<Seq16>)
    ensures |Unwrapped(packets)| == |packets|
    ensures forall i :: 0 <= i < |packets| ==> Wrap(Unwrapped(packets)[i]) == packets[i]
    ensures packets != [] ==> Unwrapped(packets)[0] == packets[0]
  {
    if packets != [] {
      var k := |packets| - 1;
      UnwrappedStep(packets);
      UnwrappedValues(packets[..k]);
      if k > 0 {
        UnwrapIsNearest(Newest(Unwrapped(packets[..k])), packets[k]);
      }
    }
  }

  lemma {:induction false} RunReceived(packets: seq<Seq16>, limit: nat)
    requires packets != []
    ensures Unwrapped(packets) != []
    ensures Run(packets, limit).newest == Newest(Unwrapped(packets))
    ensures forall n :: n in Run(packets, limit).received <==> n in Unwrapped(packets)
  {
    var k := |packets| - 1;
    UnwrappedStep(packets);
    if k > 0 {
      RunReceived(packets[..k], limit);
    }
  }

  lemma {:induction false} RunFloor(packets: seq<Seq16>, limit: nat)
    requires packets != []
    ensures Run(packets, limit).floor == Max(packets[0], Run(packets, limit).newest - limit)
  {
    var k := |packets| - 1;
    if k > 0 {
      RunFloor(packets[..k], limit);
    }
  }

  lemma UnwrappedStep(packets: seq<Seq16>)
    requires packets != []
    ensures var k := |packets| - 1;
            var us' := Unwrapped(packets[..k]);
            && Unwrapped(packets) == us' + [if us' == [] then packets[k] else Unwrap(Newest(us'), packets[k])]
            && (k == 0 ==> us' == [])
            && (us' != [] ==>
                Newest(Unwrapped(packets)) == Max(Newest(us'), Unwrapped(packets)[|Unwrapped(packets)| - 1]))
  {
    var us' := Unwrapped(packets[..|packets| - 1]);
    assert Unwrapped(packets)[..|us'|] == us';
  }

  /** The list after any run, across any number of wrap-arounds: exactly the numbers after the first packet that were
      never received and lie within limit of the newest, oldest first. */
  lemma {:induction false} RunList(packets: seq<Seq16>, limit: nat)
    requires packets != []
    ensures Unwrapped(packets) != []
    ensures var us := Unwrapped(packets);
            var list := List(Run(packets, limit));
            && Ascending(list)
            && forall n :: n in list <==> packets[0] < n < Newest(us) && n !in us && Newest(us) - n <= limit
  {
    var t := Run(packets, limit);
    MissingIs(t.floor, t.newest, t.received);
    RunReceived(packets, limit);
    RunFloor(packets, limit);
    UnwrappedValues(packets);
    var us := Unwrapped(packets);
    NewestIsGreatest(us);
    forall n
      ensures n in List(Run(packets, limit)) <==> packets[0] < n < Newest(us) && n !in us && Newest(us) - n <= limit
    {
      assert n == packets[0] ==> n in us;
    }
  }
}
