/** Four numbers worked on at once. */
module SimdLanes {
  import opened Products

  datatype Lanes = Lanes(v0: real, v1: real, v2: real, v3: real)

  function Set1(v: real): Lanes {
    Lanes(v, v, v, v)
  }

  function Load(s: seq<real>, p: nat): Lanes
    requires p + 4 <= |s|
  {
    Lanes(s[p], s[p + 1], s[p + 2], s[p + 3])
  }

  function Mul(a: Lanes, b: Lanes): Lanes {
    Lanes(Times(a.v0, b.v0), Times(a.v1, b.v1), Times(a.v2, b.v2), Times(a.v3, b.v3))
  }

  function Add(a: Lanes, b: Lanes): Lanes {
    Lanes(a.v0 + b.v0, a.v1 + b.v1, a.v2 + b.v2, a.v3 + b.v3)
  }

  function Sub(a: Lanes, b: Lanes): Lanes {
    Lanes(a.v0 - b.v0, a.v1 - b.v1, a.v2 - b.v2, a.v3 - b.v3)
  }

  function Store(s: seq<real>, p: nat, a: Lanes): (r: seq<real>)
    requires p + 4 <= |s|
    ensures |r| == |s|
  {
    s[p := a.v0][p + 1 := a.v1][p + 2 := a.v2][p + 3 := a.v3]
  }

  function Total(a: Lanes): real {
    a.v0 + a.v1 + a.v2 + a.v3
  }

  lemma TotalAdd(a: Lanes, b: Lanes)
    ensures Total(Add(a, b)) == Total(a) + Total(b)
  {
  }
}
