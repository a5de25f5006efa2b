/** When a packet that has not arrived will be played, from 32-bit RTP timestamps. */
module PlayoutTime {
  import opened SerialNumber

  type Stamp = x: int | 0 <= x < 0x1_0000_0000

  function Wrap32(x: int): Stamp {
    x % 0x1_0000_0000
  }

  /** What the tracker knows about time. The number of samples in a packet matters only modulo 2^32. */
  datatype Clock = Clock(
    lastReceived: Seq16, receivedStamp: Stamp, samplesPerPacket: Stamp, decodedStamp: Stamp, sampleRateKhz: int)
  {
    function EstimateTimestamp(n: Seq16): Stamp {
      Wrap32(Wrap(n - lastReceived) * samplesPerPacket + receivedStamp)
    }

    function TimeToPlay(stamp: Stamp): int
      requires sampleRateKhz > 0
    {
      Wrap32(stamp - decodedStamp) / sampleRateKhz
    }
  }

  /** A sender with the same number of samples in every packet, as seen by a player that decoded one packet and has
      waited since then. */
  datatype Grid = Grid(base: int, rate: int, khz: int, decoded: int, waited: int)
  {
    ghost predicate Valid() {
      0 < rate < 0x2_0000 && 0 < khz < 0x8000_0000
    }

    /** The first sample of packet n, not wrapped. */
    ghost function Sample(n: int): int {
      base + rate * n
    }

    ghost function StampOf(n: int): Stamp {
      Wrap32(Sample(n))
    }

    /** The sample that is due now. */
    ghost function Due(): int {
      Sample(decoded) + khz * waited
    }

    /** How many milliseconds packet n is away; negative when it is overdue. */
    ghost function TimeLeft(n: int): int
      requires Valid()
    {
      (Sample(n) - Due()) / khz
    }

    /** The packet is not overdue, and its distance fits in 32 bits. */
    ghost predicate InTime(n: int) {
      0 <= Sample(n) - Due() < 0x1_0000_0000
    }

    ghost function Decode(d: int): Grid {
      Grid(base, rate, khz, d, 0)
    }

    ghost function Wait(ms: int): Grid {
      Grid(base, rate, khz, decoded, waited + ms)
    }
  }

  /** The clock agrees with the sender and the player. */
  ghost predicate OnTime(c: Clock, g: Grid, newest: int) {
    && g.Valid() && c.sampleRateKhz == g.khz
    && c.lastReceived == Wrap(newest) && c.receivedStamp == g.StampOf(newest)
    && c.decodedStamp == Wrap32(g.Due())
  }

  lemma Wrap32OfSum(a: int, b: int)
    ensures Wrap32(Wrap32(a) + b) == Wrap32(a + b)
  {
  }

  lemma Wrap32OfDifference(a: int, b: int)
    ensures Wrap32(Wrap32(a) - Wrap32(b)) == Wrap32(a - b)
  {
  }

  lemma Wrap32OfSmall(a: int)
    requires 0 <= a < 0x1_0000_0000
    ensures Wrap32(a) == a
  {
  }

  lemma Distribute(rate: int, a: int, b: int)
    ensures rate * a - rate * b == rate * (a - b)
  {
  }

  lemma ProductRises(a: int, b: int, c: int)
    requires a > 0 && b <= c
    ensures a * b <= a * c
  {
  }

  lemma ProductBelow(rate: int, d: int)
    requires 0 < rate < 0x2_0000 && 0 < d <= 0x8000
    ensures 0 < rate * d < 0x1_0000_0000
  {
    ProductRises(rate, 1, d);
    ProductRises(rate, d, 0x8000);
  }

  lemma WrapDistance(a: int, b: int)
    requires 0 <= a - b < 0x1_0000
    ensures Wrap(Wrap(a) - Wrap(b)) == a - b
  {
  }

  lemma SampleDistance(g: Grid, a: int, b: int)
    ensures g.Sample(a) - g.Sample(b) == g.rate * (a - b)
  {
    Distribute(g.rate, a, b);
  }

  /** The number of samples in a packet comes out right across any gap up to half the number space. */
  lemma SamplesPerPacketExact(g: Grid, newest: int, u: int)
    requires g.Valid() && 0 < u - newest <= 0x8000
    ensures (g.StampOf(u) - g.StampOf(newest)) % 0x1_0000_0000 / ((Wrap(u) - Wrap(newest)) % 0x1_0000) == g.rate
  {
    SampleDistance(g, u, newest);
    ProductBelow(g.rate, u - newest);
    QuotientIs(g.rate * (u - newest), u - newest, g.rate, 0);
    WrapDistance(u, newest);
    Wrap32OfDifference(g.Sample(u), g.Sample(newest));
    Wrap32OfSmall(g.Sample(u) - g.Sample(newest));
  }

  /** So does the timestamp of every skipped packet. */
  lemma EstimateExact(c: Clock, g: Grid, newest: int, n: int)
    requires OnTime(c, g, newest) && c.samplesPerPacket == g.rate
    requires newest < n < newest + 0x1_0000
    ensures c.EstimateTimestamp(Wrap(n)) == g.StampOf(n)
  {
    hide Wrap, Wrap32, Grid.Sample, Grid.Due;
    WrapDistance(n, newest);
    SampleDistance(g, n, newest);
    Wrap32OfSum(g.Sample(newest), g.rate * (n - newest));
    assert (n - newest) * c.samplesPerPacket == g.rate * (n - newest);
  }

  /** The time to play is right exactly for a packet that is not overdue and less than 2^32 samples away. */
  lemma {:induction false} TimeToPlayExact(c: Clock, g: Grid, newest: int, n: int)
    requires OnTime(c, g, newest)
    ensures c.TimeToPlay(g.StampOf(n)) == g.TimeLeft(n) <==> g.InTime(n)
  {
    var x := g.Sample(n) - g.Due();
    Wrap32OfDifference(g.Sample(n), g.Due());
    QuotientOfWrapped(x, g.khz);
  }

  lemma QuotientOfWrapped(x: int, k: int)
    requires 0 < k <= 0x1_0000_0000
    ensures Wrap32(x) / k == x / k <==> 0 <= x < 0x1_0000_0000
  {
    var q := x / 0x1_0000_0000;
    assert x == q * 0x1_0000_0000 + Wrap32(x);
    if q > 0 {
      assert x >= Wrap32(x) + k;
      QuotientRises(Wrap32(x), x, k);
    } else if q < 0 {
      QuotientRises(x, Wrap32(x), k);
    }
  }

  lemma QuotientRises(a: int, b: int, k: int)
    requires k > 0 && a + k <= b
    ensures a / k < b / k
  {
    QuotientAbove(b, k, a / k);
    assert k * (a / k + 1) == k * (a / k) + k;
  }

  lemma TimeLeftRises(g: Grid, a: int, b: int)
    requires g.Valid() && a <= b
    ensures g.TimeLeft(a) <= g.TimeLeft(b)
  {
    var m := g.TimeLeft(a) - 1;
    TimeLeftAbove(g, a, m);
    TimeLeftAbove(g, b, m);
    ProductRises(g.rate, a - g.decoded, b - g.decoded);
  }

  /** More milliseconds left than m: at least m + 1 of them, in samples. */
  lemma TimeLeftAbove(g: Grid, n: int, m: int)
    requires g.Valid()
    ensures g.TimeLeft(n) > m <==> g.rate * (n - g.decoded) >= g.khz * (g.waited + m + 1)
  {
    SampleDistance(g, n, g.decoded);
    QuotientAbove(g.Sample(n) - g.Due(), g.khz, m);
    Distribute(g.khz, g.waited + m + 1, g.waited);
  }

  lemma QuotientAbove(x: int, k: int, m: int)
    requires k > 0
    ensures x / k > m <==> x >= k * (m + 1)
  {
    var q := x / k;
    assert k * q <= x < k * q + k;
    if q > m {
      assert k * q >= k * (m + 1);
    } else {
      assert k * q + k <= k * (m + 1);
    }
  }

  /** Waiting takes the time waited from what is left. */
  lemma WaitTakes(g: Grid, n: int, ms: int)
    requires g.Valid()
    ensures g.Wait(ms).Valid() && g.Wait(ms).StampOf(n) == g.StampOf(n)
    ensures g.Wait(ms).TimeLeft(n) == g.TimeLeft(n) - ms
    ensures g.Wait(ms).Due() == g.Due() + g.khz * ms
  {
    DueLater(g, ms);
    SampleOf(g, n, ms);
    QuotientLess(g.Sample(n) - g.Due(), g.khz, ms);
    hide Grid.Sample, Grid.Due;
  }

  lemma SampleOf(g: Grid, n: int, ms: int)
    ensures g.Wait(ms).Sample(n) == g.Sample(n)
  {
  }

  lemma DueLater(g: Grid, ms: int)
    ensures g.Wait(ms).Due() == g.Due() + g.khz * ms
  {
    SampleOf(g, g.decoded, ms);
    hide Grid.Sample;
    Distribute(g.khz, g.waited + ms, g.waited);
  }

  lemma QuotientLess(x: int, k: int, m: int)
    requires k > 0
    ensures (x - k * m) / k == x / k - m
  {
    var q, r := x / k, x % k;
    assert x == k * q + r && 0 <= r < k;
    assert x - k * m == k * (q - m) + r by {
      assert k * (q - m) == k * q - k * m;
    }
    QuotientIs(x - k * m, k, q - m, r);
  }

  lemma QuotientIs(x: int, k: int, q: int, r: int)
    requires k > 0 && x == k * q + r && 0 <= r < k
    ensures x / k == q
  {
    QuotientAbove(x, k, q);
    QuotientAbove(x, k, q - 1);
    assert k * (q + 1) == k * q + k;
  }

  /** After a new decoded packet, later packets up to half the number space away are in time. */
  lemma DecodeInTime(g: Grid, d: int, n: int)
    requires g.Valid() && d < n <= d + 0x8000
    ensures g.Decode(d).InTime(n) && g.Decode(d).StampOf(n) == g.StampOf(n)
  {
    SampleDistance(g.Decode(d), n, d);
    ProductBelow(g.rate, n - d);
  }

  /** A packet that is overdue when it is first missed looks far away: packet 13 arrives after the player has waited
      60 ms since packet 11, packet 12 was due 40 ms ago, and its time to play is more than a day. */
  lemma OverdueLooksFar(g: Grid, c: Clock)
    requires g == Grid(0, 960, 48, 11, 60) && OnTime(c, g, 11)
    ensures g.TimeLeft(12) == -40 && c.TimeToPlay(g.StampOf(12)) == 89478445
  {
    assert g.Due() == 13440;
  }

  /** Decoding a packet with the sender's timestamp makes that packet the one due. */
  lemma DecodedDue(g: Grid, d: int)
    ensures Wrap32(g.Decode(d).Due()) == g.StampOf(d)
    ensures forall n :: g.Decode(d).StampOf(n) == g.StampOf(n)
  {
    assert g.khz * 0 == 0;
  }

  lemma WaitedDue(c: Clock, g: Grid)
    requires g.Valid() && c.sampleRateKhz == g.khz && c.decodedStamp == Wrap32(g.Due())
    ensures Wrap32(c.decodedStamp + c.sampleRateKhz * 10) == Wrap32(g.Wait(10).Due())
  {
    DueLater(g, 10);
    Wrap32OfSum(g.Due(), g.khz * 10);
  }
}
