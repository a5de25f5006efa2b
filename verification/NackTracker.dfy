/** The tracker of lost packets: a map from sequence numbers, and its refinement of the list over integers. */
module NackTracker {
  import opened Numbers
  import opened SerialNumber
  import opened Gaps
  import opened NackSpec
  import opened PlayoutTime

  const LIST_SIZE_LIMIT: nat := 500
  const DEFAULT_SAMPLE_RATE_KHZ := 48
  const DEFAULT_PACKET_SIZE_MS := 20

  datatype Entry = Entry(num: Seq16, timeToPlay: int, timestamp: Stamp, missing: bool)

  /** The 16-bit age test agrees with the age in packets for every entry the list can hold exactly for these
      thresholds: a caller may use any threshold up to half the number space. */
  predicate UsableThreshold(threshold: nat) {
    Wrap(threshold) <= 0x8000 && (threshold < 0x1_0000 || LIST_SIZE_LIMIT <= Wrap(threshold))
  }

  /** The list holds these unwrapped numbers, in this order. */
  ghost predicate HoldsNumbers(list: seq<Entry>, nums: seq<int>) {
    |list| == |nums| && forall i :: 0 <= i < |list| ==> list[i].num == Wrap(nums[i])
  }

  /** Exactly the entries more than threshold older than newest are flagged missing. */
  ghost predicate FlaggedByAge(list: seq<Entry>, nums: seq<int>, newest: int, threshold: nat) {
    |list| == |nums| && forall i :: 0 <= i < |list| ==> list[i].missing == (newest - nums[i] > threshold)
  }

  /** The numbers are right for every threshold, the flags for the usable ones. */
  ghost predicate Represents(list: seq<Entry>, nums: seq<int>, newest: int, threshold: nat) {
    HoldsNumbers(list, nums) && (UsableThreshold(threshold) ==> FlaggedByAge(list, nums, newest, threshold))
  }

  /** Every entry has the timestamp and the time left of the packet it stands for. */
  ghost predicate Timed(list: seq<Entry>, nums: seq<int>, g: Grid)
    requires g.Valid()
  {
    |list| == |nums| && forall i :: 0 <= i < |list| ==> TimedEntry(list[i], nums[i], g)
  }

  ghost predicate TimedEntry(e: Entry, n: int, g: Grid)
    requires g.Valid()
  {
    e.timestamp == g.StampOf(n) && e.timeToPlay == g.TimeLeft(n)
  }

  /** Entries before k, and only those, are older than key. */
  ghost predicate LowerAt(list: seq<Entry>, key: Seq16, k: nat) {
    k <= |list| && forall i :: 0 <= i < |list| ==> (IsNewer(key, list[i].num) <==> i < k)
  }

  /** Entries before k, and only those, are not newer than key. */
  ghost predicate UpperAt(list: seq<Entry>, key: Seq16, k: nat) {
    k <= |list| && forall i :: 0 <= i < |list| ==> (!IsNewer(list[i].num, key) <==> i < k)
  }

  ghost predicate FoundAt(list: seq<Entry>, key: Seq16, k: nat) {
    && k < |list| && list[k].num == key
    && (forall i :: 0 <= i < k ==> IsNewer(key, list[i].num))
    && forall i :: k < i < |list| ==> IsNewer(list[i].num, key)
  }

  function NewEntry(n: Seq16, oldest: Seq16, c: Clock): Entry
    requires c.sampleRateKhz > 0
  {
    var timestamp := c.EstimateTimestamp(n);
    Entry(n, c.TimeToPlay(timestamp), timestamp, IsNewer(oldest, n))
  }

  /** One entry for each number from lo up to hi, flagged when the 16-bit number oldest is newer. */
  function NewEntries(lo: int, hi: int, oldest: Seq16, c: Clock): (r: seq<Entry>)
    requires lo <= hi && c.sampleRateKhz > 0
    ensures |r| == hi - lo
    ensures forall i :: 0 <= i < |r| ==> r[i] == NewEntry(Wrap(lo + i), oldest, c)
    decreases hi - lo
  {
    if lo == hi then [] else NewEntries(lo, hi - 1, oldest, c) + [NewEntry(Wrap(hi - 1), oldest, c)]
  }

  lemma NewEntriesSnoc(lo: int, hi: int, oldest: Seq16, c: Clock)
    requires lo <= hi && c.sampleRateKhz > 0
    ensures NewEntries(lo, hi + 1, oldest, c) == NewEntries(lo, hi, oldest, c) + [NewEntry(Wrap(hi), oldest, c)]
  {
  }

  /** k is where the list splits, if the comparison with key splits it at all. */
  ghost predicate LowerBoundOf(list: seq<Entry>, key: Seq16, k: nat) {
    k <= |list| && forall j: nat :: LowerAt(list, key, j) ==> k == j
  }

  ghost predicate UpperBoundOf(list: seq<Entry>, key: Seq16, k: nat) {
    k <= |list| && forall j: nat :: UpperAt(list, key, j) ==> k == j
  }

  ghost predicate Erased(list: seq<Entry>, key: Seq16, r: seq<Entry>) {
    && ((forall i :: 0 <= i < |list| ==> list[i].num != key) ==> r == list)
    && forall k: nat :: FoundAt(list, key, k) ==> r == list[..k] + list[k + 1..]
  }

  function MarkMissing(list: seq<Entry>, k: nat): (r: seq<Entry>)
    requires k <= |list|
    ensures |r| == |list|
    ensures forall i :: 0 <= i < k ==> r[i] == list[i].(missing := true)
    ensures forall i :: k <= i < |list| ==> r[i] == list[i]
  {
    if k == 0 then list else MarkMissing(list, k - 1)[k - 1 := list[k - 1].(missing := true)]
  }

  /** The ordered map's lower_bound. The probes are arbitrary, as the shape of the tree is; the answer depends on them
      only when the comparison does not split the list, which happens while the list is wider than the window. */
  method LowerBound(list: seq<Entry>, key: Seq16) returns (k: nat)
    ensures LowerBoundOf(list, key, k)
  {
    var lo, hi := 0, |list|;
    while lo < hi
      invariant 0 <= lo <= hi <= |list|
      invariant forall j: nat :: LowerAt(list, key, j) ==> lo <= j <= hi
    {
      var m :| lo <= m < hi;
      if IsNewer(key, list[m].num) {
        lo := m + 1;
      } else {
        hi := m;
      }
    }
    k := lo;
  }

  method UpperBound(list: seq<Entry>, key: Seq16) returns (k: nat)
    ensures UpperBoundOf(list, key, k)
  {
    var lo, hi := 0, |list|;
    while lo < hi
      invariant 0 <= lo <= hi <= |list|
      invariant forall j: nat :: UpperAt(list, key, j) ==> lo <= j <= hi
    {
      var m :| lo <= m < hi;
      if IsNewer(list[m].num, key) {
        hi := m;
      } else {
        lo := m + 1;
      }
    }
    k := lo;
  }

  /** The ordered map's erase by key, descending with arbitrary probes until it meets the key. */
  method Erase(list: seq<Entry>, key: Seq16) returns (r: seq<Entry>)
    ensures Erased(list, key, r)
  {
    var lo, hi := 0, |list|;
    while lo < hi
      invariant 0 <= lo <= hi <= |list|
      invariant forall k: nat :: FoundAt(list, key, k) ==> lo <= k < hi
    {
      var m :| lo <= m < hi;
      if IsNewer(key, list[m].num) {
        lo := m + 1;
      } else if IsNewer(list[m].num, key) {
        hi := m;
      } else {
        if list[m].num != key {
          NewerIsAsymmetric(list[m].num, key);
        }
        return list[..m] + list[m + 1..];
      }
    }
    r := list;
  }

  ghost predicate AgeTestHolds(threshold: nat, newest: int, age: int) {
    IsNewer(Wrap(newest - threshold), Wrap(newest - age)) <==> age > threshold
  }

  /** For an age the list keeps, the age modulo 2^16, the plain age and the 16-bit test agree. */
  lemma AgeTest(u: int, n: int, threshold: nat)
    requires UsableThreshold(threshold) && u - LIST_SIZE_LIMIT <= n < u
    ensures u - n > Wrap(threshold) <==> u - n > threshold
    ensures IsNewer(Wrap(u - threshold), Wrap(n)) <==> u - n > threshold
  {
    hide Wrap, IsNewer;
    WrapOfSmall(threshold);
    WrapOfDifference(u, threshold);
    NewerUnwrapped(u - Wrap(threshold), n);
  }

  /** Any other threshold misjudges some entry the list can hold. */
  lemma UnusableThreshold(threshold: nat) returns (newest: int, age: int)
    requires !UsableThreshold(threshold)
    ensures 1 <= age <= LIST_SIZE_LIMIT && !AgeTestHolds(threshold, newest, age)
  {
    var w: int := Wrap(threshold);
    if w > 0x8000 {
      // Too old by the wrapped test although it is only one packet old.
      newest, age := 0x1_0000 + w - 1, 1;
      assert Wrap(newest - threshold) == 0xFFFF;
      assert Wrap(newest - 1) == w - 2;
    } else {
      newest, age := 0x1_0000, w + 1;
      assert Wrap(newest - threshold) == Wrap(newest - w);
      NewerUnwrapped(newest - w, newest - age);
    }
  }

  lemma {:induction false} ThresholdExact(threshold: nat)
    ensures UsableThreshold(threshold) <==>
            forall newest: int, age: int :: 1 <= age <= LIST_SIZE_LIMIT ==> AgeTestHolds(threshold, newest, age)
  {
    hide UsableThreshold, Wrap, IsNewer;
    if UsableThreshold(threshold) {
      forall newest: int, age: int | 1 <= age <= LIST_SIZE_LIMIT
        ensures AgeTestHolds(threshold, newest, age)
      {
        AgeTest(newest, newest - age, threshold);
      }
    } else {
      var newest, age := UnusableThreshold(threshold);
    }
  }

  /** The numbers listed once the window reaches u, before old ones are dropped. */
  ghost function AllNumbers(t: Tracked, u: int): seq<int>
    requires t.newest < u
  {
    List(t) + Range(t.newest + 1, u)
  }

  lemma ListWindow(t: Tracked, limit: nat)
    requires Consistent(t, limit)
    ensures Ascending(List(t))
    ensures forall i :: 0 <= i < |List(t)| ==> t.newest - limit <= t.floor <= List(t)[i] < t.newest
  {
    MissingIs(t.floor, t.newest, t.received);
    forall i | 0 <= i < |List(t)|
      ensures t.floor <= List(t)[i] < t.newest
    {
      assert List(t)[i] in List(t);
    }
  }

  lemma AllNumbersAre(t: Tracked, u: int, limit: nat)
    requires Consistent(t, limit) && t.newest < u
    ensures AllNumbers(t, u) == Missing(t.floor, u, t.received + {u})
    ensures Ascending(AllNumbers(t, u))
    ensures forall i :: 0 <= i < |AllNumbers(t, u)| ==> t.floor <= AllNumbers(t, u)[i] < u
  {
    assert t.newest in t.received;
    assert Missing(t.floor, t.newest + 1, t.received) == List(t);
    hide Missing;
    MissingExtend(t.floor, t.newest + 1, u, t.received);
    MissingIs(t.floor, u, t.received);
    MissingKeep(t.floor, u, t.received, u);
    ListWindow(t, limit);
  }

  /** What receiving u does to the map before the window moves: a late packet leaves the list, a new one was not in
      it. */
  lemma ErasedRepresents(list: seq<Entry>, r: seq<Entry>, t: Tracked, u: int, limit: nat, threshold: nat)
    returns (k: nat)
    requires Consistent(t, limit) && limit <= LIST_SIZE_LIMIT
    requires Represents(list, List(t), t.newest, threshold)
    requires u != t.newest && t.newest - 0x8000 <= u <= t.newest + 0x8000
    requires Erased(list, Wrap(u), r)
    ensures u > t.newest ==> r == list
    ensures u < t.newest ==> Represents(r, List(t.(received := t.received + {u})), t.newest, threshold)
    ensures u < t.newest ==> r == Without(list, k) && List(t.(received := t.received + {u})) == Without(List(t), k)
  {
    hide Wrap, IsNewer, Missing, UsableThreshold;
    ListWindow(t, limit);
    k := |list|;
    if u < t.newest && u in List(t) {
      hide LowerAt, UpperAt;
      k :| 0 <= k < |List(t)| && List(t)[k] == u;
      FoundEntry(list, t, k, limit);
      MissingRemove(t.floor, t.newest, t.received, k);
    } else {
      hide FoundAt;
      if u < t.newest {
        MissingKeep(t.floor, t.newest, t.received, u);
      }
      forall i | 0 <= i < |list|
        ensures list[i].num != Wrap(u)
      {
        var x := List(t)[i];
        assert x in List(t);
        assert u != x && -0x1_0000 < u - x < 0x1_0000;
        DistinctWraps(u, x);
      }
    }
  }

  function Without<T>(s: seq<T>, k: nat): seq<T> {
    if k < |s| then s[..k] + s[k + 1..] else s
  }

  lemma TimedWithout(list: seq<Entry>, nums: seq<int>, k: nat, g: Grid)
    requires g.Valid() && Timed(list, nums, g)
    ensures Timed(Without(list, k), Without(nums, k), g)
  {
    hide TimedEntry;
  }

  lemma DistinctWraps(a: int, b: int)
    requires a != b && -0x1_0000 < a - b < 0x1_0000
    ensures Wrap(a) != Wrap(b)
  {
  }

  lemma FoundEntry(list: seq<Entry>, t: Tracked, k: nat, limit: nat)
    requires Consistent(t, limit) && limit <= LIST_SIZE_LIMIT
    requires HoldsNumbers(list, List(t))
    requires k < |list|
    ensures FoundAt(list, Wrap(List(t)[k]), k)
  {
    var nums := List(t);
    ListWindow(t, limit);
    forall i | 0 <= i < |list|
      ensures i < k ==> IsNewer(Wrap(nums[k]), list[i].num)
      ensures i > k ==> IsNewer(list[i].num, Wrap(nums[k]))
    {
      NewerUnwrapped(nums[k], nums[i]);
      NewerUnwrapped(nums[i], nums[k]);
    }
  }

  /** What the update of the list does to it: a prefix of p old entries is flagged, the new numbers are appended. */
  ghost predicate Updated(
    before: seq<Entry>, after: seq<Entry>, t: Tracked, u: int, p: nat, threshold: nat, c: Clock)
    requires t.newest < u && c.sampleRateKhz > 0
  {
    && |before| == |List(t)|
    && |after| == |AllNumbers(t, u)|
    && LowerBoundOf(before, Wrap(u - threshold), p)
    && (forall i :: 0 <= i < |before| ==> after[i] == before[i].(missing := before[i].missing || i < p))
    && forall i :: |before| <= i < |after| ==>
         after[i] == NewEntry(Wrap(AllNumbers(t, u)[i]), Wrap(u - threshold), c)
  }

  lemma FlagThenAppend(before: seq<Entry>, p: nat, t: Tracked, u: int, threshold: nat, c: Clock)
    requires t.newest < u && c.sampleRateKhz > 0
    requires |before| == |List(t)| && LowerBoundOf(before, Wrap(u - threshold), p)
    ensures Updated(before, MarkMissing(before, p) + NewEntries(t.newest + 1, u, Wrap(u - threshold), c),
                    t, u, p, threshold, c)
  {
    hide LowerBoundOf, Missing, Wrap, IsNewer, NewEntry;
  }

  /** While no skipped packet is overdue or 2^32 samples away, the new entries have their right times too. */
  lemma TimedUpdate(before: seq<Entry>, after: seq<Entry>, t: Tracked, u: int, p: nat, threshold: nat, c: Clock,
                    g: Grid)
    requires g.Valid() && OnTime(c, g, t.newest) && c.samplesPerPacket == g.rate
    requires t.newest < u <= t.newest + 0x8000
    requires Updated(before, after, t, u, p, threshold, c)
    requires Timed(before, List(t), g)
    requires forall n :: t.newest < n < u ==> g.InTime(n)
    ensures Timed(after, AllNumbers(t, u), g)
  {
    hide Wrap, IsNewer, Missing, LowerBoundOf, OnTime, Grid.Valid, Grid.InTime;
    var all := AllNumbers(t, u);
    forall i | 0 <= i < |after|
      ensures TimedEntry(after[i], all[i], g)
    {
      if i < |before| {
        assert all[i] == List(t)[i];
        assert TimedEntry(before[i], all[i], g);
      } else {
        NewEntryTimed(all[i], t.newest, Wrap(u - threshold), c, g);
      }
    }
  }

  lemma NewEntryTimed(n: int, newest: int, oldest: Seq16, c: Clock, g: Grid)
    requires OnTime(c, g, newest) && c.samplesPerPacket == g.rate
    requires newest < n < newest + 0x8000 && g.InTime(n)
    ensures TimedEntry(NewEntry(Wrap(n), oldest, c), n, g)
  {
    hide Wrap, IsNewer, Grid.InTime;
    EstimateExact(c, g, newest, n);
    TimeToPlayExact(c, g, newest, n);
  }

  lemma TimedDrop(list: seq<Entry>, nums: seq<int>, k: nat, g: Grid)
    requires g.Valid() && Timed(list, nums, g) && k <= |list|
    ensures Timed(list[k..], nums[k..], g)
  {
    hide TimedEntry;
  }

  /** If an old entry survives the move of the window to u, the old list was within the comparator's window, so the
      flagged prefix is exactly the entries more than threshold older than u. */
  lemma FlaggedPrefix(before: seq<Entry>, t: Tracked, u: int, p: nat, limit: nat, threshold: nat)
    requires Consistent(t, limit) && limit <= LIST_SIZE_LIMIT && UsableThreshold(threshold)
    requires HoldsNumbers(before, List(t))
    requires t.newest < u < t.newest + limit
    requires LowerBoundOf(before, Wrap(u - threshold), p)
    ensures forall i :: 0 <= i < |before| ==> (i < p <==> u - List(t)[i] > Wrap(threshold))
  {
    var nums := List(t);
    ListWindow(t, limit);
    var k := SplitAt(nums, u - Wrap(threshold));
    assert Wrap(u - threshold) == Wrap(u - Wrap(threshold));
    forall i | 0 <= i < |before|
      ensures IsNewer(Wrap(u - threshold), before[i].num) <==> i < k
    {
      NewerUnwrapped(u - Wrap(threshold), nums[i]);
    }
    assert LowerAt(before, Wrap(u - threshold), k);
  }

  /** The entries that survive the move of the window are flagged exactly by their age, even when the list before was
      wider than the comparator's window and an arbitrary prefix was flagged. */
  lemma NewFlags(
    before: seq<Entry>, after: seq<Entry>, t: Tracked, u: int, p: nat, k: nat, limit: nat, threshold: nat, c: Clock)
    requires c.sampleRateKhz > 0
    requires Consistent(t, limit) && 0 < limit <= LIST_SIZE_LIMIT && UsableThreshold(threshold)
    requires Represents(before, List(t), t.newest, threshold)
    requires t.newest < u <= t.newest + 0x8000
    requires Updated(before, after, t, u, p, threshold, c)
    requires k <= |after|
    requires forall i :: 0 <= i < |after| ==> (AllNumbers(t, u)[i] < u - limit <==> i < k)
    ensures FlaggedByAge(after[k..], AllNumbers(t, u)[k..], u, threshold)
  {
    var all := AllNumbers(t, u);
    ListWindow(t, limit);
    if k < |before| {
      assert all[k] == List(t)[k];
      FlaggedPrefix(before, t, u, p, limit, threshold);
    }
    hide Wrap, IsNewer, UsableThreshold, Missing, LowerBoundOf;
    forall i | k <= i < |after|
      ensures after[i].missing == (u - all[i] > threshold)
    {
      AgeTest(u, all[i], threshold);
      if i < |before| {
        assert all[i] == List(t)[i];
      }
    }
  }

  /** Dropping what is too old leaves the next specification state. */
  lemma NewList(
    before: seq<Entry>, after: seq<Entry>, t: Tracked, u: int, p: nat, k: nat, limit: nat, threshold: nat, c: Clock)
    requires c.sampleRateKhz > 0
    requires Consistent(t, limit) && 0 < limit <= LIST_SIZE_LIMIT
    requires Represents(before, List(t), t.newest, threshold)
    requires t.newest < u <= t.newest + 0x8000
    requires Updated(before, after, t, u, p, threshold, c)
    requires k <= |after|
    requires forall i :: 0 <= i < |after| ==> (AllNumbers(t, u)[i] < u - limit <==> i < k)
    ensures k <= |AllNumbers(t, u)| && UpperAt(after, Wrap(u - limit - 1), k)
    ensures List(Tracked(t.received + {u}, u, Max(t.floor, u - limit))) == AllNumbers(t, u)[k..]
    ensures Represents(after[k..], AllNumbers(t, u)[k..], u, threshold)
  {
    var all := AllNumbers(t, u);
    AllNumbersAre(t, u, limit);
    if UsableThreshold(threshold) {
      NewFlags(before, after, t, u, p, k, limit, threshold, c);
    }
    forall i | 0 <= i < |after|
      ensures after[i].num == Wrap(all[i])
      ensures !IsNewer(after[i].num, Wrap(u - limit - 1)) <==> i < k
    {
      NewerUnwrapped(all[i], u - limit - 1);
    }
    hide Wrap, IsNewer, UsableThreshold;
    MissingDrop(t.floor, Max(t.floor, u - limit), u, t.received + {u}, k);
  }

  lemma NewListSplit(
    before: seq<Entry>, after: seq<Entry>, t: Tracked, u: int, p: nat, limit: nat, threshold: nat, c: Clock)
    returns (k: nat)
    requires c.sampleRateKhz > 0
    requires Consistent(t, limit) && 0 < limit <= LIST_SIZE_LIMIT
    requires Represents(before, List(t), t.newest, threshold)
    requires t.newest < u <= t.newest + 0x8000
    requires Updated(before, after, t, u, p, threshold, c)
    ensures k <= |AllNumbers(t, u)| && UpperAt(after, Wrap(u - limit - 1), k)
    ensures List(Tracked(t.received + {u}, u, Max(t.floor, u - limit))) == AllNumbers(t, u)[k..]
    ensures Represents(after[k..], AllNumbers(t, u)[k..], u, threshold)
  {
    AllNumbersAre(t, u, limit);
    k := SplitAt(AllNumbers(t, u), u - limit);
    NewList(before, after, t, u, p, k, limit, threshold, c);
  }

  /** Giving up a prefix is raising the floor. */
  lemma DropPrefix(t: Tracked, k: nat, limit: nat) returns (t': Tracked)
    requires Consistent(t, limit) && k <= |List(t)|
    ensures Consistent(t', limit) && t' == t.(floor := t'.floor) && t.floor <= t'.floor
    ensures List(t') == List(t)[k..]
  {
    var nums := List(t);
    ListWindow(t, limit);
    t' := t.(floor := if k < |nums| then nums[k] else t.newest);
    MissingDrop(t.floor, t'.floor, t.newest, t.received, k);
  }

  /** A number within half the number space of the newest and of every listed one. */
  ghost predicate Comparable(t: Tracked, d: int) {
    t.newest - 0x8000 <= d && forall n :: n in List(t) ==> d < n + 0x8000
  }

  /** A bound next to such a number splits the list where the specification does. */
  lemma ForgetSplit(list: seq<Entry>, t: Tracked, bound: int, limit: nat) returns (k: nat)
    requires Consistent(t, limit)
    requires HoldsNumbers(list, List(t))
    requires Comparable(t, bound - 1)
    ensures UpperAt(list, Wrap(bound - 1), k)
    ensures List(Forget(t, bound)) == List(t)[k..] && Consistent(Forget(t, bound), limit)
  {
    var nums := List(t);
    ListWindow(t, limit);
    k := SplitAt(nums, bound);
    forall i | 0 <= i < |nums|
      ensures !IsNewer(list[i].num, Wrap(bound - 1)) <==> i < k
      ensures nums[i] < Forget(t, bound).floor <==> i < k
    {
      assert nums[i] in nums;
      NewerUnwrapped(nums[i], bound - 1);
    }
    MissingDrop(t.floor, Forget(t, bound).floor, t.newest, t.received, k);
  }

  /** The prefix up to a decoded number is what is not newer than it. */
  lemma DecodedPrefix(list: seq<Entry>, t: Tracked, d: int, p: nat, limit: nat)
    requires Consistent(t, limit) && HoldsNumbers(list, List(t)) && Comparable(t, d)
    requires UpperBoundOf(list, Wrap(d), p)
    ensures forall n :: n in List(t)[p..] <==> n in List(t) && n > d
    ensures forall n :: n in List(t) ==> n < d + 0x8000
  {
    hide Wrap, IsNewer, Missing, UpperAt;
    ListWindow(t, limit);
    var k := ForgetSplit(list, t, d + 1, limit);
    ForgetList(t, d + 1);
  }

  lemma PrefixDropped(list: seq<Entry>, nums: seq<int>, k: nat, newest: int, threshold: nat)
    requires Represents(list, nums, newest, threshold) && k <= |list|
    ensures |list| == |nums| && Represents(list[k..], nums[k..], newest, threshold)
  {
    hide Wrap, UsableThreshold;
  }

  /** The list represents the same numbers whatever the times of its entries. */
  lemma TimesDoNotMatter(list: seq<Entry>, after: seq<Entry>, nums: seq<int>, newest: int, threshold: nat)
    requires Represents(list, nums, newest, threshold) && |after| == |list|
    requires forall i :: 0 <= i < |list| ==> after[i].num == list[i].num && after[i].missing == list[i].missing
    ensures Represents(after, nums, newest, threshold)
  {
    hide Wrap, UsableThreshold;
  }

  function Retimed(e: Entry, c: Clock): Entry
    requires c.sampleRateKhz > 0
  {
    e.(timeToPlay := c.TimeToPlay(e.timestamp))
  }

  lemma RetimedTimed(list: seq<Entry>, after: seq<Entry>, nums: seq<int>, c: Clock, g: Grid, newest: int)
    requires g.Valid() && OnTime(c, g, newest) && |after| == |list| == |nums|
    requires forall i :: 0 <= i < |list| ==> after[i] == Retimed(list[i], c)
    requires forall i :: 0 <= i < |list| ==> list[i].timestamp == g.StampOf(nums[i]) && g.InTime(nums[i])
    ensures Timed(after, nums, g)
  {
    hide OnTime, Grid.InTime, Grid.StampOf, Grid.TimeLeft;
    forall i | 0 <= i < |list|
      ensures TimedEntry(after[i], nums[i], g)
    {
      TimeToPlayExact(c, g, newest, nums[i]);
    }
  }

  /** Decoding a packet puts every later one in the list back on time. */
  lemma DecodedTimed(list: seq<Entry>, after: seq<Entry>, nums: seq<int>, c: Clock, g: Grid, newest: int, d: int)
    requires g.Valid() && Timed(list, nums, g) && |after| == |list|
    requires g.Decode(d).Valid() && OnTime(c, g.Decode(d), newest)
    requires forall i :: 0 <= i < |list| ==> after[i] == Retimed(list[i], c)
    requires forall n :: n in nums ==> d < n <= d + 0x8000
    ensures Timed(after, nums, g.Decode(d))
  {
    hide OnTime, Grid.Valid, Grid.Decode, Grid.InTime, Grid.StampOf, Grid.TimeLeft, Retimed;
    forall i | 0 <= i < |list|
      ensures list[i].timestamp == g.Decode(d).StampOf(nums[i]) && g.Decode(d).InTime(nums[i])
    {
      assert TimedEntry(list[i], nums[i], g) && nums[i] in nums;
      DecodeInTime(g, d, nums[i]);
    }
    RetimedTimed(list, after, nums, c, g.Decode(d), newest);
  }

  /** Ten milliseconds of waiting: the packets with more than that left stay, with that much less. */
  lemma WaitedTimed(list: seq<Entry>, after: seq<Entry>, nums: seq<int>, k: nat, g: Grid)
    requires g.Valid() && Timed(list, nums, g) && Ascending(nums)
    requires k <= |list| && |after| == |list| - k
    requires forall i :: 0 <= i < k ==> list[i].timeToPlay <= 10
    requires k < |list| ==> list[k].timeToPlay > 10
    requires forall i :: 0 <= i < |after| ==> after[i] == list[k + i].(timeToPlay := list[k + i].timeToPlay - 10)
    ensures g.Wait(10).Valid() && Timed(after, nums[k..], g.Wait(10))
    ensures forall n :: n in nums[k..] <==> n in nums && g.TimeLeft(n) > 10
  {
    hide Grid.StampOf, Grid.TimeLeft;
    forall i | 0 <= i < |after|
      ensures TimedEntry(after[i], nums[k..][i], g.Wait(10))
    {
      assert TimedEntry(list[k + i], nums[k + i], g);
      WaitTakes(g, nums[k + i], 10);
    }
    forall i | 0 <= i < |nums|
      ensures g.TimeLeft(nums[i]) > 10 <==> i >= k
    {
      assert TimedEntry(list[i], nums[i], g);
      if i > k {
        assert TimedEntry(list[k], nums[k], g);
        TimeLeftRises(g, nums[k], nums[i]);
      }
    }
    forall n | n in nums && g.TimeLeft(n) > 10
      ensures n in nums[k..]
    {
      var i :| 0 <= i < |nums| && nums[i] == n;
      assert n == nums[k..][i - k];
    }
  }

  class NackTracker {
    const threshold: nat
    var lastReceived: Seq16
    var receivedStamp: Stamp
    var anyReceived: bool
    var lastDecoded: Seq16
    var decodedStamp: Stamp
    var anyDecoded: bool
    var sampleRateKhz: int
    var samplesPerPacket: Stamp
    var nackList: seq<Entry>
    var maxSize: nat
    ghost var view: Tracked

    ghost predicate Valid()
      reads this`maxSize, this`sampleRateKhz, this`anyReceived, this`lastReceived, this`nackList, this`view
    {
      && 0 < maxSize <= LIST_SIZE_LIMIT
      && sampleRateKhz > 0
      && (!anyReceived ==> nackList == [])
      && (anyReceived ==>
          && Consistent(view, maxSize)
          && lastReceived == Wrap(view.newest)
          && Represents(nackList, List(view), view.newest, threshold))
    }

    /** While the packets received and decoded carry the sender's timestamps, so do the entries. */
    ghost predicate OnGrid(g: Grid)
      reads this`lastReceived, this`receivedStamp, this`samplesPerPacket, this`decodedStamp, this`sampleRateKhz
      reads this`nackList, this`view
    {
      && OnTime(Time(), g, view.newest)
      && g.Valid() && Timed(nackList, List(view), g)
    }

    function Time(): Clock
      reads this`lastReceived, this`receivedStamp, this`samplesPerPacket, this`decodedStamp, this`sampleRateKhz
    {
      Clock(lastReceived, receivedStamp, samplesPerPacket, decodedStamp, sampleRateKhz)
    }

    constructor (threshold: nat)
      ensures Valid() && !anyReceived && !anyDecoded && maxSize == LIST_SIZE_LIMIT
      ensures sampleRateKhz == 48 && samplesPerPacket == 960
      ensures this.threshold == threshold
    {
      this.threshold := threshold;
      lastReceived, receivedStamp, anyReceived := 0, 0, false;
      lastDecoded, decodedStamp, anyDecoded := 0, 0, false;
      sampleRateKhz, samplesPerPacket := DEFAULT_SAMPLE_RATE_KHZ, DEFAULT_SAMPLE_RATE_KHZ * DEFAULT_PACKET_SIZE_MS;
      nackList := [];
      maxSize := LIST_SIZE_LIMIT;
    }

    /** Below 1000 Hz the code goes on to divide by zero. */
    method UpdateSampleRate(sampleRateHz: int)
      requires Valid()
      requires sampleRateHz >= 1000
      modifies this`sampleRateKhz
      ensures Valid() && 1000 * sampleRateKhz <= sampleRateHz < 1000 * sampleRateKhz + 1000
    {
      sampleRateKhz := sampleRateHz / 1000;
    }

    /** The list afterwards represents the specification's next state; it stays on time while the packet carries the
        sender's timestamp and no skipped packet is overdue yet. */
    method UpdateLastReceivedPacket(sequenceNumber: Seq16, timestamp: Stamp, ghost g: Grid)
      requires Valid()
      modifies this
      ensures Valid() && anyReceived && maxSize == old(maxSize) && anyDecoded == old(anyDecoded)
      ensures view == if old(anyReceived) then Receive(old(view), sequenceNumber, maxSize) else First(sequenceNumber)
      ensures !old(anyReceived) && !anyDecoded ==> lastDecoded == sequenceNumber && decodedStamp == timestamp
      ensures old(anyReceived) || anyDecoded ==> lastDecoded == old(lastDecoded) && decodedStamp == old(decodedStamp)
      ensures sampleRateKhz == old(sampleRateKhz)
      ensures !old(anyReceived) || view.newest > old(view).newest ==> receivedStamp == timestamp
      ensures old(anyReceived) && view.newest == old(view).newest ==> receivedStamp == old(receivedStamp)
      ensures !old(anyReceived) && g.Valid() && g.khz == sampleRateKhz && timestamp == g.StampOf(sequenceNumber) &&
                decodedStamp == Wrap32(g.Due()) ==>
                OnGrid(g)
      ensures old(anyReceived) && old(OnGrid(g)) && (view.newest > old(view).newest ==>
                  && timestamp == g.StampOf(view.newest)
                  && forall n :: old(view).newest < n < view.newest ==> g.InTime(n)) ==>
                OnGrid(g)
    {
      hide Erased, Updated, Missing, UpperAt, Wrap, Wrap32, IsNewer, Grid.Due, Grid.StampOf;
      if !anyReceived {
        lastReceived := sequenceNumber;
        receivedStamp := timestamp;
        anyReceived := true;
        if !anyDecoded {
          lastDecoded := sequenceNumber;
          decodedStamp := timestamp;
        }
        view := First(sequenceNumber);
        FirstIsEmpty(sequenceNumber);
        return;
      }
      ghost var u := Unwrap(view.newest, sequenceNumber);
      UnwrapIsNearest(view.newest, sequenceNumber);
      ReceiveConsistent(view, sequenceNumber, maxSize);
      ghost var t := Receive(view, sequenceNumber, maxSize);
      if sequenceNumber == lastReceived {
        assert view.received + {u} == view.received;
        return;
      }
      ghost var list := nackList;
      nackList := Erase(nackList, sequenceNumber);
      ghost var erased := ErasedRepresents(list, nackList, view, u, maxSize, threshold);
      if IsNewer(lastReceived, sequenceNumber) {
        NewerIsAsymmetric(lastReceived, sequenceNumber);
        if g.Valid() && Timed(list, List(view), g) {
          TimedWithout(list, List(view), erased, g);
        }
        view := t;
        return;
      }
      NewerIsAsymmetric(lastReceived, sequenceNumber);
      MoveWindow(sequenceNumber, timestamp, u, g);
    }

    /** The list moves on to a packet newer than every received one. */
    method MoveWindow(sequenceNumber: Seq16, timestamp: Stamp, ghost u: int, ghost g: Grid)
      requires Valid() && anyReceived && sequenceNumber == Wrap(u) && view.newest < u <= view.newest + 0x8000
      modifies this`samplesPerPacket, this`nackList, this`lastReceived, this`receivedStamp, this`view
      ensures Valid() && receivedStamp == timestamp
      ensures view == Tracked(old(view).received + {u}, u, Max(old(view).floor, u - maxSize))
      ensures old(OnGrid(g)) && timestamp == g.StampOf(u) && (forall n :: old(view).newest < n < u ==> g.InTime(n)) ==>
                OnGrid(g)
    {
      hide Updated, Missing, UpperAt, Wrap, Wrap32, IsNewer, Timed, Represents, Grid.Due, Grid.StampOf, Grid.InTime;
      DistinctWraps(u, view.newest);
      UpdateSamplesPerPacket(sequenceNumber, timestamp);
      ghost var c, list := Time(), nackList;
      ghost var p := UpdateList(sequenceNumber, u);
      ghost var inTime := forall n :: view.newest < n < u ==> g.InTime(n);
      ghost var onGrid := old(OnGrid(g)) && timestamp == g.StampOf(u) && inTime;
      if onGrid {
        SamplesPerPacketExact(g, view.newest, u);
        TimedUpdate(list, nackList, view, u, p, threshold, c, g);
      }
      lastReceived := sequenceNumber;
      receivedStamp := timestamp;
      ghost var k := NewListSplit(list, nackList, view, u, p, maxSize, threshold, c);
      if onGrid {
        TimedDrop(nackList, AllNumbers(view, u), k, g);
      }
      view := Tracked(view.received + {u}, u, Max(view.floor, u - maxSize));
      WrapOfSum(u, -1 - maxSize);
      LimitNackListSize();
    }

    method UpdateSamplesPerPacket(current: Seq16, timestamp: Stamp)
      requires current != lastReceived
      modifies this`samplesPerPacket
      ensures samplesPerPacket == (timestamp - receivedStamp) % 0x1_0000_0000 / ((current - lastReceived) % 0x1_0000)
    {
      var timestampIncrease := Wrap32(timestamp - receivedStamp);
      var sequenceIncrease := Wrap(current - lastReceived);
      samplesPerPacket := timestampIncrease / sequenceIncrease;
    }

    /** Packets older than the received one by more than the threshold become missing; the numbers skipped are added. */
    method UpdateList(current: Seq16, ghost u: int) returns (ghost p: nat)
      requires Consistent(view, maxSize) && maxSize <= LIST_SIZE_LIMIT && sampleRateKhz > 0
      requires Represents(nackList, List(view), view.newest, threshold)
      requires lastReceived == Wrap(view.newest) && current == Wrap(u)
      requires view.newest < u <= view.newest + 0x8000
      modifies this`nackList
      ensures Updated(old(nackList), nackList, view, u, p, threshold, Time())
    {
      hide LowerBoundOf, Missing, Wrap, IsNewer, Updated, NewEntry;
      ghost var list := nackList;
      WrapOfSum(u, 0 - threshold);
      WrapOfSum(view.newest, 1);
      NewerUnwrapped(u, view.newest + 1);
      p := ChangeFromLateToMissing(current);
      ListWindow(view, maxSize);
      if IsNewer(current, Wrap(lastReceived + 1)) {
        AddToList(current, view.newest, u, if list == [] then view.newest - 1 else List(view)[|list| - 1]);
      }
      FlagThenAppend(list, p, view, u, threshold, Time());
      assert nackList == MarkMissing(list, p) + NewEntries(view.newest + 1, u, Wrap(u - threshold), Time());
    }

    method ChangeFromLateToMissing(current: Seq16) returns (ghost p: nat)
      modifies this`nackList
      ensures p <= |old(nackList)| && LowerBoundOf(old(nackList), Wrap(current - threshold), p)
      ensures nackList == MarkMissing(old(nackList), p)
    {
      var lowerBound := LowerBound(nackList, Wrap(current - threshold));
      p := lowerBound;
      ghost var list := nackList;
      for i := 0 to lowerBound
        invariant nackList == MarkMissing(list, i)
      {
        nackList := nackList[i := nackList[i].(missing := true)];
      }
    }

    function EstimateTimestamp(n: Seq16): Stamp
      reads this
    {
      Time().EstimateTimestamp(n)
    }

    function TimeToPlay(timestamp: Stamp): int
      requires sampleRateKhz > 0
      reads this
    {
      Time().TimeToPlay(timestamp)
    }

    /** Appends every number between the newest and the current one. Each is newer than the entry before it, so the
        end of the map is always the right place for it. */
    method AddToList(current: Seq16, ghost newest: int, ghost u: int, ghost last: int)
      requires sampleRateKhz > 0
      requires lastReceived == Wrap(newest) && current == Wrap(u) && newest + 1 < u <= newest + 0x8000
      requires newest - LIST_SIZE_LIMIT <= last < newest
      requires nackList != [] ==> nackList[|nackList| - 1].num == Wrap(last)
      modifies this`nackList
      ensures nackList == old(nackList) + NewEntries(newest + 1, u, Wrap(u - threshold), Time())
    {
      var upperBoundMissing := Wrap(current - threshold);
      var n := Wrap(lastReceived + 1);
      ghost var list, m := nackList, newest + 1;
      hide Wrap, IsNewer, NewEntries;
      WrapOfSum(newest, 1);
      WrapOfSum(u, 0 - threshold);
      NewerUnwrapped(u, m);
      while IsNewer(current, n)
        invariant newest < m <= u && n == Wrap(m)
        invariant IsNewer(current, n) <==> m < u
        invariant nackList == list + NewEntries(newest + 1, m, upperBoundMissing, Time())
        decreases u - m
      {
        var isMissing := IsNewer(upperBoundMissing, n);
        var timestamp := EstimateTimestamp(n);
        assert nackList == [] || IsNewer(n, nackList[|nackList| - 1].num) by {
          NewerUnwrapped(m, if m == newest + 1 then last else m - 1);
        }
        nackList := nackList + [Entry(n, TimeToPlay(timestamp), timestamp, isMissing)];
        NewEntriesSnoc(newest + 1, m, upperBoundMissing, Time());
        n := Wrap(n as int + 1);
        WrapOfSum(m, 1);
        m := m + 1;
        NewerUnwrapped(u, m);
      }
    }

    /** Drops the entries not newer than the number before the window. */
    method LimitNackListSize()
      modifies this`nackList
      ensures |nackList| <= |old(nackList)|
      ensures var k := |old(nackList)| - |nackList|;
              && nackList == old(nackList)[k..]
              && UpperBoundOf(old(nackList), Wrap(lastReceived - maxSize - 1), k)
    {
      var p := UpperBound(nackList, Wrap(lastReceived - maxSize - 1));
      nackList := nackList[p..];
    }

    /** Numbers older than the new limit leave the list. */
    method SetMaxNackListSize(size: nat, ghost g: Grid)
      requires Valid()
      requires 0 < size <= LIST_SIZE_LIMIT
      modifies this`maxSize, this`nackList, this`view
      ensures Valid() && maxSize == size
      ensures anyReceived ==>
                && view == old(view).(floor := view.floor) && old(view).floor <= view.floor
                && forall n :: n in List(view) <==> n in List(old(view)) && view.newest - n <= size
      ensures anyReceived && old(OnGrid(g)) ==> OnGrid(g)
    {
      hide Wrap, Missing, Timed, OnTime, UpperAt, HoldsNumbers, FlaggedByAge;
      maxSize := size;
      if anyReceived {
        ghost var bound := view.newest - size;
        ListWindow(view, old(maxSize));
        ghost var k := ForgetSplit(nackList, view, bound, old(maxSize));
        WrapOfSum(view.newest, -1 - size);
        if OnGrid(g) {
          TimedDrop(nackList, List(view), k, g);
        }
        ForgetList(view, bound);
        PrefixDropped(nackList, List(view), k, view.newest, threshold);
        view := Forget(view, bound);
      }
      LimitNackListSize();
    }

    /** Decoding only removes entries, from the old end; when the decoded number can be compared with all of them,
        exactly those up to it, which is all of them when it is newer than every received one. */
    method UpdateLastDecodedPacket(sequenceNumber: Seq16, timestamp: Stamp, ghost g: Grid)
      requires Valid()
      modifies this`lastDecoded, this`decodedStamp, this`anyDecoded, this`nackList, this`view
      ensures Valid()
      ensures anyDecoded
      ensures view == old(view).(floor := view.floor) && old(view).floor <= view.floor
      ensures var newer := IsNewer(sequenceNumber, old(lastDecoded)) || !old(anyDecoded);
              && lastDecoded == (if newer then sequenceNumber else old(lastDecoded))
              && decodedStamp == (if newer then timestamp else (old(decodedStamp) + 10 * sampleRateKhz) % 0x1_0000_0000)
      ensures IsNewer(sequenceNumber, old(lastDecoded)) || !old(anyDecoded) ==>
                && |nackList| <= |old(nackList)|
                && (forall i :: 0 <= i < |nackList| ==>
                      nackList[i] == Retimed(old(nackList)[|old(nackList)| - |nackList| + i], Time()))
                && forall d: int | anyReceived && Wrap(d) == sequenceNumber && Comparable(old(view), d) ::
                     && (forall n :: n in List(view) <==> n in List(old(view)) && n > d)
                     && (old(OnGrid(g)) && timestamp == g.StampOf(d) ==> OnGrid(g.Decode(d)))
      ensures !IsNewer(sequenceNumber, old(lastDecoded)) && old(anyDecoded) && anyReceived && old(OnGrid(g)) ==>
                && OnGrid(g.Wait(10))
                && forall n :: n in List(view) <==> n in List(old(view)) && g.TimeLeft(n) > 10
    {
      hide *;
      if IsNewer(sequenceNumber, lastDecoded) || !anyDecoded {
        DropDecoded(sequenceNumber, timestamp, g);
      } else {
        WaitForDecoded(g);
      }
      anyDecoded := true;
    }

    method WaitForDecoded(ghost g: Grid)
      requires Valid() && anyDecoded
      modifies this`decodedStamp, this`nackList, this`view
      ensures Valid()
      ensures decodedStamp == (old(decodedStamp) + 10 * sampleRateKhz) % 0x1_0000_0000
      ensures view == old(view).(floor := view.floor) && old(view).floor <= view.floor
      ensures anyReceived && old(OnGrid(g)) ==>
                && OnGrid(g.Wait(10))
                && forall n :: n in List(view) <==> n in List(old(view)) && g.TimeLeft(n) > 10
    {
      hide Wrap, Missing, Timed, Represents, Grid.Due, Grid.TimeLeft;
      UpdateEstimatedPlayoutTimeBy10ms(g);
      if old(OnGrid(g)) {
        WaitedDue(Time(), g);
        WaitTakes(g, view.newest, 10);
      }
      decodedStamp := Wrap32(decodedStamp + sampleRateKhz * 10);
    }

    method DropDecoded(sequenceNumber: Seq16, timestamp: Stamp, ghost g: Grid)
      requires Valid()
      modifies this`lastDecoded, this`decodedStamp, this`nackList, this`view
      ensures Valid() && lastDecoded == sequenceNumber && decodedStamp == timestamp
      ensures view == old(view).(floor := view.floor) && old(view).floor <= view.floor
      ensures |nackList| <= |old(nackList)|
      ensures var k := |old(nackList)| - |nackList|;
              forall i :: 0 <= i < |nackList| ==> nackList[i] == Retimed(old(nackList)[k + i], Time())
      ensures forall d: int | anyReceived && Wrap(d) == sequenceNumber && Comparable(old(view), d) ::
                && (forall n :: n in List(view) <==> n in List(old(view)) && n > d)
                && (old(OnGrid(g)) && timestamp == g.StampOf(d) ==> OnGrid(g.Decode(d)))
    {
      hide Wrap, Wrap32, IsNewer, Missing, Timed, UpperAt, UpperBoundOf, Comparable, Grid.Due, Grid.StampOf;
      ghost var was, before := view, nackList;
      lastDecoded := sequenceNumber;
      decodedStamp := timestamp;
      var p := UpperBound(nackList, lastDecoded);
      if anyReceived {
        view := DropPrefix(view, p, maxSize);
      }
      nackList := nackList[p..];
      RetimeList();
      if anyReceived {
        TimesDoNotMatter(before[p..], nackList, List(view), view.newest, threshold);
        ListWindow(was, maxSize);
        forall d: int | Wrap(d) == sequenceNumber && Comparable(was, d)
          ensures forall n :: n in List(view) <==> n in List(was) && n > d
          ensures old(OnGrid(g)) && timestamp == g.StampOf(d) ==> OnGrid(g.Decode(d))
        {
          DecodedPrefix(before, was, d, p, maxSize);
          if old(OnGrid(g)) && timestamp == g.StampOf(d) {
            TimedDrop(before, List(was), p, g);
            DecodedDue(g, d);
            DecodedTimed(before[p..], nackList, List(view), Time(), g, was.newest, d);
          }
        }
      }
    }

    method RetimeList()
      requires sampleRateKhz > 0
      modifies this`nackList
      ensures |nackList| == |old(nackList)|
      ensures forall i :: 0 <= i < |nackList| ==> nackList[i] == Retimed(old(nackList)[i], Time())
    {
      for i := 0 to |nackList|
        invariant |nackList| == |old(nackList)|
        invariant forall j :: 0 <= j < i ==> nackList[j] == Retimed(old(nackList)[j], Time())
        invariant forall j :: i <= j < |nackList| ==> nackList[j] == old(nackList)[j]
        modifies this`nackList
      {
        nackList := nackList[i := nackList[i].(timeToPlay := TimeToPlay(nackList[i].timestamp))];
      }
    }

    /** Expired entries leave from the front; the others come 10 ms closer. */
    method UpdateEstimatedPlayoutTimeBy10ms(ghost g: Grid)
      requires Valid()
      modifies this`nackList, this`view
      ensures Valid()
      ensures view == old(view).(floor := view.floor) && old(view).floor <= view.floor
      ensures |nackList| <= |old(nackList)|
      ensures var k := |old(nackList)| - |nackList|;
              && (anyReceived ==> List(view) == List(old(view))[k..])
              && (forall i :: 0 <= i < k ==> old(nackList)[i].timeToPlay <= 10)
              && (nackList != [] ==> old(nackList)[k].timeToPlay > 10)
              && forall i :: 0 <= i < |nackList| ==>
                   var e := old(nackList)[k + i]; nackList[i] == e.(timeToPlay := e.timeToPlay - 10)
      ensures anyReceived && g.Valid() && old(Timed(nackList, List(view), g)) ==>
                && Timed(nackList, List(view), g.Wait(10))
                && forall n :: n in List(view) <==> n in List(old(view)) && g.TimeLeft(n) > 10
    {
      hide Wrap, Missing, Timed, Ascending, Represents, Grid.TimeLeft, Grid.Valid;
      ghost var k := 0;
      while nackList != [] && nackList[0].timeToPlay <= 10
        invariant k <= |old(nackList)| && nackList == old(nackList)[k..]
        invariant forall i :: 0 <= i < k ==> old(nackList)[i].timeToPlay <= 10
        modifies this`nackList
        decreases |nackList|
      {
        nackList := nackList[1..];
        k := k + 1;
      }
      ghost var list := nackList;
      for i := 0 to |nackList|
        invariant |nackList| == |list|
        invariant forall j :: 0 <= j < i ==> nackList[j] == list[j].(timeToPlay := list[j].timeToPlay - 10)
        invariant forall j :: i <= j < |list| ==> nackList[j] == list[j]
        modifies this`nackList
      {
        nackList := nackList[i := nackList[i].(timeToPlay := nackList[i].timeToPlay - 10)];
      }
      if anyReceived {
        ListWindow(view, maxSize);
        if g.Valid() && old(Timed(nackList, List(view), g)) {
          WaitedTimed(old(nackList), nackList, List(view), k, g);
        }
        PrefixDropped(old(nackList), List(view), k, view.newest, threshold);
        view := DropPrefix(view, k, maxSize);
        TimesDoNotMatter(old(nackList)[k..], nackList, List(view), view.newest, threshold);
      }
    }

    /** The missing packets with more than the round trip left, oldest first; asked are their places in the list. */
    method GetNackList(roundTripTime: int, ghost g: Grid) returns (numbers: seq<Seq16>, ghost asked: seq<int>)
      requires Valid()
      requires 0 <= roundTripTime
      ensures forall n :: n in numbers <==>
                exists i :: 0 <= i < |nackList| && nackList[i].num == n && nackList[i].missing
                            && nackList[i].timeToPlay > roundTripTime
      ensures Ascending(asked) && |asked| == |numbers|
      ensures forall i :: i in asked <==>
                0 <= i < |nackList| && nackList[i].missing && nackList[i].timeToPlay > roundTripTime
      ensures forall j :: 0 <= j < |numbers| ==> asked[j] in asked && numbers[j] == nackList[asked[j]].num
      ensures anyReceived ==> |nackList| == |List(view)|
      ensures anyReceived ==> forall j :: 0 <= j < |numbers| ==> numbers[j] == Wrap(List(view)[asked[j]])
      ensures anyReceived && UsableThreshold(threshold) && OnGrid(g) ==>
                forall i :: i in asked <==>
                  && 0 <= i < |List(view)|
                  && view.newest - List(view)[i] > threshold && g.TimeLeft(List(view)[i]) > roundTripTime
    {
      numbers, asked := [], [];
      for i := 0 to |nackList|
        invariant Ascending(asked) && |asked| == |numbers|
        invariant forall j :: j in asked <==>
                    0 <= j < i && nackList[j].missing && nackList[j].timeToPlay > roundTripTime
        invariant forall j :: 0 <= j < |numbers| ==> asked[j] in asked && numbers[j] == nackList[asked[j]].num
      {
        if nackList[i].missing && nackList[i].timeToPlay > roundTripTime {
          numbers := numbers + [nackList[i].num];
          asked := asked + [i];
        }
      }
    }

    method Reset()
      requires Valid()
      modifies this
      ensures Valid() && !anyReceived && !anyDecoded && maxSize == old(maxSize) && nackList == []
      ensures sampleRateKhz == 48 && samplesPerPacket == 960
    {
      nackList := [];
      lastReceived, receivedStamp, anyReceived := 0, 0, false;
      lastDecoded, decodedStamp, anyDecoded := 0, 0, false;
      sampleRateKhz, samplesPerPacket := DEFAULT_SAMPLE_RATE_KHZ, DEFAULT_SAMPLE_RATE_KHZ * DEFAULT_PACKET_SIZE_MS;
    }
  }
}
