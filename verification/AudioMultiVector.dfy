/** Interleaved samples: n channels, one sample of each at a time. */
module Interleaving {
  import RingBuffers
  import opened Numbers
  import opened AudioVector

  /** The samples of channel c. */
  function Channel(x: seq<Sample>, n: nat, c: nat): seq<Sample>
    requires c < n
  {
    if |x| < n then [] else [x[c]] + Channel(x[n..], n, c)
  }

  /** One sample of each channel, length times. */
  function Interleave(channels: seq<seq<Sample>>, start: nat, length: nat): seq<Sample>
    requires forall c :: 0 <= c < |channels| ==> start + length <= |channels[c]|
    decreases length
  {
    if length == 0 then [] else Row(channels, start) + Interleave(channels, start + 1, length - 1)
  }

  function Row(channels: seq<seq<Sample>>, i: nat): (r: seq<Sample>)
    requires forall c :: 0 <= c < |channels| ==> i < |channels[c]|
    ensures |r| == |channels|
  {
    seq(|channels|, c requires 0 <= c < |channels| => channels[c][i])
  }

  lemma RowAt(channels: seq<seq<Sample>>, i: nat, c: nat)
    requires forall c :: 0 <= c < |channels| ==> i < |channels[c]|
    requires c < |channels|
    ensures Row(channels, i)[c] == channels[c][i]
  {
  }

  /** A number of samples that is a whole number of rows. */
  function Rows(rows: nat, n: nat): nat {
    rows * n
  }

  function RowsIn(length: nat, n: nat): nat
    requires n > 0
  {
    length / n
  }

  lemma ChannelCount(x: seq<Sample>, n: nat, c: nat)
    requires c < n
    ensures |Channel(x, n, c)| == RowsIn(|x|, n)
  {
    assert |x| == n * (|x| / n) + |x| % n;
    ChannelLength(x, n, c, RowsIn(|x|, n));
  }

  lemma RowsFit(length: nat, n: nat)
    requires n > 0
    ensures Rows(RowsIn(length, n), n) <= length
  {
    assert length == n * (length / n) + length % n;
  }

  lemma RowsMonotone(a: nat, b: nat, n: nat)
    requires a <= b
    ensures Rows(a, n) <= Rows(b, n)
  {
    assert (b - a) * n >= 0;
  }

  lemma RowsInRows(rows: nat, n: nat)
    requires n > 0
    ensures RowsIn(Rows(rows, n), n) == rows
  {
    RingBuffers.RemainderIs(rows * n, n, rows, 0);
  }

  lemma RowsMore(i: nat, j: nat, n: nat)
    requires n > 0 && i < j
    ensures Rows(i, n) < Rows(j, n)
  {
    RowsMonotone(i + 1, j, n);
  }

  lemma RowsStep(rows: nat, n: nat)
    ensures Rows(0, n) == 0 && Rows(rows + 1, n) == Rows(rows, n) + n && Rows(rows, 1) == rows
  {
  }

  lemma {:induction false} ChannelLength(x: seq<Sample>, n: nat, c: nat, rows: nat)
    requires c < n && Rows(rows, n) <= |x| < Rows(rows, n) + n
    ensures |Channel(x, n, c)| == rows
  {
    RowsStep(rows, n);
    if rows > 0 {
      RowsStep(rows - 1, n);
      hide Rows;
      ChannelLength(x[n..], n, c, rows - 1);
    }
  }

  /** Splitting the samples after a whole number of rows splits every channel there. */
  lemma {:induction false} ChannelSplit(x: seq<Sample>, n: nat, c: nat, rows: nat)
    requires c < n && Rows(rows, n) <= |x|
    ensures rows <= |Channel(x, n, c)|
    ensures Channel(x[..Rows(rows, n)], n, c) == Channel(x, n, c)[..rows]
    ensures Channel(x[Rows(rows, n)..], n, c) == Channel(x, n, c)[rows..]
    decreases rows, 1
  {
    RowsStep(rows, n);
    if rows == 0 {
      assert x[0..] == x;
    } else {
      RowsStep(rows - 1, n);
      ChannelSplitStep(x, n, c, rows, Rows(rows, n));
    }
  }

  lemma {:induction false} ChannelSplitStep(x: seq<Sample>, n: nat, c: nat, rows: nat, k: nat)
    requires c < n && 0 < rows && k == Rows(rows, n) && n <= k <= |x| && k - n == Rows(rows - 1, n)
    ensures rows <= |Channel(x, n, c)|
    ensures Channel(x[..k], n, c) == Channel(x, n, c)[..rows]
    ensures Channel(x[k..], n, c) == Channel(x, n, c)[rows..]
    decreases rows, 0
  {
    hide Rows;
    ChannelSplit(x[n..], n, c, rows - 1);
    assert x[..k][n..] == x[n..][..k - n];
    assert x[n..][k - n..] == x[k..];
    assert Channel(x, n, c) == [x[c]] + Channel(x[n..], n, c);
    assert Channel(x[..k], n, c) == [x[..k][c]] + Channel(x[..k][n..], n, c);
  }

  /** Sample k of channel c is sample c of row k. */
  lemma {:induction false} ChannelAt(x: seq<Sample>, n: nat, c: nat, k: nat)
    requires c < n && k < |Channel(x, n, c)|
    ensures 0 <= k * n + c < |x| && Channel(x, n, c)[k] == x[k * n + c]
  {
    if k > 0 {
      ChannelAt(x[n..], n, c, k - 1);
      assert (k - 1) * n + n == k * n;
    }
  }

  /** Interleaving puts sample start + k of channel c at place c of row k. */
  lemma {:induction false} InterleaveAt(channels: seq<seq<Sample>>, start: nat, length: nat, k: nat, c: nat)
    requires forall c :: 0 <= c < |channels| ==> start + length <= |channels[c]|
    requires k < length && c < |channels|
    ensures 0 <= k * |channels| + c < |Interleave(channels, start, length)|
    ensures Interleave(channels, start, length)[k * |channels| + c] == channels[c][start + k]
    decreases length
  {
    var n := |channels|;
    RowAt(channels, start, c);
    if k > 0 {
      InterleaveAt(channels, start + 1, length - 1, k - 1, c);
      assert (k - 1) * n + n == k * n;
      assert (k - 1) * n >= 0;
    }
    InterleaveStep(channels, start, length);
    hide Interleave, Row;
  }

  lemma {:induction false} ChannelOfOne(x: seq<Sample>)
    ensures Channel(x, 1, 0) == x
  {
    if x != [] {
      ChannelOfOne(x[1..]);
    }
  }

  function Deinterleave(x: seq<Sample>, n: nat): (r: seq<seq<Sample>>)
    ensures |r| == n && forall c :: 0 <= c < n ==> r[c] == Channel(x, n, c)
  {
    seq(n, c requires 0 <= c < n => Channel(x, n, c))
  }

  /** Interleaving the channels of interleaved samples gives them back. */
  lemma {:induction false} InterleaveChannels(x: seq<Sample>, n: nat, rows: nat)
    requires n > 0 && |x| == Rows(rows, n)
    ensures forall c :: 0 <= c < n ==> |Channel(x, n, c)| == rows
    ensures Interleave(Deinterleave(x, n), 0, rows) == x
  {
    forall c | 0 <= c < n
      ensures |Channel(x, n, c)| == rows
    {
      ChannelLength(x, n, c, rows);
    }
    InterleaveFrom(x, n, x, 0, rows);
  }

  lemma {:induction false} InterleaveFrom(all: seq<Sample>, n: nat, x: seq<Sample>, start: nat, rows: nat)
    requires n > 0 && |x| == Rows(rows, n)
    requires forall c :: 0 <= c < n ==>
               start + rows <= |Channel(all, n, c)| && Channel(x, n, c) == Channel(all, n, c)[start..]
    ensures Interleave(Deinterleave(all, n), start, rows) == x
    decreases rows
  {
    RowsStep(rows, n);
    if rows > 0 {
      RowsStep(rows - 1, n);
      hide Rows, Channel, Interleave;
      var channels := Deinterleave(all, n);
      InterleaveStep(channels, start, rows);
      forall c | 0 <= c < n
        ensures Channel(x[n..], n, c) == Channel(all, n, c)[start + 1..]
        ensures x[c] == Channel(all, n, c)[start]
      {
        ChannelTail(all, x, n, c, start);
      }
      hide Deinterleave;
      assert Row(channels, start) == x[..n];
      InterleaveFrom(all, n, x[n..], start + 1, rows - 1);
    } else {
      InterleaveStep(Deinterleave(all, n), start, 0);
    }
  }

  lemma {:induction false} InterleaveSnoc(channels: seq<seq<Sample>>, start: nat, length: nat)
    requires forall c :: 0 <= c < |channels| ==> start + length < |channels[c]|
    ensures Interleave(channels, start, length + 1)
            == Interleave(channels, start, length) + Row(channels, start + length)
    ensures |Interleave(channels, start, length)| == Rows(length, |channels|)
    decreases length
  {
    RowsStep(length, |channels|);
    if length > 0 {
      RowsStep(length - 1, |channels|);
      InterleaveSnoc(channels, start + 1, length - 1);
    }
  }

  lemma {:induction false} InterleaveLength(channels: seq<seq<Sample>>, start: nat, length: nat)
    requires forall c :: 0 <= c < |channels| ==> start + length <= |channels[c]|
    ensures |Interleave(channels, start, length)| == Rows(length, |channels|)
    decreases length
  {
    RowsStep(0, |channels|);
    if length > 0 {
      RowsStep(length - 1, |channels|);
      InterleaveLength(channels, start + 1, length - 1);
    }
  }

  lemma {:induction false} InterleaveOne(channel: seq<Sample>, start: nat, length: nat)
    requires start + length <= |channel|
    ensures Interleave([channel], start, length) == channel[start..start + length]
    decreases length
  {
    if length > 0 {
      InterleaveOne(channel, start + 1, length - 1);
      assert Row([channel], start) == [channel[start]];
    }
  }

  lemma InterleaveStep(channels: seq<seq<Sample>>, start: nat, length: nat)
    requires forall c :: 0 <= c < |channels| ==> start + length <= |channels[c]|
    ensures Interleave(channels, start, length) ==
            if length == 0 then [] else Row(channels, start) + Interleave(channels, start + 1, length - 1)
  {
  }

  lemma ChannelTail(all: seq<Sample>, x: seq<Sample>, n: nat, c: nat, start: nat)
    requires c < n <= |x| && start < |Channel(all, n, c)| && Channel(x, n, c) == Channel(all, n, c)[start..]
    ensures Channel(x[n..], n, c) == Channel(all, n, c)[start + 1..]
    ensures x[c] == Channel(all, n, c)[start]
  {
    var s := Channel(all, n, c);
    assert Channel(x, n, c) == [x[c]] + Channel(x[n..], n, c);
    assert s[start..] == [s[start]] + s[start + 1..];
  }
}

/** Several AudioVectors of the same length. */
module AudioMultiVector {
  import opened Numbers
  import RingBuffers
  import CircularViews
  import opened AudioVector
  import opened Interleaving

  class AudioMultiVector {
    const channels: seq<AudioVector>

    ghost predicate Valid()
      reads channels
    {
      && |channels| > 0
      && (forall c :: 0 <= c < |channels| ==> channels[c].Valid())
      && (forall c, d :: 0 <= c < d < |channels| ==> channels[c] != channels[d] && channels[c].data != channels[d].data)
    }

    ghost function Footprint(): set<object>
      reads channels
    {
      (set c | c in channels :: c as object) + (set c | c in channels :: c.data as object)
    }

    /** The samples of channel c. */
    ghost function Samples(c: nat): seq<Sample>
      reads channels, if c < |channels| then {channels[c].data} else {}
      requires Valid() && c < |channels|
    {
      channels[c].Contents()
    }

    constructor (n: nat)
      requires n > 0
      ensures Valid() && fresh(Footprint()) && |channels| == n
      ensures forall c :: 0 <= c < n ==> Samples(c) == []
    {
      hide CircularViews.View, CircularViews.Remainder, RingBuffers.Wrapped, RingBuffers.Ahead;
      var vectors: seq<AudioVector> := [];
      for i := 0 to n
        invariant |vectors| == i
        invariant forall c :: 0 <= c < i ==> fresh(vectors[c]) && fresh(vectors[c].data)
        invariant forall c :: 0 <= c < i ==> vectors[c].Valid() && vectors[c].Contents() == []
        invariant forall c, d :: 0 <= c < d < i ==> vectors[c] != vectors[d] && vectors[c].data != vectors[d].data
      {
        var v := new AudioVector();
        vectors := vectors + [v];
      }
      channels := vectors;
    }

    function Channels(): nat {
      |channels|
    }

    function Size(): (r: nat)
      reads channels
      requires Valid()
      ensures r == |Samples(0)|
    {
      channels[0].Size()
    }

    /** Appends interleaved samples, each to its channel. */
    method PushBackInterleaved(x: seq<Sample>)
      requires Valid()
      modifies Footprint()
      ensures Valid() && fresh(Footprint() - old(Footprint()))
      ensures forall c :: 0 <= c < |channels| ==> Samples(c) == old(Samples(c)) + Channel(x, |channels|, c)
    {
      hide CircularViews.View, CircularViews.Remainder, RingBuffers.Wrapped, RingBuffers.Ahead;
      hide Channel, RowsIn;
      if |channels| == 1 {
        ChannelOfOne(x);
        PushBackChannel(0, x);
        return;
      }
      var n := |channels|;
      var lengthPerChannel := RowsIn(|x|, n);
      for c := 0 to n
        invariant Valid() && fresh(Footprint() - old(Footprint()))
        invariant forall d :: 0 <= d < c ==> Samples(d) == old(Samples(d)) + Channel(x, n, d)
        invariant forall d :: c <= d < n ==> Samples(d) == old(Samples(d))
      {
        ChannelCount(x, n, c);
        var temp := Pick(x, n, c, lengthPerChannel);
        PushBackChannel(c, temp);
      }
    }

    /** Appends to one channel; the others keep their samples. */
    method PushBackChannel(c: nat, x: seq<Sample>)
      requires Valid() && c < |channels|
      modifies Footprint()
      ensures Valid() && fresh(Footprint() - old(Footprint()))
      ensures Samples(c) == old(Samples(c)) + x
      ensures forall d :: 0 <= d < |channels| && d != c ==> Samples(d) == old(Samples(d))
    {
      hide CircularViews.View, CircularViews.Remainder, RingBuffers.Wrapped, RingBuffers.Ahead;
      InFootprint(c);
      channels[c].PushBackArray(x);
    }

    lemma InFootprint(c: nat)
      requires c < |channels|
      ensures channels[c] in Footprint() && channels[c].data in Footprint()
    {
      assert channels[c] in channels;
    }

    static lemma PickStep(temp: seq<Sample>, rest: seq<Sample>, n: nat, c: nat)
      requires c < n && Channel(rest, n, c) != []
      ensures n <= |rest| && temp + Channel(rest, n, c) == temp + [rest[c]] + Channel(rest[n..], n, c)
    {
    }

    /** Walks over one channel of interleaved samples. */
    static method Pick(x: seq<Sample>, n: nat, c: nat, lengthPerChannel: nat) returns (temp: seq<Sample>)
      requires c < n && lengthPerChannel == |Channel(x, n, c)|
      ensures temp == Channel(x, n, c)
    {
      hide Channel;
      temp := [];
      var source := c;
      ghost var rest := x;
      for i := 0 to lengthPerChannel
        invariant |temp| == i && temp + Channel(rest, n, c) == Channel(x, n, c)
        invariant source - c + |rest| == |x| && source >= c && rest == x[source - c..]
      {
        PickStep(temp, rest, n, c);
        temp := temp + [x[source]];
        rest := rest[n..];
        source := source + n;
      }
    }

    ghost predicate SameSize()
      reads channels
      requires Valid()
    {
      forall c :: 0 <= c < |channels| ==> channels[c].Size() == channels[0].Size()
    }

    /** These are the contents of the channels. */
    ghost predicate Holds(contents: seq<seq<Sample>>)
      reads channels, set c | c in channels :: c.data
      requires Valid()
    {
      |contents| == |channels| && forall c :: 0 <= c < |channels| ==> contents[c] == channels[c].Contents()
    }

    /** Reads rows of samples in interleaved order; returns how many samples were written. */
    method ReadInterleavedFromIndex(startIndex: nat, length: nat, destination: array<Sample>,
                                    ghost contents: seq<seq<Sample>>)
      returns (count: nat)
      requires Valid() && SameSize() && Holds(contents) && destination !in Footprint()
      requires Rows(RowsRead(startIndex, length, Size()), |channels|) <= destination.Length
      modifies destination
      ensures count == Rows(RowsRead(startIndex, length, Size()), |channels|)
      ensures count == |Interleave(contents, Min(startIndex, Size()), RowsRead(startIndex, length, Size()))|
      ensures destination[..] == RingBuffers.Splice(old(destination[..]), 0,
                Interleave(contents, Min(startIndex, Size()), RowsRead(startIndex, length, Size())))
    {
      hide Rows, Interleave, RingBuffers.Splice;
      var start := Min(startIndex, Size());
      var rows := if length + start > Size() then Size() - start else length;
      var n := |channels|;
      InterleaveLength(contents, start, rows);
      if n == 1 {
        RowsStep(rows, 1);
        InterleaveOne(contents[0], start, rows);
        InFootprint(0);
        channels[0].CopyToArray(rows, start, destination);
        assert contents == [contents[0]];
        return rows;
      }
      count := ReadRows(start, rows, destination, contents);
    }

    method ReadRows(start: nat, rows: nat, destination: array<Sample>, ghost contents: seq<seq<Sample>>)
      returns (count: nat)
      requires Valid() && SameSize() && Holds(contents) && destination !in Footprint() && start + rows <= Size()
      requires Rows(rows, |channels|) <= destination.Length
      modifies destination
      ensures count == Rows(rows, |channels|) == |Interleave(contents, start, rows)|
      ensures destination[..] == RingBuffers.Splice(old(destination[..]), 0, Interleave(contents, start, rows))
    {
      hide Rows, Interleave, RingBuffers.Splice;
      var n := |channels|;
      RowsStep(0, n);
      InterleaveStep(contents, start, 0);
      CircularViews.SpliceTwo<Sample>(destination[..], [], []);
      count := 0;
      for i := 0 to rows
        invariant count == Rows(i, n) <= Rows(rows, n)
        invariant |Interleave(contents, start, i)| == count
        invariant destination[..] == RingBuffers.Splice(old(destination[..]), 0, Interleave(contents, start, i))
        invariant Holds(contents)
      {
        RowsOrder(i, rows, n);
        InterleaveSnoc(contents, start, i);
        CircularViews.SpliceTwo(old(destination[..]), Interleave(contents, start, i), Row(contents, start + i));
        count := ReadRow(i + start, destination, count, contents);
      }
    }

    method ReadRow(row: nat, destination: array<Sample>, first: nat, ghost contents: seq<seq<Sample>>)
      returns (count: nat)
      requires Valid() && SameSize() && row < Size() && Holds(contents) && destination !in Footprint()
      requires first + |channels| <= destination.Length
      modifies destination
      ensures count == first + |channels| && Holds(contents)
      ensures destination[..] == RingBuffers.Splice(old(destination[..]), first, Row(contents, row))
    {
      hide RingBuffers.Splice, Row, CircularViews.View, CircularViews.Remainder, RingBuffers.Wrapped, RingBuffers.Ahead;
      ghost var samples, was := Row(contents, row), destination[..];
      count := first;
      CircularViews.SpliceNone(was, first, samples);
      for c := 0 to |channels|
        invariant count == first + c && Holds(contents)
        invariant destination[..] == RingBuffers.Splice(was, first, samples[..c])
      {
        InFootprint(c);
        RowAt(contents, row, c);
        CircularViews.SpliceSnoc(was, first, samples, c);
        destination[count] := channels[c].Get(row);
        count := count + 1;
      }
      assert samples[..|channels|] == samples;
    }

    static function RowsRead(startIndex: nat, length: nat, size: nat): (rows: nat)
      ensures rows == Min(length, Max(size - startIndex, 0))
    {
      var start := Min(startIndex, size);
      if length + start > size then size - start else length
    }

    static lemma RowsOrder(i: nat, rows: nat, n: nat)
      requires i < rows
      ensures Rows(i, n) + n == Rows(i + 1, n) <= Rows(rows, n)
    {
      hide Rows;
      RowsStep(i, n);
      RowsMonotone(i + 1, rows, n);
    }

    /** Cross-fades channel by channel; vectors with different numbers of channels are left alone. */
    method CrossFade(other: AudioMultiVector, fadeLength: nat)
      requires Valid() && other.Valid() && Footprint() !! other.Footprint()
      modifies Footprint()
      ensures Valid() && fresh(Footprint() - old(Footprint()))
      ensures forall c :: 0 <= c < |channels| ==>
                Samples(c) == if |channels| != |other.channels| then old(Samples(c))
                              else FadedTogether(old(Samples(c)), old(other.Samples(c)), fadeLength)
    {
      hide CircularViews.View, CircularViews.Remainder, RingBuffers.Wrapped, RingBuffers.Ahead;
      hide FadedTogether;
      if |channels| == |other.channels| {
        for c := 0 to |channels|
          invariant Valid() && fresh(Footprint() - old(Footprint())) && other.Valid()
                    && Footprint() !! other.Footprint()
          invariant forall d :: 0 <= d < |channels| ==> other.Samples(d) == old(other.Samples(d))
          invariant forall d :: 0 <= d < c ==>
                      Samples(d) == FadedTogether(old(Samples(d)), old(other.Samples(d)), fadeLength)
          invariant forall d :: c <= d < |channels| ==> Samples(d) == old(Samples(d))
        {
          CrossFadeChannel(c, other, fadeLength);
        }
      }
    }

    static ghost function FadedTogether(s: seq<Sample>, x: seq<Sample>, fadeLength: nat): seq<Sample> {
      CrossFaded(s, x, Min(Min(fadeLength, |s|), |x|))
    }

    method CrossFadeChannel(c: nat, other: AudioMultiVector, fadeLength: nat)
      requires Valid() && other.Valid() && Footprint() !! other.Footprint()
      requires c < |channels| == |other.channels|
      modifies Footprint()
      ensures Valid() && fresh(Footprint() - old(Footprint())) && other.Valid() && Footprint() !! other.Footprint()
      ensures Samples(c) == FadedTogether(old(Samples(c)), other.Samples(c), fadeLength)
      ensures forall d :: 0 <= d < |channels| && d != c ==> Samples(d) == old(Samples(d))
      ensures forall d :: 0 <= d < |channels| ==> other.Samples(d) == old(other.Samples(d))
    {
      hide CircularViews.View, CircularViews.Remainder, RingBuffers.Wrapped, RingBuffers.Ahead;
      hide CrossFaded, Min;
      InFootprint(c);
      other.InFootprint(c);
      channels[c].CrossFade(other.channels[c], fadeLength);
    }
  }
}
