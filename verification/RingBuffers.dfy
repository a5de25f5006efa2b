/** The circular buffers with their read and write positions, and what their slots hold. */
module RingBuffers {

  /** The positions of a MatrixBuffer, VectorBuffer, FftBuffer or DownsampledRenderBuffer. */
  datatype Positions = Positions(size: nat, write: nat, read: nat)
  {
    ghost predicate Valid() {
      write < size && read < size
    }

    function IncIndex(index: nat): (r: nat)
      requires index < size
      ensures r == Wrapped(index + 1, size)
    {
      if index < size - 1 then index + 1 else 0
    }

    function DecIndex(index: nat): (r: nat)
      requires index < size
      ensures r == Wrapped(index - 1, size)
    {
      if index > 0 then index - 1 else size - 1
    }

    /** The code's remainder is taken of a sum that is not negative. */
    function OffsetIndex(index: nat, offset: int): (r: nat)
      requires index < size && 0 <= size + offset && offset <= size
      ensures r == Wrapped(index + offset, size)
    {
      WrapIsRemainder(index + offset, size);
      (size + index + offset) % size
    }

    function IncWriteIndex(): Positions
      requires Valid()
    {
      this.(write := IncIndex(write))
    }

    function DecWriteIndex(): Positions
      requires Valid()
    {
      this.(write := DecIndex(write))
    }

    function UpdateWriteIndex(offset: int): Positions
      requires Valid() && 0 <= size + offset && offset <= size
    {
      this.(write := OffsetIndex(write, offset))
    }

    function IncReadIndex(): Positions
      requires Valid()
    {
      this.(read := IncIndex(read))
    }

    function DecReadIndex(): Positions
      requires Valid()
    {
      this.(read := DecIndex(read))
    }

    function UpdateReadIndex(offset: int): Positions
      requires Valid() && 0 <= size + offset && offset <= size
    {
      this.(read := OffsetIndex(read, offset))
    }
  }

  /** Index i taken around a ring of n slots, for i within one turn. */
  function Wrapped(i: int, n: nat): (r: int)
    requires 0 <= n + i && i < 2 * n
    ensures 0 <= r < n
  {
    if i < 0 then i + n else if i < n then i else i - n
  }

  lemma WrapIsRemainder(i: int, n: nat)
    requires 0 <= n + i && i < 2 * n
    ensures (n + i) % n == Wrapped(i, n)
  {
    var q := if i < 0 then 0 else if i < n then 1 else 2;
    RemainderIs(n + i, n, q, Wrapped(i, n));
  }

  lemma RemainderIs(x: int, n: int, q: int, r: int)
    requires 0 <= r < n && x == q * n + r
    ensures x % n == r && x / n == q
  {
    var e := x / n;
    assert x == n * e + x % n;
    assert (e - q) * n == r - x % n;
    MultipleIsFar(e - q, n);
  }

  lemma MultipleIsFar(d: int, n: int)
    requires n > 0
    ensures d != 0 ==> d * n >= n || d * n <= 0 - n
  {
    if d >= 1 {
      assert (d - 1) * n >= 0;
    } else if d <= -1 {
      assert (-1 - d) * n >= 0;
    }
  }

  /** Slot p of one ring is the mirror image of slot (size - p) % size of the other. */
  function Mirror(p: nat, n: nat): (r: nat)
    requires p < n
    ensures r < n
  {
    Wrapped(n - p, n)
  }

  lemma MirrorIsRemainder(p: nat, n: nat)
    requires p < n
    ensures Mirror(p, n) == (n - p) % n && Mirror(Mirror(p, n), n) == p
  {
    RemainderIs(n - p, n, if p == 0 then 1 else 0, Mirror(p, n));
  }

  /** The item of a history at index i; before its start, what the buffer was filled with. */
  function At<T>(history: seq<T>, i: int, fill: T): T
    requires i < |history|
  {
    if i < 0 then fill else history[i]
  }

  /** How many steps slot p lies behind slot from. */
  function Behind(from: nat, p: nat, n: nat): (r: nat)
    requires from < n && p < n
    ensures r < n
  {
    if p <= from then from - p else from - p + n
  }

  /** How many steps slot p lies ahead of slot from. */
  function Ahead(from: nat, p: nat, n: nat): (r: nat)
    requires from < n && p < n
    ensures r < n
  {
    if from <= p then p - from else p - from + n
  }

  /** Stepping one ring up and the other down keeps them mirrored and the read position one further behind. */
  lemma WriteStep(write: nat, read: nat, n: nat)
    requires write < n && read < n
    ensures Mirror(Wrapped(write + 1, n), n) == Wrapped(Mirror(write, n) - 1, n)
    ensures var gap := Behind(write, read, n) + 1;
            Behind(Wrapped(write + 1, n), read, n) == if gap == n then 0 else gap
  {
  }

  lemma ReadStep(write: nat, read: nat, n: nat)
    requires write < n && read < n && read != write
    ensures Mirror(Wrapped(read + 1, n), n) == Wrapped(Mirror(read, n) - 1, n)
    ensures Behind(write, Wrapped(read + 1, n), n) == Behind(write, read, n) - 1
  {
  }

  lemma ReadAtDelay(write: nat, delay: nat, n: nat)
    requires write < n && delay <= n
    ensures Mirror(Wrapped(write - delay, n), n) == Wrapped(Mirror(write, n) + delay, n)
    ensures Behind(write, Wrapped(write - delay, n), n) == if delay == n then 0 else delay
  {
  }

  lemma MirrorsAgree(write: nat, read: nat, n: nat)
    requires write < n && read < n
    ensures Ahead(Mirror(write, n), Mirror(read, n), n) == Behind(write, read, n)
    ensures Behind(write, read, n) == 0 <==> write == read
    ensures Mirror(0, n) == 0
  {
  }

  lemma InitiallyFilled<T>(buffer: seq<T>, fill: T)
    requires |buffer| > 0 && forall i :: 0 <= i < |buffer| ==> buffer[i] == fill
    ensures HoldsBackward(buffer, 0, [], fill) && HoldsForward(buffer, 0, [], fill)
  {
  }

  /** Reading backwards from the write position gives the history, newest first. */
  ghost predicate HoldsBackward<T>(buffer: seq<T>, write: nat, history: seq<T>, fill: T) {
    && write < |buffer|
    && forall p :: 0 <= p < |buffer| ==>
         buffer[p] == At(history, |history| - 1 - Behind(write, p, |buffer|), fill)
  }

  /** Reading forwards from the write position gives the history, newest first. */
  ghost predicate HoldsForward<T>(buffer: seq<T>, write: nat, history: seq<T>, fill: T) {
    && write < |buffer|
    && forall p :: 0 <= p < |buffer| ==>
         buffer[p] == At(history, |history| - 1 - Ahead(write, p, |buffer|), fill)
  }

  lemma PushBackward<T>(buffer: seq<T>, write: nat, history: seq<T>, fill: T, x: T)
    requires HoldsBackward(buffer, write, history, fill)
    ensures var write' := Wrapped(write + 1, |buffer|);
            HoldsBackward(buffer[write' := x], write', history + [x], fill)
  {
    var n, write' := |buffer|, Wrapped(write + 1, |buffer|);
    forall p | 0 <= p < n
      ensures buffer[write' := x][p] == At(history + [x], |history| - Behind(write', p, n), fill)
    {
      if p != write' {
        assert Behind(write', p, n) == Behind(write, p, n) + 1;
      }
    }
  }

  function Reversed<T>(s: seq<T>): (r: seq<T>)
    ensures |r| == |s| && forall i :: 0 <= i < |s| ==> r[i] == s[|s| - 1 - i]
  {
    if s == [] then [] else [s[|s| - 1]] + Reversed(s[..|s| - 1])
  }

  function Splice<T>(buffer: seq<T>, start: nat, chunk: seq<T>): (r: seq<T>)
    requires start + |chunk| <= |buffer|
    ensures |r| == |buffer|
  {
    buffer[..start] + chunk + buffer[start + |chunk|..]
  }

  lemma SpliceAt<T>(buffer: seq<T>, start: nat, chunk: seq<T>, p: nat)
    requires start + |chunk| <= |buffer| && p < |buffer|
    ensures Splice(buffer, start, chunk)[p] == if start <= p < start + |chunk| then chunk[p - start] else buffer[p]
  {
  }

  /** Writing a chunk in reverse just before the write position adds it to the history, if it does not cross the end. */
  lemma PushForward<T>(buffer: seq<T>, write: nat, history: seq<T>, fill: T, chunk: seq<T>)
    requires write < |buffer| && HoldsForward(buffer, write, history, fill)
    requires |chunk| <= |buffer| && Wrapped(write - |chunk|, |buffer|) + |chunk| <= |buffer|
    ensures var write' := Wrapped(write - |chunk|, |buffer|);
            HoldsForward(Splice(buffer, write', Reversed(chunk)), write', history + chunk, fill)
  {
    hide Splice, Reversed, Wrapped, At, Ahead, HoldsForward;
    var write' := Wrapped(write - |chunk|, |buffer|);
    forall p | 0 <= p < |buffer|
      ensures Splice(buffer, write', Reversed(chunk))[p]
              == At(history + chunk, |history| + |chunk| - 1 - Ahead(write', p, |buffer|), fill)
    {
      PushForwardAt(buffer, write, history, fill, chunk, p);
    }
    HoldsForwardIntro(Splice(buffer, write', Reversed(chunk)), write', history + chunk, fill);
  }

  lemma HoldsForwardIntro<T>(buffer: seq<T>, write: nat, history: seq<T>, fill: T)
    requires write < |buffer|
    requires forall p :: 0 <= p < |buffer| ==>
               buffer[p] == At(history, |history| - 1 - Ahead(write, p, |buffer|), fill)
    ensures HoldsForward(buffer, write, history, fill)
  {
  }

  lemma PushForwardAt<T>(buffer: seq<T>, write: nat, history: seq<T>, fill: T, chunk: seq<T>, p: nat)
    requires HoldsForward(buffer, write, history, fill) && p < |buffer|
    requires |chunk| <= |buffer| && Wrapped(write - |chunk|, |buffer|) + |chunk| <= |buffer|
    ensures var write' := Wrapped(write - |chunk|, |buffer|);
            Splice(buffer, write', Reversed(chunk))[p]
            == At(history + chunk, |history| + |chunk| - 1 - Ahead(write', p, |buffer|), fill)
  {
    hide Splice, Reversed;
    SpliceAt(buffer, Wrapped(write - |chunk|, |buffer|), Reversed(chunk), p);
    var n, k, write' := |buffer|, |chunk|, Wrapped(write - |chunk|, |buffer|);
    if !(write' <= p < write' + k) {
      assert Ahead(write', p, n) == Ahead(write, p, n) + k;
    }
  }

  lemma PushOneForward<T>(buffer: seq<T>, write: nat, history: seq<T>, fill: T, x: T)
    requires write < |buffer| && HoldsForward(buffer, Wrapped(write + 1, |buffer|), history, fill)
    ensures HoldsForward(buffer[write := x], write, history + [x], fill)
  {
    PushForward(buffer, Wrapped(write + 1, |buffer|), history, fill, [x]);
    assert Splice(buffer, write, Reversed([x])) == buffer[write := x];
  }

  lemma PushChunkForward(buffer: seq<real>, write: nat, history: seq<real>, chunk: seq<real>)
    requires write < |buffer| && write + |chunk| <= |buffer|
    requires HoldsForward(buffer, Wrapped(write + |chunk|, |buffer|), history, 0.0)
    ensures HoldsForward(Splice(buffer, write, Reversed(chunk)), write, history + chunk, 0.0)
  {
    hide Splice, Reversed, HoldsForward;
    PushForward(buffer, Wrapped(write + |chunk|, |buffer|), history, 0.0, chunk);
  }

  lemma BlockBefore<T>(buffer: seq<T>, write: nat, history: seq<T>, fill: T, x: T)
    requires HoldsBackward(buffer, write, history, fill)
    ensures buffer[write] == At(history, |history| - 1, fill)
    ensures HoldsBackward(buffer[Wrapped(write + 1, |buffer|) := x], Wrapped(write + 1, |buffer|), history + [x], fill)
  {
    PushBackward(buffer, write, history, fill, x);
  }

  method CopyReversed<T>(buffer: array<T>, start: nat, chunk: seq<T>)
    requires start + |chunk| <= buffer.Length
    modifies buffer
    ensures buffer[..] == Splice(old(buffer[..]), start, Reversed(chunk))
  {
    hide Reversed;
    ghost var was, reversed := buffer[..], Reversed(chunk);
    for i := 0 to |chunk|
      invariant buffer[..] == was[..start] + reversed[..i] + was[start + i..]
    {
      hide Splice;
      assert reversed[..i + 1] == reversed[..i] + [reversed[i]];
      buffer[start + i] := chunk[|chunk| - 1 - i];
    }
    assert reversed[..|chunk|] == reversed;
  }
}
