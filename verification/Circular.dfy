/** A reader that serves a block of data over and over (`circularBuffer` in
    pkg/generator/circular.go). */
module Circular {
  import opened Basics
  import opened Arithmetic

  type byte = x: int | 0 <= x < 256

  /** n bytes of the infinite repetition of data, from position `from` on. */
  function Cycle(data: seq<byte>, from: nat, n: nat): (r: seq<byte>)
    requires |data| > 0
    ensures |r| == n
  {
    seq(n, i requires 0 <= i < n => data[(from + i) % |data|])
  }

  /** It begins with the data, and begins again after it. */
  lemma CycleRepeats(data: seq<byte>, from: nat, n: nat)
    requires |data| > 0
    ensures Cycle(data, 0, |data|) == data
    ensures Cycle(data, from + |data|, n) == Cycle(data, from, n)
  {
    forall i | 0 <= i < |data| ensures Cycle(data, 0, |data|)[i] == data[i] {
      ModSmall(i, |data|);
    }
    forall i | 0 <= i < n ensures Cycle(data, from + |data|, n)[i] == Cycle(data, from, n)[i] {
      var x, c := from + i, |data|;
      ModUnique(x + c, c, x / c + 1, x % c);
    }
  }

  lemma CycleAppend(data: seq<byte>, from: nat, n: nat, m: nat)
    requires |data| > 0
    ensures Cycle(data, from, n) + Cycle(data, from + n, m) == Cycle(data, from, n + m)
  {
  }

  lemma JoinCycle(data: seq<byte>, from: nat, n: nat, m: nat, p: seq<byte>)
    requires |data| > 0 && n + m <= |p|
    requires p[..n] == Cycle(data, from, n) && p[n..n + m] == Cycle(data, from + n, m)
    ensures p[..n + m] == Cycle(data, from, n + m) && p[..n + m] == p[..n] + p[n..n + m]
  {
    CycleAppend(data, from, n, m);
  }

  lemma DropMore(a: seq<byte>, b: seq<byte>, n: nat, m: nat)
    requires |a| == |b| && n + m <= |a| && a[n..] == b[n..]
    ensures a[n + m..] == b[n + m..]
  {
    assert a[n + m..] == a[n..][m..] && b[n + m..] == b[n..][m..];
  }

  /** A stretch of the data that does not wrap is a stretch of the repetition. */
  lemma CycleWithin(data: seq<byte>, from: nat, lo: nat, n: nat)
    requires |data| > 0 && lo + n <= |data| && from % |data| == lo % |data|
    ensures n > 0 ==> Cycle(data, from, n) == data[lo..lo + n]
    ensures n == 0 ==> Cycle(data, from, n) == []
  {
    if n > 0 {
      var c := Cycle(data, from, n);
      forall i | 0 <= i < n ensures c[i] == data[lo..lo + n][i] {
        IndexWithin(from, lo, i, |data|);
      }
    }
  }

  lemma IndexWithin(from: nat, lo: nat, i: nat, len: nat)
    requires len > 0 && lo + i < len && from % len == lo % len
    ensures (from + i) % len == lo + i
  {
    ModSmall(lo, len);
    var q := from / len;
    assert from == q * len + lo;
    ModUnique(from + i, len, q, lo + i);
  }

  /** Advancing both positions keeps them in step. */
  lemma StepTogether(from: nat, lo: nat, n: nat, len: nat)
    requires len > 0 && from % len == lo % len
    ensures (from + n) % len == (lo + n) % len
  {
    var q, r := from / len, lo / len;
    var rest := from % len;
    assert from == q * len + rest && lo == r * len + rest;
    var s, t := (rest + n) / len, (rest + n) % len;
    assert rest + n == s * len + t;
    DistributeRight(q, s, len);
    DistributeRight(r, s, len);
    ModUnique(from + n, len, q + s, t);
    ModUnique(lo + n, len, r + s, t);
  }

  datatype ReadResult = Filled | EndOfData | NoData | Panicked

  datatype SeekError = Ok | InvalidWhence | BeyondEnd | ShortBuffer | NegativePosition

  const SEEK_START: int := 0
  const SEEK_CURRENT: int := 1
  const SEEK_END: int := 2

  class CircularBuffer {
    const data: seq<byte>
    /** What is left of the data at the current position: data[lo..hi]. */
    var lo: nat
    var hi: nat
    var want: int
    var read: int

    /** Everything read since the last reset, and whether a Seek came in between. */
    ghost var delivered: seq<byte>
    ghost var sought: bool

    /** The position in the data follows the number of bytes read, although what is
        left of the data is cut off when fewer bytes than that remain wanted. */
    ghost predicate InStep()
      reads this
    {
      && 0 <= read
      && (|data| > 0 ==> delivered == Cycle(data, 0, read))
      && (|data| > 0 && read < want ==>
          read % |data| == lo % |data| && (hi == |data| || hi - lo == want - read))
    }

    ghost predicate Valid()
      reads this
    {
      && lo <= hi <= |data|
      && read <= want && 0 <= want && IsInt64(want) && IsInt64(read)
      && (!sought ==> InStep())
    }

    constructor (block: seq<byte>, size: int)
      requires 0 <= size && IsInt64(size)
      ensures Valid() && data == block && want == size && read == 0 && !sought && delivered == []
    {
      data := block;
      lo, hi := 0, |block|;
      want, read := size, 0;
      delivered, sought := [], false;
    }

    /** Starts over; a positive number replaces the number of bytes wanted. */
    method Reset(newWant: int)
      requires Valid() && IsInt64(newWant)
      modifies this
      ensures Valid() && read == 0 && !sought && delivered == []
      ensures want == if newWant > 0 then newWant else old(want)
    {
      if newWant > 0 {
        want := newWant;
      }
      read := 0;
      lo, hi := 0, |data|;
      delivered, sought := [], false;
    }

    /** Moves the count of bytes read but not the position in the data. A target
        before the start is reported, yet the count keeps it. */
    method Seek(offset: int, whence: int) returns (n: int, err: SeekError)
      requires Valid() && IsInt64(offset)
      modifies this`read, this`sought
      ensures Valid() && sought
      ensures var target := if whence == SEEK_START then offset
                            else if whence == SEEK_CURRENT then Wrap64(offset + old(read))
                            else want + offset;
        var fromFront := whence == SEEK_START || whence == SEEK_CURRENT;
        && (err == InvalidWhence <==> !fromFront && whence != SEEK_END)
        && (err == BeyondEnd <==> (fromFront && target > want) || (whence == SEEK_END && offset > 0))
        && (err == ShortBuffer <==> whence == SEEK_END && offset <= 0 && target < 0)
        && (err == NegativePosition <==> fromFront && target < 0)
        && n == (if err == Ok then target else 0)
        && read == (if err == Ok || err == NegativePosition then target else old(read))
    {
      sought := true;
      if whence == SEEK_START {
        if offset > want {
          return 0, BeyondEnd;
        }
        read := offset;
      } else if whence == SEEK_CURRENT {
        if Wrap64(offset + read) > want {
          return 0, BeyondEnd;
        }
        read := Wrap64(read + offset);
      } else if whence == SEEK_END {
        if offset > 0 {
          return 0, BeyondEnd;
        }
        if Wrap64(want + offset) < 0 {
          return 0, ShortBuffer;
        }
        read := Wrap64(want + offset);
      } else {
        return 0, InvalidWhence;
      }
      if read < 0 {
        return 0, NegativePosition;
      }
      return read, Ok;
    }

    /** Fills p as far as bytes are wanted. The panic on a negative remainder is
        reached exactly when the remainder does not fit in 64 bits, which takes a
        failed Seek before. */
    method Read(p: array<byte>) returns (n: int, r: ReadResult)
      requires Valid()
      modifies p, this`lo, this`hi, this`read, this`delivered
      ensures Valid()
      ensures r == NoData <==> |data| == 0
      ensures r == Panicked <==> |data| > 0 && p.Length > 0 && want - old(read) >= TWO_63
      ensures r == NoData || r == Panicked ==> n == 0 && read == old(read) && p[..] == old(p[..])
      ensures r == Filled || r == EndOfData ==>
        n == Min(p.Length, want - old(read)) && read == old(read) + n && (r == EndOfData <==> n < p.Length)
      ensures 0 <= n <= p.Length && p[n..] == old(p[n..])
      ensures !sought && |data| > 0 ==> p[..n] == Cycle(data, old(read), n) && delivered == old(delivered) + p[..n]
    {
      n := 0;
      ghost var before, was := p[..], delivered;
      if |data| == 0 {
        assert p[n..] == before[n..];
        return 0, NoData;
      }
      while n < p.Length
        invariant 0 <= n <= p.Length && Valid()
        invariant read == old(read) + n
        invariant n > 0 ==> want - old(read) < TWO_63
        invariant p[n..] == before[n..]
        invariant n > 0 || p[..] == before
        invariant !sought ==> p[..n] == Cycle(data, old(read), n) && delivered == was + p[..n]
        decreases p.Length - n
      {
        if lo == hi {
          Refill();
        }
        var remain := Wrap64(want - read);
        if remain <= 0 {
          if remain != 0 {
            return n, Panicked;
          }
          return n, EndOfData;
        }
        var copied := CopyRound(p, n, remain, old(read), was, before);
        n := n + copied;
      }
      r := Filled;
    }

    /** What is left becomes all of the data again. */
    method Refill()
      requires Valid() && |data| > 0 && lo == hi
      modifies this`lo, this`hi
      ensures Valid() && lo == 0 && hi == |data|
    {
      if !sought && read < want {
        assert lo == |data|;
        ModUnique(lo, |data|, 1, 0);
        ModSmall(0, |data|);
      }
      lo, hi := 0, |data|;
    }

    /** One round of the loop after `n` bytes of this Read. */
    method CopyRound(p: array<byte>, n: nat, remain: int, ghost from: int, ghost was: seq<byte>, ghost before: seq<byte>)
      returns (copied: nat)
      requires Valid() && lo < hi && n < p.Length && remain == want - read && remain > 0
      requires p.Length == |before| && p[n..] == before[n..]
      requires !sought ==> 0 <= from && read == from + n && p[..n] == Cycle(data, from, n) && delivered == was + p[..n]
      modifies p, this`lo, this`hi, this`read, this`delivered
      ensures Valid() && copied > 0 && n + copied <= p.Length && read == old(read) + copied
      ensures p[n + copied..] == before[n + copied..]
      ensures !sought ==> p[..n + copied] == Cycle(data, from, n + copied) && delivered == was + p[..n + copied]
    {
      ghost var rest := p[..];
      copied := CopyOut(p, n, remain);
      DropMore(rest, before, n, copied);
      if !sought {
        JoinCycle(data, from, n, copied, p[..]);
      }
    }

    /** The copying: as much as is left, wanted, and fits. */
    method CopyOut(p: array<byte>, n: nat, remain: int) returns (copied: nat)
      requires Valid() && lo < hi && n < p.Length && remain == want - read && remain > 0
      modifies p, this`lo, this`hi, this`read, this`delivered
      ensures Valid() && copied > 0 && n + copied <= p.Length
      ensures read == old(read) + copied
      ensures p[..n] == old(p[..n]) && p[n + copied..] == old(p[n + copied..])
      ensures !sought ==> p[n..n + copied] == Cycle(data, old(read), copied)
      ensures !sought ==> delivered == old(delivered) + p[n..n + copied]
    {
      var end := hi;
      if end - lo > remain {
        end := lo + remain;
      }
      copied := Min(p.Length - n, end - lo);
      ghost var lo0, read0 := lo, read;
      CopyInto(p, n, lo, copied);
      delivered := delivered + p[n..n + copied];
      lo, hi := lo + copied, end;
      read := read + copied;
      if !sought {
        CycleWithin(data, read0, lo0, copied);
        CycleAppend(data, 0, read0, copied);
        StepTogether(read0, lo0, copied, |data|);
      }
    }

    method CopyInto(p: array<byte>, n: nat, from: nat, count: nat)
      requires n + count <= p.Length && from + count <= |data|
      modifies p
      ensures p[..n] == old(p[..n]) && p[n + count..] == old(p[n + count..])
      ensures p[n..n + count] == data[from..from + count]
    {
      ghost var before := p[..];
      for i := 0 to count
        invariant p[..n] == before[..n] && p[n + i..] == before[n + i..]
        invariant p[n..n + i] == data[from..from + i]
      {
        p[n + i] := data[from + i];
      }
    }
  }

  // ----- runs of reads ---------------------------------------------------------------------

  function Sum(sizes: seq<nat>): nat {
    if |sizes| == 0 then 0 else Sum(sizes[..|sizes| - 1]) + sizes[|sizes| - 1]
  }

  /** The repetition up to `want`, of which `sofar` bytes have been asked for, goes on
      with the bytes of one more piece. */
  lemma PieceJoins(data: seq<byte>, from: nat, want: nat, sofar: nat, size: nat)
    requires |data| > 0 && from <= want
    ensures var n := Min(sofar, want - from);
      Cycle(data, from, n) + Cycle(data, from + n, Min(size, want - (from + n))) ==
      Cycle(data, from, Min(sofar + size, want - from))
  {
    var n := Min(sofar, want - from);
    CycleAppend(data, from, n, Min(size, want - (from + n)));
  }

  /** One call of Read with a fresh array. */
  method ReadPiece(c: CircularBuffer, size: nat) returns (piece: seq<byte>)
    requires c.Valid() && !c.sought && |c.data| > 0
    modifies c
    ensures c.Valid() && !c.sought && c.want == old(c.want)
    ensures 0 <= old(c.read) && piece == Cycle(c.data, old(c.read), Min(size, c.want - old(c.read)))
    ensures c.read == old(c.read) + |piece|
  {
    var p := new byte[size];
    var n, r := c.Read(p);
    piece := p[..n];
  }

  /** Reads of any sizes, without a Seek since the last reset, together return the
      repetition of the data, up to the number of bytes wanted. */
  method ReadPieces(c: CircularBuffer, sizes: seq<nat>) returns (out: seq<byte>)
    requires c.Valid() && !c.sought && |c.data| > 0
    modifies c
    ensures c.Valid() && !c.sought && c.want == old(c.want)
    ensures 0 <= old(c.read) && out == Cycle(c.data, old(c.read), Min(Sum(sizes), c.want - old(c.read)))
    ensures c.read == old(c.read) + |out|
  {
    ghost var from, want := c.read, c.want;
    out := [];
    for i := 0 to |sizes|
      invariant c.Valid() && !c.sought && c.want == want && 0 <= from
      invariant out == Cycle(c.data, from, Min(Sum(sizes[..i]), want - from))
      invariant c.read == from + |out|
    {
      assert sizes[..i + 1][..i] == sizes[..i];
      PieceJoins(c.data, from, want, Sum(sizes[..i]), sizes[i]);
      var piece := ReadPiece(c, sizes[i]);
      out := out + piece;
    }
    assert sizes[..|sizes|] == sizes;
  }

  /** A Seek to k bytes before the start reports an error, yet the next Read delivers k
      bytes more than are wanted, or panics when that number exceeds 63 bits. */
  method ReadAfterSeekBeforeStart(block: seq<byte>, size: int, k: int, p: array<byte>)
    returns (err: SeekError, n: int, r: ReadResult)
    requires |block| > 0 && 0 <= size < TWO_63 && 0 < k <= TWO_63 && p.Length > 0
    modifies p
    ensures err == NegativePosition
    ensures if size + k < TWO_63 then r != Panicked && n == Min(p.Length, size + k) else r == Panicked
  {
    var c := new CircularBuffer(block, size);
    n, err := c.Seek(-k, SEEK_START);
    n, r := c.Read(p);
  }
}
