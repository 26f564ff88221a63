/** The ring buffer of src/misc.c.  Reading copies nothing: it hands out a stretch
    of the buffer itself. */
module RingBuffer {
  import opened Common

  function Min(a: nat, b: nat): nat {
    if a < b then a else b
  }

  /** x % size, for an x that is past the end at most once. */
  function Wrap(x: nat, size: nat): nat {
    if x < size then x else x - size
  }

  lemma WrapIsMod(x: nat, size: nat)
    requires 0 < size && x < 2 * size
    ensures x % size == Wrap(x, size)
  {
  }

  /** The len elements from position pos on, going round at the end. */
  function Around(data: seq<byte>, pos: nat, len: nat): (s: seq<byte>)
    requires len <= |data| && (pos < |data| || len == 0)
    ensures |s| == len
  {
    seq(len, i requires 0 <= i < len => data[Wrap(pos + i, |data|)])
  }

  // ---------- The distance to the end, in an int ----------

  /** What the variable `remaining` amounts to when it is compared with a size_t: the
      distance goes through an int, and a negative int becomes a huge number. */
  function Remaining(distance: nat): nat {
    var i := AsInt32(distance);
    if i < 0 then i + TWO64 else i
  }

  /** Bytes a write of n copies at the write position; the others go to the front. */
  function CopiedAtEnd(n: nat, distance: nat): nat {
    if n > Remaining(distance) then Remaining(distance) else n
  }

  /** Bytes a read hands out. */
  function HandedOut(dstlen: nat, distance: nat, avail: nat): nat {
    var n := if dstlen > Remaining(distance) then Remaining(distance) else dstlen;
    if n > avail then avail else n
  }

  /** The int holds the distance, or n bytes stay before the end by either measure. */
  predicate Fits(n: nat, distance: nat) {
    Remaining(distance) == distance || (n <= distance && n <= Remaining(distance))
  }

  lemma RemainingIs(distance: nat)
    ensures distance < TWO31 ==> Remaining(distance) == distance
    ensures TWO31 <= distance < TWO32 ==> Remaining(distance) == distance + TWO64 - TWO32
  {
  }

  /** For distances below 2^32 that means: below 2^31, or no need to go round. */
  lemma FitsBelow4G(n: nat, distance: nat)
    requires distance < TWO32
    ensures Fits(n, distance) <==> distance < TWO31 || n <= distance
  {
    RemainingIs(distance);
    hide Remaining;
  }

  /** A write splits at the end of the buffer, and a read stops there, if and only if
      that holds. */
  lemma SplitsAtEnd(n: nat, distance: nat)
    ensures CopiedAtEnd(n, distance) == Min(n, distance) <==> Fits(n, distance)
  {
    hide Remaining;
  }

  lemma StopsAtEnd(dstlen: nat, distance: nat, avail: nat)
    ensures HandedOut(dstlen, distance, avail) == Min(dstlen, Min(distance, avail))
            <==> Fits(Min(dstlen, avail), distance)
  {
    hide Remaining;
  }

  predicate WritesRight(size: nat, pos: nat, n: nat)
    requires pos <= size
  {
    CopiedAtEnd(n, size - pos) == Min(n, size - pos)
  }

  predicate ReadsRight(size: nat, pos: nat, dstlen: nat, avail: nat)
    requires pos <= size
  {
    HandedOut(dstlen, size - pos, avail) == Min(dstlen, Min(size - pos, avail))
  }

  /** All writes, at every position, are right if and only if the size is at most 2^31,
      and so are all reads. */
  lemma SafeSizes(size: nat)
    ensures (forall pos, n | 0 <= pos < size && 0 <= n <= size :: WritesRight(size, pos, n)) <==> size <= TWO31
    ensures (forall pos, dstlen: nat, avail | 0 <= pos < size && 0 <= avail <= size ::
               ReadsRight(size, pos, dstlen, avail)) <==> size <= TWO31
  {
    hide Remaining, WritesRight, ReadsRight;
    if size <= TWO31 {
      forall pos, n | 0 <= pos < size && 0 <= n <= size
        ensures WritesRight(size, pos, n)
      {
        RightAt(size, pos, n, n);
      }
      forall pos, dstlen: nat, avail | 0 <= pos < size && 0 <= avail <= size
        ensures ReadsRight(size, pos, dstlen, avail)
      {
        RightAt(size, pos, dstlen, avail);
      }
    } else {
      RemainingIs(TWO31);
      WrongPastTheEnd(size, size - TWO31);
    }
  }

  lemma RightAt(size: nat, pos: nat, dstlen: nat, avail: nat)
    requires pos < size <= TWO31 && avail <= size
    ensures WritesRight(size, pos, avail) && ReadsRight(size, pos, dstlen, avail)
  {
    RemainingIs(size - pos);
    hide Remaining;
  }

  lemma WrongPastTheEnd(size: nat, pos: nat)
    requires size - pos == TWO31 && pos > 0 && Remaining(TWO31) > TWO31
    ensures !WritesRight(size, pos, size) && !ReadsRight(size, pos, size, size)
  {
    hide Remaining;
  }

  /** With one byte more: a byte written and read leads to position 1, and a write
      that fills the empty buffer from there is not split, so that its last byte is
      copied past the end. */
  lemma WritePastTheEnd(b: byte)
    ensures var size := TWO31 + 1;
            && Fits(1, size) && Run(Fifo([], 0, size), [WriteOp([b]), ReadOp(1)]) == Fifo([], 1, size)
            && CopiedAtEnd(size, size - 1) == size
  {
    RemainingIs(TWO31);
    RemainingIs(TWO31 + 1);
    OneByteThrough(b, TWO31 + 1);
    hide Run, Remaining;
  }

  /** If the buffer is filled in two writes instead, both are right, and then a read of
      everything hands out that byte. */
  lemma ReadPastTheEnd(src: seq<byte>, c: byte)
    requires |src| == TWO31
    ensures var size := TWO31 + 1;
            && Fits(|src|, size - 1) && Fits(1, size)
            && Run(Fifo([], 1, size), [WriteOp(src), WriteOp([c])]) == Fifo(src + [c], 1, size)
            && HandedOut(size, size - 1, |src + [c]|) == size
  {
    var size := TWO31 + 1;
    RemainingIs(TWO31);
    RemainingIs(size);
    var w, v := WriteOp(src), WriteOp([c]);
    assert src[..TWO31] == src && [] + src == src && [c][..1] == [c];
    assert Step(Fifo([], 1, size), w).0 == Fifo(src, 1, size);
    assert Step(Fifo(src, 1, size), v).0 == Fifo(src + [c], 1, size);
    hide Step, Remaining;
    assert [w, v][1..] == [v] && [v][1..] == [];
    assert Run(Fifo(src, 1, size), [v]) == Run(Fifo(src + [c], 1, size), []);
  }

  lemma OneByteThrough(b: byte, size: nat)
    requires size > 1
    ensures Run(Fifo([], 0, size), [WriteOp([b]), ReadOp(1)]) == Fifo([], 1, size)
  {
    var f, w, r := Fifo([], 0, size), WriteOp([b]), ReadOp(1);
    var g := Fifo([b], 0, size);
    assert [b][..1] == [b] && [] + [b] == [b] && [b][1..] == [];
    assert Step(f, w).0 == g && Step(g, r).0 == Fifo([], 1, size);
    hide Step;
    assert [w, r][1..] == [r] && [r][1..] == [];
    assert Run(g, [r]) == Run(Fifo([], 1, size), []);
  }

  // ---------- The queue it implements ----------

  /** What callers see: the pending bytes, and how far the end of the buffer is. */
  datatype Fifo = Fifo(contents: seq<byte>, readPos: nat, size: nat) {
    predicate Valid() {
      |contents| <= size && (readPos < size || size == 0)
    }
  }

  datatype Op = WriteOp(src: seq<byte>) | ReadOp(dstlen: nat)

  /** The new queue, and the bytes accepted or handed out. */
  function Step(f: Fifo, op: Op): (r: (Fifo, seq<byte>))
    requires f.Valid()
    ensures r.0.Valid()
  {
    match op
    case WriteOp(src) =>
      var n := Min(|src|, f.size - |f.contents|);
      (f.(contents := f.contents + src[..n]), src[..n])
    case ReadOp(dstlen) =>
      var n := Min(dstlen, Min(if f.size == 0 then 0 else f.size - f.readPos, |f.contents|));
      (f.(contents := f.contents[n..], readPos := if f.size == 0 then f.readPos else Wrap(f.readPos + n, f.size)),
       f.contents[..n])
  }

  function Run(f: Fifo, ops: seq<Op>): (r: Fifo)
    requires f.Valid()
    ensures r.Valid() && r.size == f.size
    decreases |ops|
  {
    if ops == [] then f else Run(Step(f, ops[0]).0, ops[1..])
  }

  /** All bytes accepted (or, for reads, handed out) in a run, in order. */
  function Moved(f: Fifo, ops: seq<Op>, writes: bool): seq<byte>
    requires f.Valid()
    decreases |ops|
  {
    if ops == [] then []
    else (if ops[0].WriteOp? == writes then Step(f, ops[0]).1 else []) + Moved(Step(f, ops[0]).0, ops[1..], writes)
  }

  /** First in, first out, for every interleaving: what was in the buffer and what
      was accepted since, in order, is what was handed out and what is left. */
  lemma {:induction false} FifoOrder(f: Fifo, ops: seq<Op>)
    requires f.Valid()
    ensures f.contents + Moved(f, ops, true) == Moved(f, ops, false) + Run(f, ops).contents
    decreases |ops|
  {
    if ops != [] {
      var rest := ops[1..];
      var (g, out) := Step(f, ops[0]);
      FifoOrder(g, rest);
      StepOrder(f, ops[0]);
      assert Run(f, ops) == Run(g, rest);
      hide Step, Run;
      if ops[0].WriteOp? {
        assert Moved(f, ops, true) == out + Moved(g, rest, true) && Moved(f, ops, false) == Moved(g, rest, false);
        Regroup(f.contents, out, Moved(g, rest, true));
      } else {
        assert Moved(f, ops, false) == out + Moved(g, rest, false) && Moved(f, ops, true) == Moved(g, rest, true);
        Regroup(out, g.contents, Moved(g, rest, true));
        Regroup(out, Moved(g, rest, false), Run(g, rest).contents);
      }
    }
  }

  /** A write accepts the first bytes of its source, all of them or as many as are free;
      a read hands out the oldest, all it asks for, or all there are up to the end of
      the buffer, and goes on behind them. */
  lemma StepAmounts(f: Fifo, src: seq<byte>, dstlen: nat)
    requires f.Valid()
    ensures var accepted := Step(f, WriteOp(src)).1;
            && accepted <= src
            && |accepted| == (if |src| <= f.size - |f.contents| then |src| else f.size - |f.contents|)
    ensures var (g, out) := Step(f, ReadOp(dstlen));
            && |out| <= dstlen && |out| <= |f.contents| && (f.size > 0 ==> f.readPos + |out| <= f.size)
            && (|out| == dstlen || |out| == |f.contents| || f.readPos + |out| == f.size)
            && (f.size > 0 ==> g.readPos == (f.readPos + |out|) % f.size)
  {
    if f.size > 0 {
      WrapIsMod(f.readPos + |Step(f, ReadOp(dstlen)).1|, f.size);
    }
  }

  lemma StepOrder(f: Fifo, op: Op)
    requires f.Valid()
    ensures var (g, out) := Step(f, op);
            if op.WriteOp? then g.contents == f.contents + out else f.contents == out + g.contents
  {
  }

  /** A read that asks for enough takes everything up to the end of the buffer;
      only what lies beyond it stays, now at the front. */
  lemma ReadToEnd(f: Fifo, dstlen: nat)
    requires f.Valid() && dstlen >= |f.contents|
    ensures var g := Step(f, ReadOp(dstlen)).0;
            if f.contents == [] || f.readPos + |f.contents| <= f.size then g.contents == []
            else g.readPos == 0 && 0 < |g.contents| <= f.size && g.size == f.size
  {
    var toEnd := if f.size == 0 then 0 else f.size - f.readPos;
    var n := Min(dstlen, Min(toEnd, |f.contents|));
    assert n == Min(toEnd, |f.contents|);
    DropFirst(f.contents, n);
  }

  lemma DropFirst(s: seq<byte>, n: nat)
    requires n <= |s|
    ensures |s[n..]| == |s| - n && (s[n..] == [] <==> n == |s|)
  {
  }

  /** Two reads that ask for enough always empty the buffer, even when the data
      goes round the end; one is enough exactly when it does not. */
  lemma TwoReadsEmpty(f: Fifo, a: nat, b: nat)
    requires f.Valid() && a >= |f.contents| && b >= |f.contents|
    ensures Run(f, [ReadOp(a)]).contents == [] <==> f.contents == [] || f.readPos + |f.contents| <= f.size
    ensures Run(f, [ReadOp(a), ReadOp(b)]).contents == []
  {
    var g := Step(f, ReadOp(a)).0;
    ReadToEnd(f, a);
    StepOrder(f, ReadOp(a));
    ReadToEnd(g, b);
    hide Step;
    assert [ReadOp(a), ReadOp(b)][1..] == [ReadOp(b)];
    assert Run(g, [ReadOp(b)]) == Step(g, ReadOp(b)).0;
  }

  class Ring {
    const buffer: array<byte>
    const size: nat
    var writePos: nat
    var readPos: nat
    var writeAvail: nat
    var readAvail: nat

    /** The positions and counters agree. */
    ghost predicate Valid()
      reads this
    {
      && buffer.Length == size
      && readAvail + writeAvail == size
      && (size > 0 ==> readPos < size && writePos == Wrap(readPos + readAvail, size))
      && (size == 0 ==> readPos == writePos == 0)
    }

    /** The bytes written and not yet read, oldest first. */
    ghost function Contents(): (s: seq<byte>)
      requires Valid()
      reads this, buffer
      ensures |s| == readAvail
    {
      Around(buffer[..], readPos, readAvail)
    }

    ghost function Abs(): Fifo
      requires Valid()
      reads this, buffer
    {
      Fifo(Contents(), readPos, size)
    }

    constructor (size: nat)
      ensures Valid() && fresh(buffer) && Abs() == Fifo([], 0, size)
    {
      buffer := new byte[size];
      this.size := size;
      writePos, readPos, writeAvail, readAvail := 0, 0, size, 0;
    }

    /** Accepts what fits.  Only the bytes written are touched, so a stretch
        handed out earlier stays intact as long as it is not among them. */
    method Write(src: seq<byte>) returns (n: nat)
      requires Valid() && Fits(Min(|src|, writeAvail), size - writePos)
      modifies this`writePos, this`writeAvail, this`readAvail, buffer
      ensures Valid()
      ensures n <= |src| && (Abs(), src[..n]) == Step(old(Abs()), WriteOp(src))
      ensures forall i :: 0 <= i < size && !InSpan(size, old(writePos), n, i) ==> buffer[i] == old(buffer[i])
    {
      hide Around, Fits;
      if writeAvail == 0 || |src| == 0 {
        assert Contents() + src[..0] == Contents();
        return 0;
      }
      n := if |src| > writeAvail then writeAvail else |src|;
      ghost var before := buffer[..];
      CopyAround(src[..n]);
      ghost var after := buffer[..];
      AppendAround(before, after, readPos, readAvail, writePos, src[..n]);
      WrapIsMod(writePos + n, size);
      writePos := (writePos + n) % size;
      writeAvail := writeAvail - n;
      readAvail := readAvail + n;
    }

    /** Copies to the write position, in two parts when the end is in the way. */
    method CopyAround(src: seq<byte>)
      requires buffer.Length == size && writePos < size && |src| <= size && Fits(|src|, size - writePos)
      modifies buffer
      ensures forall i :: 0 <= i < |src| ==> buffer[Wrap(writePos + i, size)] == src[i]
      ensures forall i :: 0 <= i < size && !InSpan(size, writePos, |src|, i) ==> buffer[i] == old(buffer[i])
    {
      var remaining := Remaining(size - writePos);
      hide Remaining;
      if |src| > remaining {
        CopyIn(writePos, src[..remaining]);
        CopyIn(0, src[remaining..]);
      } else {
        CopyIn(writePos, src);
      }
    }

    /** memcpy into the buffer. */
    method CopyIn(pos: nat, src: seq<byte>)
      requires pos + |src| <= buffer.Length
      modifies buffer
      ensures forall i :: 0 <= i < |src| ==> buffer[pos + i] == src[i]
      ensures forall i :: 0 <= i < buffer.Length && !(pos <= i < pos + |src|) ==> buffer[i] == old(buffer[i])
    {
      forall i | 0 <= i < |src| {
        buffer[pos + i] := src[i];
      }
    }

    /** Hands out up to dstlen of the oldest bytes, but never past the end of the
        buffer: [pos, pos + n) is where they lie. */
    method Read(dstlen: nat) returns (pos: nat, n: nat)
      requires Valid() && Fits(Min(dstlen, readAvail), size - readPos)
      modifies this`readPos, this`writeAvail, this`readAvail
      ensures Valid() && pos == old(readPos) && pos + n <= size
      ensures (Abs(), buffer[pos..pos + n]) == Step(old(Abs()), ReadOp(dstlen))
    {
      hide Around, Fits, HandedOut;
      pos := readPos;
      if readAvail == 0 || dstlen == 0 {
        assert Contents()[0..] == Contents() && Contents()[..0] == buffer[pos..pos + 0];
        return pos, 0;
      }
      n := Readable(dstlen);
      StopsAtEnd(dstlen, size - readPos, readAvail);
      ghost var data := buffer[..];
      DropAround(data, readPos, readAvail, n);
      assert data[pos..pos + n] == buffer[pos..pos + n];
      WrapIsMod(readPos + n, size);
      readPos := (readPos + n) % size;
      writeAvail := writeAvail + n;
      readAvail := readAvail - n;
      assert buffer[..] == data;
    }

    /** The number of bytes a read hands out, whatever the distance. */
    method Readable(dstlen: nat) returns (n: nat)
      requires readPos <= size
      ensures n == HandedOut(dstlen, size - readPos, readAvail)
    {
      var remaining := Remaining(size - readPos);
      n := dstlen;
      if n > remaining {
        n := remaining;
      }
      if n > readAvail {
        n := readAvail;
      }
    }
  }

  lemma DropAround(data: seq<byte>, pos: nat, len: nat, n: nat)
    requires pos < |data| && len <= |data| && 0 < n <= len && pos + n <= |data|
    ensures data[pos..pos + n] == Around(data, pos, len)[..n]
    ensures Around(data, Wrap(pos + n, |data|), len - n) == Around(data, pos, len)[n..]
  {
    var s := Around(data, pos, len);
    forall i | 0 <= i < n
      ensures s[i] == data[pos..pos + n][i]
    {
      assert Wrap(pos + i, |data|) == pos + i;
    }
    var rest := Around(data, Wrap(pos + n, |data|), len - n);
    forall i | 0 <= i < len - n
      ensures rest[i] == s[n..][i]
    {
      assert Wrap(Wrap(pos + n, |data|) + i, |data|) == Wrap(pos + (n + i), |data|);
    }
  }

  /** Filling the free positions after the data appends to it. */
  lemma AppendAround(before: seq<byte>, after: seq<byte>, pos: nat, len: nat, wpos: nat, src: seq<byte>)
    requires pos < |before| == |after| && len + |src| <= |before| && 0 < |src|
    requires wpos == Wrap(pos + len, |before|)
    requires forall i :: 0 <= i < |src| ==> after[Wrap(wpos + i, |before|)] == src[i]
    requires forall i :: 0 <= i < |before| && !InSpan(|before|, wpos, |src|, i) ==> after[i] == before[i]
    ensures Around(after, pos, len + |src|) == Around(before, pos, len) + src
  {
    forall i | 0 <= i < len + |src|
      ensures Around(after, pos, len + |src|)[i] == (Around(before, pos, len) + src)[i]
    {
      if i >= len {
        assert Wrap(wpos + (i - len), |before|) == Wrap(pos + i, |before|);
      } else {
        assert !InSpan(|before|, wpos, |src|, Wrap(pos + i, |before|));
      }
    }
  }

  /** Position i is one of the n positions from pos on. */
  predicate InSpan(size: nat, pos: nat, n: nat, i: nat) {
    pos <= i < pos + n || i + size < pos + n
  }
}
