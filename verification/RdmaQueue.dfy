/**
 The single-producer single-consumer byte queue between host and NIC, in its
 local (unpaired) form: a ring addressed by offsets from 0 to its size, where 0
 is used only before the first wrap, and 8 bytes stay free so that full and
 empty look different.
 */
module RdmaQueue {
  import opened Basics
  import opened RingIndex

  const PAD: nat := 8

  /* ---------- the queue as a stream ---------- */

  /** All bytes ever accepted, how many have been read and how many are flushed,
      that is, visible to the reader. */
  datatype Pipe = Pipe(log: seq<byte>, read: nat, flushed: nat)

  predicate PipeOk(p: Pipe, size: nat) {
    p.read <= p.flushed <= |p.log| && |p.log| + PAD <= p.read + size
  }

  function Room(p: Pipe, size: nat): nat
    requires PipeOk(p, size)
  {
    size - PAD - (|p.log| - p.read)
  }

  function Flushed(p: Pipe, n: nat, size: nat): Pipe
    requires PipeOk(p, size)
  {
    p.(flushed := p.flushed + Min(n, |p.log| - p.flushed))
  }

  /** Accepts `data` if there is room for all of it, else flushes what is there. */
  function Enqueued(p: Pipe, data: seq<byte>, size: nat): Pipe
    requires PipeOk(p, size)
  {
    if |data| <= Room(p, size) then p.(log := p.log + data) else p.(flushed := |p.log|)
  }

  predicate CanRead(p: Pipe, n: nat, size: nat)
    requires PipeOk(p, size)
  {
    n <= p.flushed - p.read
  }

  function Dequeued(p: Pipe, n: nat, size: nat): Pipe
    requires PipeOk(p, size)
  {
    if CanRead(p, n, size) then p.(read := p.read + n) else p
  }

  datatype Op = Enqueue(data: seq<byte>) | Flush(n: nat) | Peek(n: nat) | Dequeue(n: nat)

  function Apply(p: Pipe, op: Op, size: nat): (p': Pipe)
    requires PipeOk(p, size)
    ensures PipeOk(p', size)
  {
    match op
    case Enqueue(data) => Enqueued(p, data, size)
    case Flush(n) => Flushed(p, n, size)
    case Peek(n) => p
    case Dequeue(n) => Dequeued(p, n, size)
  }

  /** What an operation takes in and what it hands out for good. */
  function TakenIn(p: Pipe, op: Op, size: nat): seq<byte>
    requires PipeOk(p, size)
  {
    if op.Enqueue? && |op.data| <= Room(p, size) then op.data else []
  }

  function HandedOut(p: Pipe, op: Op, size: nat): seq<byte>
    requires PipeOk(p, size)
  {
    if op.Dequeue? && CanRead(p, op.n, size) then p.log[p.read..p.read + op.n] else []
  }

  function Run(p: Pipe, ops: seq<Op>, size: nat): (p': Pipe)
    requires PipeOk(p, size)
    ensures PipeOk(p', size)
    decreases ops
  {
    if ops == [] then p else Run(Apply(p, ops[0], size), ops[1..], size)
  }

  function AllIn(p: Pipe, ops: seq<Op>, size: nat): seq<byte>
    requires PipeOk(p, size)
    decreases ops
  {
    if ops == [] then [] else TakenIn(p, ops[0], size) + AllIn(Apply(p, ops[0], size), ops[1..], size)
  }

  function AllOut(p: Pipe, ops: seq<Op>, size: nat): seq<byte>
    requires PipeOk(p, size)
    decreases ops
  {
    if ops == [] then [] else HandedOut(p, ops[0], size) + AllOut(Apply(p, ops[0], size), ops[1..], size)
  }

  /** First in, first out: over any run, the bytes handed out are, in order, the
      bytes that were in the queue followed by the bytes taken in; what is left
      is what is still queued, and the queue never holds more than its capacity. */
  lemma {:induction false} FirstInFirstOut(p: Pipe, ops: seq<Op>, size: nat)
    requires PipeOk(p, size)
    ensures var p' := Run(p, ops, size);
            p.log[p.read..] + AllIn(p, ops, size) == AllOut(p, ops, size) + p'.log[p'.read..]
    decreases ops
  {
    if ops == [] {
      assert p.log[p.read..] + [] == [] + p.log[p.read..];
    } else {
      var q := Apply(p, ops[0], size);
      var rest, left := AllIn(q, ops[1..], size), Run(p, ops, size);
      FirstInFirstOut(q, ops[1..], size);
      OneOp(p, ops[0], size);
      calc {
        p.log[p.read..] + AllIn(p, ops, size);
        p.log[p.read..] + (TakenIn(p, ops[0], size) + rest);
        { Assoc(p.log[p.read..], TakenIn(p, ops[0], size), rest); }
        (p.log[p.read..] + TakenIn(p, ops[0], size)) + rest;
        (HandedOut(p, ops[0], size) + q.log[q.read..]) + rest;
        { Assoc(HandedOut(p, ops[0], size), q.log[q.read..], rest); }
        HandedOut(p, ops[0], size) + (q.log[q.read..] + rest);
        HandedOut(p, ops[0], size) + (AllOut(q, ops[1..], size) + left.log[left.read..]);
        { Assoc(HandedOut(p, ops[0], size), AllOut(q, ops[1..], size), left.log[left.read..]); }
        AllOut(p, ops, size) + left.log[left.read..];
      }
    }
  }

  lemma Assoc(a: seq<byte>, b: seq<byte>, c: seq<byte>)
    ensures a + (b + c) == (a + b) + c
  {
  }

  lemma OneOp(p: Pipe, op: Op, size: nat)
    requires PipeOk(p, size)
    ensures var q := Apply(p, op, size);
            p.log[p.read..] + TakenIn(p, op, size) == HandedOut(p, op, size) + q.log[q.read..]
  {
    match op
    case Enqueue(data) =>
      assert (p.log + data)[p.read..] == p.log[p.read..] + data;
    case Flush(_) =>
    case Peek(_) =>
    case Dequeue(n) =>
      if CanRead(p, n, size) {
        assert p.log[p.read..] == p.log[p.read..p.read + n] + p.log[p.read + n..];
      }
  }

  /** Nothing is held back: an enqueue is accepted exactly if the bytes fit beside those
      queued with the padding left free; then, flushed and dequeued, all bytes queued
      before and the new ones come out. If it is refused, all that is queued can be read
      at once, as it has been flushed. */
  lemma EverythingComesOut(p: Pipe, data: seq<byte>, size: nat)
    requires PipeOk(p, size)
    ensures var queued := p.log[p.read..];
            if |queued| + |data| + PAD <= size then
              var all := |queued| + |data|;
              && TakenIn(p, Enqueue(data), size) == data
              && AllOut(p, [Enqueue(data), Flush(all), Dequeue(all)], size) == queued + data
            else
              && TakenIn(p, Enqueue(data), size) == []
              && AllOut(p, [Enqueue(data), Dequeue(|queued|)], size) == queued
  {
    var n := |p.log| - p.read;
    if n + |data| + PAD <= size {
      AcceptedComesOut(p, data, size);
    } else {
      RefusedComesOut(p, data, size);
    }
  }

  lemma AcceptedComesOut(p: Pipe, data: seq<byte>, size: nat)
    requires PipeOk(p, size) && |p.log| - p.read + |data| + PAD <= size
    ensures var n := |p.log| - p.read + |data|;
            AllOut(p, [Enqueue(data), Flush(n), Dequeue(n)], size) == p.log[p.read..] + data
  {
    var n := |p.log| - p.read + |data|;
    var p1 := Apply(p, Enqueue(data), size);
    assert p1 == Pipe(p.log + data, p.read, p.flushed);
    var p2 := Apply(p1, Flush(n), size);
    assert p2 == Pipe(p.log + data, p.read, |p.log + data|);
    OutOfThree(p, Enqueue(data), Flush(n), Dequeue(n), size);
    TailOfConcat(p.log, data, p.read);
  }

  lemma TailOfConcat(a: seq<byte>, b: seq<byte>, k: nat)
    requires k <= |a|
    ensures (a + b)[k..k + (|a| - k + |b|)] == a[k..] + b
  {
  }

  lemma RefusedComesOut(p: Pipe, data: seq<byte>, size: nat)
    requires PipeOk(p, size) && |p.log| - p.read + |data| + PAD > size
    ensures var n := |p.log| - p.read; AllOut(p, [Enqueue(data), Dequeue(n)], size) == p.log[p.read..]
  {
    var n := |p.log| - p.read;
    var p1 := Apply(p, Enqueue(data), size);
    assert p1 == p.(flushed := |p.log|);
    OutOfTwo(p, Enqueue(data), Dequeue(n), size);
  }

  lemma OutOfTwo(p: Pipe, a: Op, b: Op, size: nat)
    requires PipeOk(p, size) && !a.Dequeue?
    ensures AllOut(p, [a, b], size) == HandedOut(Apply(p, a, size), b, size)
  {
    hide Apply;
    assert [a, b][1..] == [b] && [b][1..] == [];
    assert AllOut(Apply(p, a, size), [b], size) == HandedOut(Apply(p, a, size), b, size);
  }

  lemma OutOfThree(p: Pipe, a: Op, b: Op, c: Op, size: nat)
    requires PipeOk(p, size) && !a.Dequeue? && !b.Dequeue?
    ensures AllOut(p, [a, b, c], size) == HandedOut(Apply(Apply(p, a, size), b, size), c, size)
  {
    hide Apply;
    assert [a, b, c][1..] == [b, c];
    OutOfTwo(Apply(p, a, size), b, c, size);
  }

  /* ---------- offsets ---------- */

  /** The offset that stands for count `x`: 0 before any byte, then 1 to `size`. */
  function Image(x: nat, size: nat): (o: nat)
    requires size > 0
    ensures o <= size
  {
    if x == 0 then 0 else Pos(x - 1, size) + 1
  }

  /** Bytes between two offsets; the offsets being equal means none (`inner`) or
      as many as fit. */
  function NBytes(size: nat, from: nat, to: nat, inner: bool): int {
    if from < to then to - from
    else if from > to then size - from + to
    else if inner then 0 else size - PAD
  }

  lemma ImageCell(x: nat, size: nat)
    requires size > 0
    ensures Image(x, size) == Pos(x, size) || (Image(x, size) == size && Pos(x, size) == 0)
  {
    if x == 0 {
      PosSmall(0, size);
    } else {
      PosStep(x - 1, 1, size);
    }
  }

  /** Moving an offset on by at most the ring's size, wrapping past the end. */
  lemma ImageAdvance(x: nat, k: nat, size: nat)
    requires size > 0 && k <= size
    ensures Image(x + k, size) ==
            if Image(x, size) + k > size then Image(x, size) + k - size else Image(x, size) + k
  {
    if x > 0 {
      PosStep(x - 1, k, size);
    } else if k > 0 {
      PosSmall(k - 1, size);
    }
  }

  /** Between two counts at most a ring apart the byte count is exact, unless the
      ring is completely full after its first byte was read: then full looks like
      empty, which the padding rules out. */
  lemma NBytesExact(a: nat, b: nat, size: nat)
    requires size > 0 && a <= b <= a + size
    ensures NBytes(size, Image(a, size), Image(b, size), true) == b - a <==> b - a < size || a == 0
  {
    ImageAdvance(a, b - a, size);
  }

  /* ---------- copying in ---------- */

  /** Where the bytes come from: nowhere, if the caller has put them into the ring
      already, or the memory at a given address. */
  datatype Source = Null | Mem(at: nat -> byte)

  /** The byte that lands at distance `i` when `b1` bytes fit before the end of the
      ring and `b2` go to its start; the second copy reads from distance `b2`. */
  function Landed(at: nat -> byte, b1: nat, b2: nat, i: nat): byte {
    if i < b1 then at(i) else at(b2 + (i - b1))
  }

  predicate Faithful(at: nat -> byte, b1: nat, b2: nat) {
    forall i :: 0 <= i < b1 + b2 ==> Landed(at, b1, b2, i) == at(i)
  }

  /** A copy is faithful whatever the bytes are, if and only if it does not wrap
      or the end of the ring cuts it exactly in half. */
  lemma CopyFaithfulExactly(b1: nat, b2: nat)
    ensures (forall at: nat -> byte :: Faithful(at, b1, b2)) <==> b2 == 0 || b1 == b2
  {
    if b2 != 0 && b1 != b2 {
      var at := (k: nat) => if k == b1 then 1 as byte else 0;
      assert Landed(at, b1, b2, b1) == 0 && at(b1) == 1;
      assert !Faithful(at, b1, b2);
    }
  }

  /** The `n` cells from stream position `x` on. */
  ghost function Cells(buf: seq<byte>, x: nat, n: nat): (data: seq<byte>)
    requires |buf| > 0
    ensures |data| == n
  {
    seq(n, i requires 0 <= i < n => buf[Pos(x + i, |buf|)])
  }

  ghost function LandedBytes(at: nat -> byte, b1: nat, sz: nat): (data: seq<byte>)
    requires b1 <= sz
    ensures |data| == sz
  {
    seq(sz, i requires 0 <= i < sz => Landed(at, b1, sz - b1, i))
  }

  ghost function BytesOf(at: nat -> byte, sz: nat): (data: seq<byte>)
    ensures |data| == sz && forall i :: 0 <= i < sz ==> data[i] == at(i)
  {
    seq(sz, i requires 0 <= i < sz => at(i))
  }

  lemma LandedIsFaithful(at: nat -> byte, b1: nat, sz: nat)
    requires b1 <= sz
    ensures LandedBytes(at, b1, sz) == BytesOf(at, sz) <==> Faithful(at, b1, sz - b1)
  {
    var data := LandedBytes(at, b1, sz);
    if data == BytesOf(at, sz) {
      assert forall i :: 0 <= i < sz ==> Landed(at, b1, sz - b1, i) == data[i];
    }
  }

  lemma CellsAt(buf: seq<byte>, base: nat, sz: nat, x: nat)
    requires |buf| > 0
    ensures base <= x < base + sz ==> Cells(buf, base, sz)[x - base] == buf[Pos(x, |buf|)]
  {
    if base <= x < base + sz {
      assert base + (x - base) == x;
    }
  }

  /** Which cell position `x` is in, seen from the write offset. */
  lemma LandedAt(at: nat -> byte, base: nat, sz: nat, size: nat, read: nat, x: nat)
    requires size > 0 && read <= base && base + sz <= read + size && read <= x < base + sz
    ensures var off := Image(base, size);
            var b1 := if off + sz > size then size - off else sz;
            var p, b2 := Pos(x, size), sz - b1;
            if x >= base
            then LandedBytes(at, b1, sz)[x - base] == (if off <= p < off + b1 then at(p - off) else at(b2 + p))
                 && (off <= p < off + b1 || p < b2)
            else b2 <= p < off || off + b1 <= p < size
  {
    hide Pos, Image;
    ImageCell(base, size);
    if x >= base {
      PosStep(base, x - base, size);
    } else {
      PosStep(x, base - x, size);
    }
  }

  class Queue {
    const size: nat
    const buffer: array<byte>
    var flushOffset: nat
    var rxOffset: nat
    var txOffset: nat

    /** The stream this ring stands for. */
    ghost var pipe: Pipe

    ghost predicate Valid()
      reads this, buffer
    {
      && PAD <= size < 0x8000_0000 && buffer.Length == size
      && PipeOk(pipe, size)
      && rxOffset == Image(pipe.read, size)
      && flushOffset == Image(pipe.flushed, size)
      && txOffset == Image(|pipe.log|, size)
      && forall x :: pipe.read <= x < |pipe.log| ==> buffer[Pos(x, size)] == pipe.log[x]
    }

    /** A ring of any size is set up, but it can be used only from eight bytes on. */
    constructor (size: nat)
      requires 0 < size < 0x8000_0000
      ensures (Valid() <==> size >= PAD) && fresh(buffer) && this.size == size && pipe == Pipe([], 0, 0)
    {
      this.size := size;
      buffer := new byte[size](_ => 0);
      flushOffset, rxOffset, txOffset := 0, 0, 0;
      pipe := Pipe([], 0, 0);
    }

    function NBytesToFlush(): (n: int)
      requires Valid()
      reads this, buffer
      ensures n == |pipe.log| - pipe.flushed
    {
      NBytesExact(pipe.flushed, |pipe.log|, size);
      NBytes(size, flushOffset, txOffset, true)
    }

    function NBytesEnqueued(): (n: int)
      requires Valid()
      reads this, buffer
      ensures n == pipe.flushed - pipe.read
    {
      NBytesExact(pipe.read, pipe.flushed, size);
      NBytes(size, rxOffset, flushOffset, true)
    }

    function NBytesEmpty(): (n: int)
      requires Valid()
      reads this, buffer
      ensures n == Room(pipe, size)
    {
      NBytesExact(pipe.read, |pipe.log|, size);
      size - NBytes(size, rxOffset, txOffset, true) - PAD
    }

    /** Makes up to `toFlush` more bytes visible to the reader. */
    method NFlush(toFlush: nat) returns (flushed: nat)
      requires Valid()
      modifies this`flushOffset, this`pipe
      ensures Valid() && pipe == Flushed(old(pipe), toFlush, size)
      ensures flushed == pipe.flushed - old(pipe).flushed
    {
      var remaining := NBytesToFlush();
      flushed := if remaining > toFlush then toFlush else remaining;
      ImageAdvance(pipe.flushed, flushed, size);
      var newOffset := flushOffset + flushed;
      if newOffset > size {
        newOffset := newOffset - size;
      }
      flushOffset := newOffset;
      pipe := Flushed(pipe, toFlush, size);
    }

    /** Makes everything visible to the reader. */
    method FlushAll() returns (flushed: nat)
      requires Valid()
      modifies this`flushOffset, this`pipe
      ensures Valid() && pipe == old(pipe).(flushed := |old(pipe).log|)
      ensures flushed == |old(pipe).log| - old(pipe).flushed
    {
      var remaining := NBytesToFlush();
      flushed := NFlush(remaining);
    }

    /** The bytes that an enqueue of `sz` bytes from `src` adds to the stream. */
    ghost function Incoming(src: Source, sz: nat): (data: seq<byte>)
      requires Valid()
      reads this, buffer
      ensures |data| == sz
    {
      match src
      case Null => Cells(buffer[..], |pipe.log|, sz)
      case Mem(at) => LandedBytes(at, if txOffset + sz > size then size - txOffset else sz, sz)
    }

    /** An enqueue adds the caller's bytes to the stream, whatever they are, if and only
        if they do not wrap around the end of the ring or exactly half of them do. */
    lemma IncomingFaithfulExactly(sz: nat)
      requires Valid()
      ensures (forall at: nat -> byte :: Incoming(Mem(at), sz) == BytesOf(at, sz)) <==>
              txOffset + sz <= size || sz == 2 * (size - txOffset)
    {
      hide Pos, Image, Cells;
      var b1 := if txOffset + sz > size then size - txOffset else sz;
      CopyFaithfulExactly(b1, sz - b1);
      if b1 == sz || b1 == sz - b1 {
        forall at: nat -> byte ensures Incoming(Mem(at), sz) == BytesOf(at, sz) {
          assert Faithful(at, b1, sz - b1);
          LandedIsFaithful(at, b1, sz);
        }
      } else {
        var at: nat -> byte :| !Faithful(at, b1, sz - b1);
        LandedIsFaithful(at, b1, sz);
        assert Incoming(Mem(at), sz) != BytesOf(at, sz);
      }
    }

    /** Copies `b1` bytes behind the write offset and `b2` to the start of the ring. */
    method CopyIn(at: nat -> byte, b1: nat, b2: nat)
      requires buffer.Length == size && txOffset + b1 <= size && b2 <= txOffset
      modifies buffer
      ensures forall i :: txOffset <= i < txOffset + b1 ==> buffer[i] == at(i - txOffset)
      ensures forall i :: 0 <= i < b2 ==> buffer[i] == at(b2 + i)
      ensures forall i :: b2 <= i < txOffset || txOffset + b1 <= i < size ==> buffer[i] == old(buffer[i])
    {
      forall i | 0 <= i < b1 {
        buffer[txOffset + i] := at(i);
      }
      if b2 > 0 {
        forall i | 0 <= i < b2 {
          buffer[i] := at(b2 + i);
        }
      }
    }

    /** 0 if the bytes were accepted, 1 if there was no room for them. */
    method TryEnqueue(src: Source, sz: nat) returns (rc: int)
      requires Valid()
      modifies this, buffer
      ensures Valid()
      ensures pipe == Enqueued(old(pipe), old(Incoming(src, sz)), size)
      ensures rc == if sz <= Room(old(pipe), size) then 0 else 1
      ensures src.Null? || rc == 1 ==> unchanged(buffer)
    {
      hide Pos, Image, Cells, LandedBytes;
      ghost var data := Incoming(src, sz);
      var empty := NBytesEmpty();
      if sz > empty {
        var _ := FlushAll();
        return 1;
      }
      var b1 := if txOffset + sz > size then size - txOffset else sz;
      var b2 := sz - b1;
      ghost var buf, base := buffer[..], |pipe.log|;
      ImageAdvance(base, sz, size);
      if src.Mem? {
        CopyIn(src.at, b1, b2);
      }
      forall x | pipe.read <= x < base + sz
        ensures buffer[Pos(x, size)] == (pipe.log + data)[x]
      {
        if src.Null? {
          CellsAt(buf, base, sz, x);
        } else {
          LandedAt(src.at, base, sz, size, pipe.read, x);
        }
      }
      var newTxOffset := if b2 > 0 then b2 else txOffset + b1;
      txOffset := newTxOffset;
      pipe := Enqueued(pipe, data, size);
      rc := 0;
    }

    /** Reads `sz` bytes, and takes them off the queue if `dequeue`; 1 if fewer
        than `sz` are visible. */
    method TryRead(sz: nat, dequeue: bool) returns (rc: int, data: seq<byte>)
      requires Valid()
      modifies this`rxOffset, this`pipe
      ensures Valid()
      ensures rc == if CanRead(old(pipe), sz, size) then 0 else 1
      ensures rc == 0 ==> data == old(pipe).log[old(pipe).read..old(pipe).read + sz]
      ensures pipe == if dequeue then Dequeued(old(pipe), sz, size) else old(pipe)
    {
      hide Pos, Image;
      var bytes := NBytesEnqueued();
      if bytes < sz {
        return 1, [];
      }
      var b1 := if rxOffset + sz > size then size - rxOffset else sz;
      var b2 := sz - b1;
      ghost var base := pipe.read;
      ImageCell(base, size);
      ImageAdvance(base, sz, size);
      data := buffer[rxOffset..rxOffset + b1] + buffer[..b2];
      forall i | 0 <= i < sz ensures data[i] == pipe.log[base + i] {
        PosStep(base, i, size);
      }
      if dequeue {
        rxOffset := if b2 > 0 then b2 else rxOffset + b1;
        pipe := Dequeued(pipe, sz, size);
      }
      rc := 0;
    }
  }

  /** With fewer than 8 bytes the free-space count of an empty queue goes below
      zero, which as an unsigned number admits any enqueue. */
  lemma TooSmallExactly(size: nat)
    requires size > 0
    ensures size - NBytes(size, Image(0, size), Image(0, size), true) - PAD < 0 <==> size < PAD
  {
  }
}
