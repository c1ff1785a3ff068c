/**
 The receive half of the fast path for one flow: segments are trimmed, written
 into the receive ring in place, and delivered to the application. Proved to
 follow `Reassembly` and to deliver exactly a prefix of the sender's stream.
 */
module FastFlow {
  import opened Basics
  import opened RingIndex
  import opened Trim
  import opened Reassembly
  import Ring = RdmaQueue

  datatype Packet = Packet(seqno: nat, payload: seq<byte>, fin: bool)

  class Flow {
    const rx: Ring.Queue
    var rxNextSeq: nat
    var oooStart: nat
    var oooLen: nat
    var rxFin: bool

    /** The stream the sender cuts its segments from and the sequence number of
        its first byte. */
    ghost const stream: seq<byte>
    ghost const isn: nat
    ghost var rcv: Rcv

    ghost function Cap(): nat {
      if rx.size < Ring.PAD then 0 else rx.size - Ring.PAD
    }

    /** The ring and the counters follow `rcv`, with `flushed` bytes visible. */
    ghost predicate Linked(flushed: nat)
      reads this, rx, rx.buffer
    {
      && rx.Valid() && rcv.next <= |stream|
      && rx.pipe == Ring.Pipe(stream[..rcv.next], rcv.read, flushed)
      && rxNextSeq == Seq(isn + NextPos(rcv))
      && oooLen == rcv.oooLen && rxFin == rcv.fin
      && (oooLen > 0 ==> oooStart == Seq(isn + rcv.oooAt))
      && HeldBytes(rx.buffer[..], stream, rcv)
    }

    ghost predicate Tied(flushed: nat)
      reads this, rx, rx.buffer
    {
      Linked(flushed) && RcvInv(rcv, Cap(), |stream|)
    }

    ghost predicate Valid()
      reads this, rx, rx.buffer
    {
      Tied(rcv.next)
    }

    /** A new flow in a slot of the flow table; the out-of-order interval is what the
        slot was left with. */
    constructor (rx: Ring.Queue, remoteSeq: nat, slotOooStart: nat, slotOooLen: nat, ghost stream: seq<byte>)
      requires rx.Valid() && rx.pipe == Ring.Pipe([], 0, 0) && remoteSeq < SEQ_MOD && slotOooStart < SEQ_MOD
      ensures this.rx == rx && this.stream == stream && isn == remoteSeq
      ensures rxNextSeq == remoteSeq && oooStart == slotOooStart && oooLen == slotOooLen && !rxFin
      ensures rcv == Rcv(0, 0, Ahead(slotOooStart, remoteSeq), slotOooLen, false)
      ensures oooStart == Seq(isn + rcv.oooAt) && (slotOooLen == 0 ==> Valid())
    {
      this.rx := rx;
      rxNextSeq := remoteSeq;
      oooStart, oooLen, rxFin := slotOooStart, slotOooLen, false;
      this.stream := stream;
      isn := remoteSeq;
      rcv := Rcv(0, 0, Ahead(slotOooStart, remoteSeq), slotOooLen, false);
    }

    /** Writes `data` into free cells of the ring from offset `pos` on, wrapping
        at its end. */
    method RxWrite(pos: nat, data: seq<byte>, ghost at: nat)
      requires rx.Valid() && |rx.pipe.log| <= at && at + |data| <= rx.pipe.read + rx.size
      requires pos == Pos(at, rx.size) || (pos == rx.size && Pos(at, rx.size) == 0)
      modifies rx.buffer
      ensures rx.Valid()
      ensures WrittenAt(old(rx.buffer[..]), rx.buffer[..], at, data)
    {
      hide Pos, Ring.Image;
      var size := rx.size;
      var buffer := rx.buffer;
      if pos + |data| <= size {
        forall i | 0 <= i < |data| {
          buffer[pos + i] := data[i];
        }
      } else {
        var part := size - pos;
        forall i | 0 <= i < part {
          buffer[pos + i] := data[i];
        }
        forall i | 0 <= i < |data| - part {
          buffer[i] := data[part + i];
        }
      }
      WrittenCells(old(buffer[..]), buffer[..], pos, at, data);
      assert forall x :: rx.pipe.read <= x < |rx.pipe.log| ==> Beside(x, at, |data|, size);
    }

    /** Writes the bytes of sequence number `seqno` to their place in the ring. */
    method RxSeqWrite(seqno: nat, data: seq<byte>, ghost at: nat)
      requires Tied(rcv.next) && !rcv.fin && seqno == Seq(isn + at)
      requires rcv.next <= at && at + |data| <= rcv.read + Cap()
      modifies rx.buffer
      ensures rx.Valid()
      ensures WrittenAt(old(rx.buffer[..]), rx.buffer[..], at, data)
    {
      hide Pos, Ring.Image, Seq, HeldBytes, WrittenAt;
      SeqSub(isn + rcv.next, at - rcv.next);
      Ring.ImageCell(rcv.next, rx.size);
      PosStep(rcv.next, at - rcv.next, rx.size);
      var diff := Sub32(seqno, rxNextSeq);
      var pos := rx.txOffset + diff;
      if pos >= rx.size {
        pos := pos - rx.size;
      }
      RxWrite(pos, data, at);
    }

    /** Holds a segment that starts beyond the next expected byte, if possible. */
    method Hold(seqno: nat, data: seq<byte>, ghost at: nat)
      requires Valid() && seqno == Seq(isn + at)
      requires NextPos(rcv) < at && at + |data| <= rcv.read + Cap()
      requires at + |data| <= |stream| && data == stream[at..at + |data|]
      modifies this`oooStart, this`oooLen, this`rcv, rx.buffer
      ensures Valid() && rcv == Held(old(rcv), at, |data|)
    {
      hide Pos, Ring.Image, Seq, HeldBytes, WrittenAt;
      if |data| == 0 {
        return;
      }
      ghost var buf, r := rx.buffer[..], rcv;
      SeqAdd(isn + at, |data|);
      SeqAdd(isn + r.oooAt, r.oooLen);
      if oooLen > 0 {
        SeqDistinct(isn + at + |data|, isn + r.oooAt);
        SeqDistinct(isn + r.oooAt + r.oooLen, isn + at);
      }
      if oooLen == 0 {
        RxSeqWrite(seqno, data, at);
        oooStart, oooLen := seqno, |data|;
        HeldAfterWrite(buf, rx.buffer[..], stream, r, at, data, Cap());
      } else if Seq(seqno + |data|) == oooStart {
        RxSeqWrite(seqno, data, at);
        oooStart, oooLen := seqno, oooLen + |data|;
        HeldAfterWrite(buf, rx.buffer[..], stream, r, at, data, Cap());
      } else if Seq(oooStart + oooLen) == seqno {
        RxSeqWrite(seqno, data, at);
        oooLen := oooLen + |data|;
        HeldAfterWrite(buf, rx.buffer[..], stream, r, at, data, Cap());
      }
      rcv := Held(rcv, at, |data|);
    }

    /** Takes the next `n` bytes, which are in the ring already, into the queue. */
    method EnqueueNext(n: nat, ghost flushed: nat)
      requires Linked(flushed) && !rcv.fin
      requires rcv.read <= rcv.next && rcv.next + n <= rcv.read + Cap() && rcv.next + n <= |stream|
      requires Ring.Cells(rx.buffer[..], rcv.next, n) == stream[rcv.next..rcv.next + n]
      modifies this`rxNextSeq, this`rcv, rx, rx.buffer
      ensures Linked(flushed) && rcv == old(rcv).(next := old(rcv).next + n)
      ensures unchanged(rx.buffer)
    {
      hide Pos, Ring.Image, Seq, HeldBytes, Ring.Cells;
      assert stream[..rcv.next] + stream[rcv.next..rcv.next + n] == stream[..rcv.next + n];
      ghost var buf := rx.buffer[..];
      var rv := rx.TryEnqueue(Ring.Null, n);
      assert rx.buffer[..] == buf;
      SeqAdd(isn + rcv.next, n);
      rxNextSeq := Seq(rxNextSeq + n);
      HeldShrinks(rx.buffer[..], stream, rcv, rcv.(next := rcv.next + n));
      rcv := rcv.(next := rcv.next + n);
    }

    /** Delivers all that is held, now that it starts at the next byte. */
    method DeliverHeld(ghost flushed: nat)
      requires Linked(flushed) && !rcv.fin && oooLen > 0 && rcv.oooAt == rcv.next
      requires rcv.read <= rcv.next && rcv.next + oooLen <= rcv.read + Cap()
      modifies this, rx, rx.buffer
      ensures Linked(flushed)
      ensures rcv == old(rcv).(next := old(rcv).next + old(oooLen), oooLen := 0)
    {
      hide Pos, Ring.Image, Seq, HeldBytes;
      ghost var buf := rx.buffer[..];
      HeldIsNext(buf, stream, rcv);
      EnqueueNext(oooLen, flushed);
      assert rx.buffer[..] == buf;
      HeldShrinks(buf, stream, rcv, rcv.(oooLen := 0));
      rcv := rcv.(oooLen := 0);
      oooLen := 0;
    }

    /** Cuts the held interval at both ends. */
    method CutHeld(start: nat, end: nat, ghost flushed: nat)
      requires Linked(flushed) && oooLen > 0 && start + end <= oooLen
      modifies this`oooStart, this`oooLen, this`rcv
      ensures Linked(flushed) && oooStart == Seq(isn + rcv.oooAt)
      ensures rcv == old(rcv).(oooAt := old(rcv).oooAt + start, oooLen := old(rcv).oooLen - (start + end))
    {
      hide Pos, Ring.Image, Seq, HeldBytes;
      ghost var r := rcv;
      SeqAdd(isn + r.oooAt, start);
      oooStart := Seq(oooStart + start);
      oooLen := oooLen - (start + end);
      rcv := rcv.(oooAt := rcv.oooAt + start, oooLen := rcv.oooLen - (start + end));
      HeldShrinks(rx.buffer[..], stream, r, rcv);
    }

    method DropHeld(ghost flushed: nat)
      requires Linked(flushed)
      modifies this`oooLen, this`rcv
      ensures Linked(flushed) && rcv == old(rcv).(oooLen := 0)
    {
      hide Pos, Ring.Image, Seq;
      oooLen := 0;
      rcv := rcv.(oooLen := 0);
    }

    /** After in-order bytes: drops, cuts or delivers what is held. */
    method CatchUp(ghost flushed: nat) returns (bump: nat)
      requires Linked(flushed) && Advanced(rcv, Cap(), |stream|)
      modifies this, rx, rx.buffer
      ensures Tied(flushed) && rcv == CaughtUp(old(rcv), Cap())
      ensures bump == rcv.next - old(rcv).next
    {
      hide Pos, Ring.Image, Seq, HeldBytes, TrimRxbuf, IdealCut, RcvInv;
      bump := 0;
      ghost var r := rcv;
      CaughtUpKeeps(rcv, Cap(), |stream|);
      if oooLen != 0 {
        var window := rx.NBytesEmpty();
        HeldCutIsIdeal(isn, r, Cap(), |stream|);
        match TrimRxbuf(oooStart, oooLen % U16, rxNextSeq, window) {
          case Drop =>
            DropHeld(flushed);
          case Keep(start, end) =>
            SeqDistinct(isn + r.oooAt + start, isn + r.next);
            CutHeld(start, end, flushed);
            if oooLen > 0 && oooStart == rxNextSeq {
              bump := oooLen;
              DeliverHeld(flushed);
            }
        }
      }
    }

    /** Delivers in-order bytes and whatever is held right behind them. */
    method Deliver(data: seq<byte>) returns (bump: nat)
      requires Valid() && !rcv.fin && 0 < |data| && rcv.next + |data| <= rcv.read + Cap()
      requires rcv.next + |data| <= |stream| && data == stream[rcv.next..rcv.next + |data|]
      modifies this, rx, rx.buffer
      ensures Tied(old(rcv).next) && rcv == Delivered(old(rcv), Cap(), |data|)
      ensures bump == rcv.next - old(rcv).next
    {
      hide Pos, Ring.Image, Seq, HeldBytes, WrittenAt, CaughtUp;
      ghost var r, buf := rcv, rx.buffer[..];
      Ring.ImageCell(r.next, rx.size);
      RxWrite(rx.txOffset, data, r.next);
      WrittenIsNext(buf, rx.buffer[..], stream, r, data, Cap());
      EnqueueNext(|data|, r.next);
      bump := CatchUp(r.next);
      bump := bump + |data|;
    }

    /** The in-order rest of a segment: its bytes, then the end of the stream. */
    method InOrder(p: Packet, data: seq<byte>, ghost at: nat, acked: bool) returns (bump: nat, ack: bool)
      requires Valid() && FromStream(at, |p.payload|, p.fin, |stream|)
      requires p.seqno == Seq(isn + at) && -(SEQ_HALF as int) <= at - NextPos(rcv) <= SEQ_HALF
      requires rcv.fin ==> data == []
      requires rcv.next + |data| <= rcv.read + Cap()
      requires rcv.next + |data| <= |stream| && data == stream[rcv.next..rcv.next + |data|]
      modifies this, rx, rx.buffer
      ensures Valid()
      ensures rcv == FinTaken(Delivered(old(rcv), Cap(), |data|), at + |p.payload|, p.fin)
      ensures bump == rcv.next - old(rcv).next
      ensures ack <==> acked || |data| > 0 || rcv.fin != old(rcv).fin
    {
      hide Pos, Ring.Image, Seq, HeldBytes, CaughtUp;
      bump, ack := 0, acked;
      if |data| > 0 {
        bump := Deliver(data);
        ack := true;
      }
      var finBump := TakeFin(p, at, old(rcv).next);
      ack := ack || finBump;
      if bump != 0 || finBump {
        var flushed := rx.NFlush(bump);
      }
    }

    /** Takes the end of the stream if the segment carries it and it is next. */
    method TakeFin(p: Packet, ghost at: nat, ghost flushed: nat) returns (finBump: bool)
      requires Tied(flushed) && FromStream(at, |p.payload|, p.fin, |stream|)
      requires p.seqno == Seq(isn + at)
      requires -(SEQ_MOD as int) < at + |p.payload| - rcv.next < SEQ_MOD
      modifies this`rxFin, this`rxNextSeq, this`rcv
      ensures Tied(flushed) && rcv == FinTaken(old(rcv), at + |p.payload|, p.fin)
      ensures finBump <==> rcv.fin != old(rcv).fin
    {
      hide Pos, Ring.Image, Seq, HeldBytes;
      finBump := false;
      if p.fin && !rxFin {
        SeqAdd(isn + at, |p.payload|);
        SeqDistinct(isn + at + |p.payload|, isn + rcv.next);
        SeqAdd(isn + rcv.next, 1);
        if rxNextSeq == Seq(p.seqno + |p.payload|) && oooLen == 0 {
          finBump := true;
          rxFin := true;
          rxNextSeq := Seq(rxNextSeq + 1);
          HeldShrinks(rx.buffer[..], stream, rcv, rcv.(fin := true));
          rcv := rcv.(fin := true);
        }
      }
    }

    /** What to cut from a segment, and where that leads. */
    method Cutting(p: Packet, ghost at: nat) returns (cut: Cut)
      requires Valid()
      requires FromStream(at, |p.payload|, p.fin, |stream|)
      requires p.payload == stream[at..at + |p.payload|] && p.seqno == Seq(isn + at)
      requires -(SEQ_HALF as int) <= at - NextPos(rcv) <= SEQ_HALF
      requires !EndMissed(p.seqno, |p.payload|, rxNextSeq, Window(rcv, Cap()))
      ensures LeadsOn(cut, isn, rcv, Cap(), stream, at, p)
    {
      hide Pos, Ring.Image, Seq, HeldBytes, EndMissed, TrimRxbuf, LeadsOn;
      var window := rx.NBytesEmpty();
      cut := TrimRxbuf(p.seqno, |p.payload|, rxNextSeq, window);
      Arrival(isn, rcv, Cap(), stream, at, p);
    }

    /** A segment arrives. `at` is the position of its first byte in the stream.
        Assumed of the network: the segment is cut from the stream and no more
        than half the sequence numbers away; and it is not one whose end the
        trimming misses. */
    method Receive(p: Packet, ghost at: nat) returns (bump: nat, ack: bool)
      requires Valid()
      requires FromStream(at, |p.payload|, p.fin, |stream|)
      requires p.payload == stream[at..at + |p.payload|] && p.seqno == Seq(isn + at)
      requires -(SEQ_HALF as int) <= at - NextPos(rcv) <= SEQ_HALF
      requires !EndMissed(p.seqno, |p.payload|, rxNextSeq, Window(rcv, Cap()))
      modifies this, rx, rx.buffer
      ensures Valid()
      ensures rcv == OnSegment(old(rcv), Cap(), at, |p.payload|, p.fin)
      ensures bump == rcv.next - old(rcv).next
      ensures ack <==> |p.payload| > 0 || at != NextPos(old(rcv)) || rcv.fin != old(rcv).fin
    {
      hide Pos, Ring.Image, Seq, HeldBytes, EndMissed, OnSegment, Held, Delivered, FinTaken, RcvInv, Ring.Queue.Valid;
      bump, ack := 0, |p.payload| > 0;
      var cut := Cutting(p, at);
      match cut {
        case Drop =>
          ack := true;
        case Keep(start, end) =>
          var data := p.payload[start..|p.payload| - end];
          var seqno := Seq(p.seqno + start);
          if seqno != rxNextSeq {
            ack := true;
            Hold(seqno, data, at + start);
            return;
          }
          if rxFin && |data| > 0 {
            return;
          }
          bump, ack := InOrder(p, data, at, ack);
      }
    }

    /** The application reads `n` bytes, if that many have been delivered. */
    method AppRead(n: nat) returns (rc: int, data: seq<byte>)
      requires Valid()
      modifies rx, this`rcv
      ensures Valid() && rcv == OnRead(old(rcv), n)
      ensures rc == 0 <==> n <= old(rcv).next - old(rcv).read
      ensures rc == 0 ==> data == stream[old(rcv).read..old(rcv).read + n]
      ensures rcv.read == (if rc == 0 then old(rcv).read + n else old(rcv).read)
    {
      hide Pos, Ring.Image, Seq, HeldBytes;
      rc, data := rx.TryRead(n, true);
      if rc == 0 {
        SliceOfSlice(stream, 0, rcv.next, rcv.read, rcv.read + n);
      }
      HeldShrinks(rx.buffer[..], stream, rcv, OnRead(rcv, n));
      rcv := OnRead(rcv, n);
    }
  }

  /** Position `x` is less than a ring away from `at`, outside the `n` positions. */
  predicate Beside(x: nat, at: nat, n: nat, size: nat) {
    at + n - size <= x < at || at + n <= x < at + size
  }

  /** `data` is in the ring from position `at` on; every other cell is as before. */
  ghost predicate WrittenAt(buf: seq<byte>, buf': seq<byte>, at: nat, data: seq<byte>)
    requires |buf| > 0
  {
    && |buf'| == |buf|
    && (forall x :: at <= x < at + |data| ==> buf'[Pos(x, |buf|)] == data[x - at])
    && (forall x: nat :: Beside(x, at, |data|, |buf|) ==> buf'[Pos(x, |buf|)] == buf[Pos(x, |buf|)])
  }

  lemma WrittenCells(buf: seq<byte>, buf': seq<byte>, pos: nat, at: nat, data: seq<byte>)
    requires |buf| == |buf'| && 0 < |buf| && |data| <= |buf|
    requires pos == Pos(at, |buf|) || (pos == |buf| && Pos(at, |buf|) == 0)
    requires forall c :: 0 <= c < |buf| ==>
               buf'[c] == if pos <= c < pos + |data| then data[c - pos]
                          else if c + |buf| < pos + |data| then data[c + |buf| - pos] else buf[c]
    ensures WrittenAt(buf, buf', at, data)
  {
    hide Pos;
    var size := |buf|;
    forall x | at <= x < at + |data| ensures buf'[Pos(x, size)] == data[x - at] {
      PosStep(at, x - at, size);
    }
    forall x: nat | Beside(x, at, |data|, size) ensures buf'[Pos(x, size)] == buf[Pos(x, size)] {
      if x < at {
        PosStep(x, at - x, size);
      } else {
        PosStep(at, x - at, size);
      }
    }
  }

  /** What is held out of order is in the ring and is the sender's. */
  ghost predicate HeldBytes(buf: seq<byte>, stream: seq<byte>, r: Rcv) {
    r.oooLen > 0 ==>
      && |buf| > 0 && 0 <= r.oooAt && r.oooAt + r.oooLen <= |stream|
      && forall x :: r.oooAt <= x < r.oooAt + r.oooLen ==> buf[Pos(x, |buf|)] == stream[x]
  }

  lemma HeldAfterWrite(buf: seq<byte>, buf': seq<byte>, stream: seq<byte>, r: Rcv, at: nat, data: seq<byte>, cap: nat)
    requires |buf| == cap + Ring.PAD && RcvInv(r, cap, |stream|) && HeldBytes(buf, stream, r)
    requires r.next < at && at + |data| <= r.read + cap && at + |data| <= |stream| && data == stream[at..at + |data|]
    requires WrittenAt(buf, buf', at, data) && |data| > 0
    requires Held(r, at, |data|) != r
    ensures HeldBytes(buf', stream, Held(r, at, |data|))
  {
    hide Pos;
    var r' := Held(r, at, |data|);
    forall x | r'.oooAt <= x < r'.oooAt + r'.oooLen ensures buf'[Pos(x, |buf'|)] == stream[x] {
      if !(at <= x < at + |data|) {
        assert Beside(x, at, |data|, |buf|);
      }
    }
  }

  lemma HeldShrinks(buf: seq<byte>, stream: seq<byte>, r: Rcv, r': Rcv)
    requires HeldBytes(buf, stream, r)
    requires r'.oooLen > 0 ==> r.oooAt <= r'.oooAt && r'.oooAt + r'.oooLen <= r.oooAt + r.oooLen
    ensures HeldBytes(buf, stream, r')
  {
  }

  /** Held bytes that start at the next position are the next bytes of the stream. */
  lemma HeldIsNext(buf: seq<byte>, stream: seq<byte>, r: Rcv)
    requires HeldBytes(buf, stream, r) && |buf| > 0 && r.oooLen > 0 && r.oooAt == r.next
    ensures r.next + r.oooLen <= |stream|
    ensures Ring.Cells(buf, r.next, r.oooLen) == stream[r.next..r.next + r.oooLen]
  {
    hide Pos;
  }

  /** What is held lies in the window, so the code cuts it exactly. */
  lemma HeldCutIsIdeal(isn: nat, r: Rcv, cap: nat, total: nat)
    requires Advanced(r, cap, total) && r.oooLen > 0 && cap < SEQ_HALF
    ensures TrimRxbuf(Seq(isn + r.oooAt), r.oooLen % U16, Seq(isn + r.next), Window(r, cap))
         == IdealCut(r.oooAt - r.next, r.oooLen % U16, Window(r, cap))
  {
    hide Seq, TrimRxbuf, EndMissed, IdealCut;
    SeqAdd(isn + r.next, r.oooAt - r.next);
    InsideNotMissed(Seq(isn + r.next), Window(r, cap), r.oooAt - r.next, r.oooLen % U16);
    TrimIdealExactly(Seq(isn + r.next), Window(r, cap), r.oooAt - r.next, r.oooLen % U16);
  }

  /** Bytes written at the next position are the next bytes of the stream, and
      leave what is held alone or agree with it. */
  lemma WrittenIsNext(buf: seq<byte>, buf': seq<byte>, stream: seq<byte>, r: Rcv, data: seq<byte>, cap: nat)
    requires |buf| == cap + Ring.PAD && RcvInv(r, cap, |stream|) && HeldBytes(buf, stream, r)
    requires WrittenAt(buf, buf', r.next, data)
    requires r.next + |data| <= r.read + cap && r.next + |data| <= |stream|
    requires data == stream[r.next..r.next + |data|]
    ensures Ring.Cells(buf', r.next, |data|) == data
    ensures HeldBytes(buf', stream, r)
  {
    hide Pos;
    if r.oooLen > 0 {
      forall x | r.oooAt <= x < r.oooAt + r.oooLen ensures buf'[Pos(x, |buf'|)] == stream[x] {
        assert x < r.next + |data| || Beside(x, r.next, |data|, |buf|);
      }
    }
  }

  lemma SegmentCutIsIdeal(isn: nat, r: Rcv, cap: nat, at: nat, len: nat)
    requires r.read <= r.next <= r.read + cap && cap < SEQ_HALF && len < U16
    requires -(SEQ_HALF as int) <= at - NextPos(r) <= SEQ_HALF
    requires !EndMissed(Seq(isn + at), len, Seq(isn + NextPos(r)), Window(r, cap))
    ensures TrimRxbuf(Seq(isn + at), len, Seq(isn + NextPos(r)), Window(r, cap))
         == IdealCut(at - NextPos(r), len, Window(r, cap))
  {
    hide Seq, TrimRxbuf, EndMissed, IdealCut;
    SeqAdd(isn + NextPos(r), at - NextPos(r));
    TrimIdealExactly(Seq(isn + NextPos(r)), Window(r, cap), at - NextPos(r), len);
  }

  /** The cut leaves a stretch of the stream; if it is dropped, next or ahead, then the
      receiver ignores it, delivers it or holds it. */
  ghost predicate LeadsOn(cut: Cut, isn: nat, r: Rcv, cap: nat, stream: seq<byte>, at: nat, p: Packet)
    requires r.read <= r.next <= r.read + cap && at + |p.payload| <= |stream|
  {
    var len, r' := |p.payload|, OnSegment(r, cap, at, |p.payload|, p.fin);
    match cut
    case Drop => r' == r && (len > 0 || at != NextPos(r))
    case Keep(start, end) =>
      && start + end <= len
      && var n := len - (start + end);
         && p.payload[start..len - end] == stream[at + start..at + start + n]
         && Seq(p.seqno + start) == Seq(isn + (at + start))
         && if Seq(p.seqno + start) == Seq(isn + NextPos(r))
            then && at + start == NextPos(r) && (n > 0 ==> len > 0) && (r.fin ==> n == 0)
                 && r.next + n <= r.read + cap && (len == 0 ==> at == NextPos(r))
                 && r' == FinTaken(Delivered(r, cap, n), at + len, p.fin)
            else && NextPos(r) < at + start && at + start + n <= r.read + cap && (len > 0 || at != NextPos(r))
                 && r' == Held(r, at + start, n) && r'.fin == r.fin && r'.next == r.next
  }

  lemma Arrival(isn: nat, r: Rcv, cap: nat, stream: seq<byte>, at: nat, p: Packet)
    requires RcvInv(r, cap, |stream|) && cap < SEQ_HALF && FromStream(at, |p.payload|, p.fin, |stream|)
    requires p.payload == stream[at..at + |p.payload|] && p.seqno == Seq(isn + at)
    requires -(SEQ_HALF as int) <= at - NextPos(r) <= SEQ_HALF
    requires !EndMissed(p.seqno, |p.payload|, Seq(isn + NextPos(r)), Window(r, cap))
    ensures LeadsOn(TrimRxbuf(p.seqno, |p.payload|, Seq(isn + NextPos(r)), Window(r, cap)), isn, r, cap, stream, at, p)
  {
    hide Seq, TrimRxbuf, EndMissed, IdealCut, OnSegment, LeadsOn;
    var len := |p.payload|;
    SegmentCutIsIdeal(isn, r, cap, at, len);
    match IdealCut(at - NextPos(r), len, Window(r, cap))
    case Drop => ArrivalDropped(isn, r, cap, stream, at, p);
    case Keep(start, end) => ArrivalKept(isn, r, cap, stream, at, p, start, end);
  }

  lemma ArrivalDropped(isn: nat, r: Rcv, cap: nat, stream: seq<byte>, at: nat, p: Packet)
    requires RcvInv(r, cap, |stream|) && FromStream(at, |p.payload|, p.fin, |stream|)
    requires IdealCut(at - NextPos(r), |p.payload|, Window(r, cap)) == Drop
    ensures LeadsOn(Drop, isn, r, cap, stream, at, p)
  {
    hide Seq, IdealCut, OnSegment, Delivered, FinTaken, Held;
    OnSegmentCases(r, cap, |stream|, at, |p.payload|, p.fin);
  }

  lemma ArrivalKept(isn: nat, r: Rcv, cap: nat, stream: seq<byte>, at: nat, p: Packet, start: nat, end: nat)
    requires RcvInv(r, cap, |stream|) && cap < SEQ_HALF && FromStream(at, |p.payload|, p.fin, |stream|)
    requires p.payload == stream[at..at + |p.payload|] && p.seqno == Seq(isn + at)
    requires -(SEQ_HALF as int) <= at - NextPos(r) <= SEQ_HALF
    requires IdealCut(at - NextPos(r), |p.payload|, Window(r, cap)) == Keep(start, end)
    ensures LeadsOn(Keep(start, end), isn, r, cap, stream, at, p)
  {
    hide Seq, IdealCut, OnSegment, Delivered, FinTaken;
    var len := |p.payload|;
    OnSegmentCases(r, cap, |stream|, at, len, p.fin);
    SliceOfSlice(stream, at, at + len, start, len - end);
    SeqAdd(isn + at, start);
    SeqDistinct(isn + at + start, isn + NextPos(r));
  }

  lemma SliceOfSlice(s: seq<byte>, a: nat, b: nat, i: nat, j: nat)
    requires a <= b <= |s| && i <= j <= b - a
    ensures s[a..b][i..j] == s[a + i..a + j]
  {
    assert forall k :: 0 <= k < j - i ==> s[a..b][i..j][k] == s[a..b][i + k] == s[a + i..a + j][k];
  }
}
