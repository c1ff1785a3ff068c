/**
 Cutting a received segment to the part that fits the free receive buffer, in
 32-bit sequence numbers that wrap (sections 3.4 and 3.10.7.4 of RFC 9293).
 */
module Trim {
  import opened Basics
  const SEQ_MOD: nat := 0x1_0000_0000
  const SEQ_HALF: nat := 0x8000_0000

  function Seq(x: int): (s: nat)
    ensures s < SEQ_MOD
  {
    x % SEQ_MOD
  }

  /** Difference of two sequence numbers as an unsigned 32-bit number. */
  function Sub32(a: nat, b: nat): nat
    requires a < SEQ_MOD && b < SEQ_MOD
  {
    if a >= b then a - b else a + SEQ_MOD - b
  }

  /** How far sequence number `a` lies ahead of `b`, or behind it if that is nearer. */
  function Ahead(a: nat, b: nat): (d: int)
    requires a < SEQ_MOD && b < SEQ_MOD
    ensures -(SEQ_HALF as int) <= d < SEQ_HALF && Seq(b + d) == a
  {
    var d := Sub32(a, b);
    if d < SEQ_HALF then d else d - SEQ_MOD
  }

  /** Bytes to cut from the start and the end, or drop the whole segment. */
  datatype Cut = Drop | Keep(start: nat, end: nat)

  /** The four cases of the code: whether the segment and the free buffer each
      wrap around the end of the sequence numbers. */
  function TrimRxbuf(pktSeq: nat, pktBytes: nat, nextSeq: nat, window: nat): Cut
    requires pktSeq < SEQ_MOD && nextSeq < SEQ_MOD
  {
    var pA, pB := pktSeq, Seq(pktSeq + pktBytes);
    var sA, sB := nextSeq, Seq(nextSeq + window);
    if pA <= pB && sA <= sB then
      if pB < sA || pA > sB then Drop
      else Keep((if pA < sA then Sub32(sA, pA) else 0) % U16, (if pB > sB then Sub32(pB, sB) else 0) % U16)
    else if pA <= pB && sA > sB then
      if pA > sB && pB < sA then Drop
      else Keep((if pA > sB && pA < sA then Sub32(sA, pA) else 0) % U16,
                (if pB >= sB && pB < sA then Sub32(pB, sB) else 0) % U16)
    else if pA > pB && sA <= sB then
      if pA > sB && pB < sA then Drop
      else Keep((if sA <= pB || sA > pA then Sub32(sA, pA) else 0) % U16,
                (if pB > sB || sA >= pA then Sub32(pB, sB) else 0) % U16)
    else
      Keep((if pA < sA then Sub32(sA, pA) else 0) % U16, (if pB > sB then Sub32(pB, sB) else 0) % U16)
  }

  /** The cut that leaves exactly the bytes inside the window, for a segment that
      starts `d` positions after the window does. */
  function IdealCut(d: int, len: nat, window: nat): (c: Cut)
    ensures c.Keep? ==> c.start + c.end <= len
  {
    if d + len < 0 || d > window then Drop
    else Keep(if d < 0 then -d else 0, if d + len > window then d + len - window else 0)
  }

  /** The cut leaves a byte of the segment if and only if it is in the window, and
      drops the segment only if none of its bytes is. */
  lemma IdealCutIsIntersection(d: int, len: nat, window: nat, i: nat)
    requires i < len
    ensures match IdealCut(d, len, window)
            case Drop => !(0 <= d + i < window)
            case Keep(start, end) => start + end <= len && (start <= i < len - end <==> 0 <= d + i < window)
  {
  }

  /** The segment wraps around the end of the sequence numbers, while the window
      ends before it, at or after the start of the segment. */
  predicate EndMissed(pktSeq: nat, pktBytes: nat, nextSeq: nat, window: nat) {
    var pB, sB := Seq(pktSeq + pktBytes), Seq(nextSeq + window);
    pktSeq > pB && nextSeq < pktSeq <= sB
  }

  lemma SeqStep(a: nat, k: int)
    requires a < SEQ_MOD && -(SEQ_MOD as int) <= k <= SEQ_MOD
    ensures Seq(a + k) == if a + k < 0 then a + k + SEQ_MOD else if a + k < SEQ_MOD then a + k else a + k - SEQ_MOD
  {
  }

  /** The code computes the ideal cut, in all four cases, if and only if the
      segment is not one whose end it misses. */
  lemma TrimIdealExactly(nextSeq: nat, window: nat, d: int, len: nat)
    requires nextSeq < SEQ_MOD && window < SEQ_HALF && len < U16
    requires -(SEQ_HALF as int) <= d <= SEQ_HALF
    ensures TrimRxbuf(Seq(nextSeq + d), len, nextSeq, window) == IdealCut(d, len, window)
       <==> !EndMissed(Seq(nextSeq + d), len, nextSeq, window)
  {
    hide Seq;
    SeqStep(nextSeq, d);
    SeqStep(Seq(nextSeq + d), len);
    SeqStep(nextSeq, window);
  }

  /** A segment of 32 bytes that starts 16 before the wrap, with a window that ends
      8 before it: 8 bytes fit, and the code keeps all 32. */
  lemma EndMissedWitness()
    ensures EndMissed(0xFFFF_FFF0, 32, 0xFFFF_FF00, 248)
    ensures IdealCut(240, 32, 248) == Keep(0, 24)
    ensures TrimRxbuf(0xFFFF_FFF0, 32, 0xFFFF_FF00, 248) == Keep(0, 0)
  {
  }

  /** The end is never missed of what ends inside the window. */
  lemma InsideNotMissed(nextSeq: nat, window: nat, d: int, len: nat)
    requires nextSeq < SEQ_MOD && window < SEQ_HALF && len < U16
    requires -(SEQ_HALF as int) <= d && d + len <= window
    ensures !EndMissed(Seq(nextSeq + d), len, nextSeq, window)
  {
    hide Seq;
    SeqStep(nextSeq, d);
    SeqStep(Seq(nextSeq + d), len);
    SeqStep(nextSeq, window);
  }

  /** Positions less than 2^32 apart have different sequence numbers. */
  lemma SeqDistinct(a: int, b: int)
    requires -(SEQ_MOD as int) < a - b < SEQ_MOD
    ensures Seq(a) == Seq(b) <==> a == b
  {
  }

  /** Only the low-order bits matter when a sequence number is moved on. */
  lemma SeqAdd(a: int, k: int)
    ensures Seq(Seq(a) + k) == Seq(a + k)
  {
  }

  lemma SeqSub(a: int, k: nat)
    requires k < SEQ_MOD
    ensures Sub32(Seq(a + k), Seq(a)) == k
  {
  }
}
