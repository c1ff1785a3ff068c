/**
 The trace ring: a writer appends variable-length entries around a ring, and a
 reader walks it backward from the newest entry using the length stored behind
 each one.
 */
module Trace {
  import opened Basics
  import opened WrapTime
  import opened RingIndex

  const HEAD: nat := 16
  const TAIL: nat := 2

  /** Room for the longest entry that one call can write. */
  const MIN_RING: nat := HEAD + 2 * U16 + TAIL

  datatype Event = Event(ts: nat, order: nat, kind: nat, data: seq<byte>)

  predicate EventOk(e: Event) {
    e.ts < U64 && e.order < U32 && e.kind < U16 && |e.data| < U16
  }

  /* ---------- the encoding ---------- */

  function Pow256(n: nat): (p: nat)
    ensures p > 0
  {
    if n == 0 then 1 else 256 * Pow256(n - 1)
  }

  /** The low `n` bytes of `v`, least significant first. */
  function LittleEndian(v: nat, n: nat): (bs: seq<byte>)
    ensures |bs| == n
  {
    if n == 0 then [] else [(v % 256) as byte] + LittleEndian(v / 256, n - 1)
  }

  function Value(bs: seq<byte>): (v: nat)
    ensures v < Pow256(|bs|)
  {
    if bs == [] then 0 else bs[0] as nat + 256 * Value(bs[1..])
  }

  lemma {:induction false} ValueOfLittleEndian(v: nat, n: nat)
    requires v < Pow256(n)
    ensures Value(LittleEndian(v, n)) == v
  {
    if n > 0 {
      ValueOfLittleEndian(v / 256, n - 1);
      assert LittleEndian(v, n)[1..] == LittleEndian(v / 256, n - 1);
    }
  }

  lemma Widths()
    ensures Pow256(2) == U16 && Pow256(4) == U32 && Pow256(8) == U64
  {
    assert Pow256(1) == 256;
    assert Pow256(3) == 256 * Pow256(2);
    assert Pow256(5) == 256 * Pow256(4);
    assert Pow256(7) == 256 * Pow256(6);
  }

  function Head(e: Event): (bs: seq<byte>)
    ensures |bs| == HEAD
  {
    LittleEndian(e.ts, 8) + LittleEndian(e.order, 4) + LittleEndian(e.kind, 2) + LittleEndian(|e.data|, 2)
  }

  function Tail(e: Event): (bs: seq<byte>)
    ensures |bs| == TAIL
  {
    LittleEndian(|e.data|, 2)
  }

  function Size(e: Event): nat {
    HEAD + |e.data| + TAIL
  }

  function Entry(e: Event): (bs: seq<byte>)
    ensures |bs| == Size(e)
  {
    Head(e) + e.data + Tail(e)
  }

  function Bytes(es: seq<Event>): (bs: seq<byte>)
  {
    if es == [] then [] else Bytes(es[..|es| - 1]) + Entry(es[|es| - 1])
  }

  lemma HeadFields(e: Event)
    requires EventOk(e)
    ensures Value(Head(e)[..8]) == e.ts && Value(Head(e)[8..12]) == e.order
    ensures Value(Head(e)[12..14]) == e.kind && Value(Head(e)[14..]) == |e.data|
  {
    Widths();
    var (a, b) := (LittleEndian(e.ts, 8), LittleEndian(e.order, 4));
    var (c, d) := (LittleEndian(e.kind, 2), LittleEndian(|e.data|, 2));
    assert Head(e)[..8] == a && Head(e)[8..12] == b && Head(e)[12..14] == c && Head(e)[14..] == d;
    ValueOfLittleEndian(e.ts, 8);
    ValueOfLittleEndian(e.order, 4);
    ValueOfLittleEndian(e.kind, 2);
    ValueOfLittleEndian(|e.data|, 2);
  }

  /* ---------- stream positions in the ring ---------- */

  /** The `n` bytes at stream position `x`. */
  function ReadAt(mem: seq<byte>, x: nat, n: nat): (bs: seq<byte>)
    requires |mem| > 0
    ensures |bs| == n && forall j :: 0 <= j < n ==> bs[j] == mem[Pos(x + j, |mem|)]
  {
    seq(n, j requires 0 <= j < n => mem[Pos(x + j, |mem|)])
  }

  /** The ring still holds `log` from position `lo` on. */
  ghost predicate LogFrom(mem: seq<byte>, log: seq<byte>, lo: nat)
    requires |mem| > 0
  {
    forall x :: lo <= x < |log| ==> mem[Pos(x, |mem|)] == log[x]
  }

  ghost predicate SameOn(mem: seq<byte>, mem': seq<byte>, a: nat, b: nat)
    requires |mem| == |mem'| > 0
  {
    forall y :: a <= y < b ==> mem'[Pos(y, |mem|)] == mem[Pos(y, |mem|)]
  }

  /** `bs` stands in `log` at position `x`. */
  ghost predicate At(log: seq<byte>, x: nat, bs: seq<byte>) {
    x + |bs| <= |log| && forall j :: 0 <= j < |bs| ==> log[x + j] == bs[j]
  }

  lemma AtParts(log: seq<byte>, x: nat, a: seq<byte>, b: seq<byte>)
    requires At(log, x, a + b)
    ensures At(log, x, a) && At(log, x + |a|, b)
  {
    forall j | 0 <= j < |a| ensures log[x + j] == a[j] {
      assert (a + b)[j] == a[j];
    }
    forall j | 0 <= j < |b| ensures log[x + |a| + j] == b[j] {
      assert (a + b)[|a| + j] == b[j];
    }
  }

  lemma LogReads(mem: seq<byte>, log: seq<byte>, lo: nat, x: nat, bs: seq<byte>)
    requires |mem| > 0 && LogFrom(mem, log, lo) && lo <= x && At(log, x, bs)
    ensures ReadAt(mem, x, |bs|) == bs
  {
    hide Pos;
    forall j | 0 <= j < |bs| ensures ReadAt(mem, x, |bs|)[j] == bs[j] {
      assert mem[Pos(x + j, |mem|)] == log[x + j];
    }
  }

  /** Overwriting the cells of the next `n` positions costs the log its oldest
      bytes only. */
  lemma Overwritten(mem: seq<byte>, mem': seq<byte>, log: seq<byte>, lo: nat, lo': nat, n: nat)
    requires |mem| == |mem'| > 0 && n <= |mem| && LogFrom(mem, log, lo)
    requires SameOn(mem, mem', |log| + n, |log| + |mem|)
    requires lo <= lo' && |log| + n <= lo' + |mem|
    ensures LogFrom(mem', log, lo')
  {
    hide Pos;
    forall x: nat | lo' <= x < |log| ensures mem'[Pos(x, |mem|)] == log[x] {
      PosStep(x, |mem|, |mem|);
      assert Pos(x + |mem|, |mem|) == Pos(x, |mem|);
    }
  }

  lemma LogGrows(mem: seq<byte>, log: seq<byte>, lo: nat, bs: seq<byte>)
    requires |mem| > 0 && LogFrom(mem, log, lo) && ReadAt(mem, |log|, |bs|) == bs
    ensures LogFrom(mem, log + bs, lo)
  {
    hide Pos;
    forall x | lo <= x < |log + bs| ensures mem[Pos(x, |mem|)] == (log + bs)[x] {
      if x >= |log| {
        assert bs[x - |log|] == mem[Pos(|log| + (x - |log|), |mem|)];
      }
    }
  }

  /* ---------- reading backward ---------- */

  datatype Prev = Refused | Found(event: Event, pos: nat)

  function StepBack(pos: nat, n: nat, size: nat): int {
    if pos >= n then pos - n else size + pos - n
  }

  /** The entry that ends at cell `pos`, as the reader decodes it. */
  function PrevAt(mem: seq<byte>, pos: nat, cap: nat): (r: Prev)
    requires pos < |mem| && |mem| >= MIN_RING
    ensures r.Found? ==> r.pos < |mem| && r.event.kind != 0 && |r.event.data| <= cap
  {
    var tailPos := StepBack(pos, TAIL, |mem|);
    var n := Value(ReadAt(mem, tailPos, TAIL));
    if cap < n then Refused else
      var dataPos := StepBack(tailPos, n, |mem|);
      var headPos := StepBack(dataPos, HEAD, |mem|);
      var head := ReadAt(mem, headPos, HEAD);
      if Value(head[14..]) != n || Value(head[12..14]) == 0 then Refused
      else Found(Event(Value(head[..8]), Value(head[8..12]), Value(head[12..14]), ReadAt(mem, dataPos, n)), headPos)
  }

  function EndOf(es: seq<Event>): nat {
    |Bytes(es)|
  }

  predicate Readable(e: Event, cap: nat) {
    |e.data| <= cap && e.kind != 0
  }

  lemma BytesStep(es: seq<Event>, k: nat)
    requires 0 < k <= |es|
    ensures Bytes(es[..k]) == Bytes(es[..k - 1]) + Entry(es[k - 1])
  {
    hide Entry;
    assert es[..k][..k - 1] == es[..k - 1];
  }

  lemma {:induction false} EndsIn(es: seq<Event>, a: nat, b: nat)
    requires a <= b <= |es|
    ensures EndOf(es[..a]) <= EndOf(es[..b])
  {
    if a < b {
      EndsIn(es, a, b - 1);
      BytesStep(es, b);
    }
  }

  /** Entry `k - 1` stands behind the entries before it. */
  lemma {:induction false} EntryAt(es: seq<Event>, k: nat, n: nat)
    requires 0 < k <= n <= |es|
    ensures EndOf(es[..k]) == EndOf(es[..k - 1]) + Size(es[k - 1])
    ensures At(Bytes(es[..n]), EndOf(es[..k - 1]), Entry(es[k - 1]))
  {
    hide Entry, Bytes;
    BytesStep(es, k);
    if k < n {
      EntryAt(es, k, n - 1);
      BytesStep(es, n);
    }
  }

  /** Head, data and tail at stream position `x` decode to the event. */
  lemma Decodes(mem: seq<byte>, x: nat, e: Event, cap: nat)
    requires |mem| >= MIN_RING && EventOk(e)
    requires ReadAt(mem, x, HEAD) == Head(e) && ReadAt(mem, x + HEAD, |e.data|) == e.data
    requires ReadAt(mem, x + HEAD + |e.data|, TAIL) == Tail(e)
    ensures PrevAt(mem, Pos(x + Size(e), |mem|), cap)
         == if Readable(e, cap) then Found(e, Pos(x, |mem|)) else Refused
  {
    hide Pos, Head, Tail, Value, ReadAt;
    var y := x + HEAD + |e.data|;
    PosBack(y + TAIL, TAIL, |mem|);
    PosBack(y, |e.data|, |mem|);
    PosBack(x + HEAD, HEAD, |mem|);
    ReadCell(mem, y, TAIL);
    ReadCell(mem, x + HEAD, |e.data|);
    ReadCell(mem, x, HEAD);
    HeadFields(e);
    TailField(e);
  }

  /** Reading backward from the end of entry `k - 1` yields that entry, wherever
      it wraps, or is refused exactly when its type is zero or its data do not
      fit the reader's buffer. */
  lemma PrevReturns(mem: seq<byte>, es: seq<Event>, lo: nat, k: nat, cap: nat)
    requires |mem| >= MIN_RING && LogFrom(mem, Bytes(es), lo)
    requires 0 < k <= |es| && EndOf(es[..k - 1]) >= lo && EventOk(es[k - 1])
    ensures PrevAt(mem, Pos(EndOf(es[..k]), |mem|), cap)
         == if Readable(es[k - 1], cap) then Found(es[k - 1], Pos(EndOf(es[..k - 1]), |mem|)) else Refused
  {
    hide Pos, Bytes, Head, Tail, PrevAt, LogFrom, At, ReadAt;
    var x, e, log := EndOf(es[..k - 1]), es[k - 1], Bytes(es);
    EntryAt(es, k, |es|);
    assert es[..|es|] == es;
    AtParts(log, x, Head(e) + e.data, Tail(e));
    AtParts(log, x, Head(e), e.data);
    LogReads(mem, log, lo, x, Head(e));
    LogReads(mem, log, lo, x + HEAD, e.data);
    LogReads(mem, log, lo, x + HEAD + |e.data|, Tail(e));
    Decodes(mem, x, e, cap);
  }

  /** A read at a cell is a read at any stream position of that cell. */
  lemma ReadCell(mem: seq<byte>, x: nat, n: nat)
    requires n <= |mem| && |mem| > 0
    ensures ReadAt(mem, Pos(x, |mem|), n) == ReadAt(mem, x, n)
  {
    hide Pos;
    PosSmall(Pos(x, |mem|), |mem|);
    var p := ReadAt(mem, Pos(x, |mem|), n);
    forall j | 0 <= j < n ensures p[j] == ReadAt(mem, x, n)[j] {
      PosStep(x, j, |mem|);
      PosStep(Pos(x, |mem|), j, |mem|);
    }
  }

  lemma TailField(e: Event)
    requires EventOk(e)
    ensures Value(Tail(e)) == |e.data|
  {
    Widths();
    ValueOfLittleEndian(|e.data|, 2);
  }

  /** At most `k` reads backward, up to the first refusal. */
  function Back(mem: seq<byte>, pos: nat, cap: nat, k: nat): seq<Event>
    requires pos < |mem| && |mem| >= MIN_RING
    decreases k
  {
    if k == 0 then [] else
      match PrevAt(mem, pos, cap)
      case Refused => []
      case Found(e, before) => [e] + Back(mem, before, cap, k - 1)
  }

  /** How many of the `k` entries before `n`, newest first, the reader accepts
      before the first it refuses. */
  function Accepted(es: seq<Event>, n: nat, cap: nat, k: nat): (c: nat)
    requires k <= n <= |es|
    ensures c <= k
  {
    if k == 0 || !Readable(es[n - 1], cap) then 0 else 1 + Accepted(es, n - 1, cap, k - 1)
  }

  /** As long as the ring holds the `k` entries before `n`, reading backward
      returns them newest first, up to the first that the reader refuses. */
  lemma {:induction false} ReadsBack(mem: seq<byte>, es: seq<Event>, lo: nat, n: nat, cap: nat, k: nat)
    requires |mem| >= MIN_RING && LogFrom(mem, Bytes(es), lo)
    requires k <= n <= |es| && EndOf(es[..n - k]) >= lo
    requires forall i :: 0 <= i < |es| ==> EventOk(es[i])
    ensures var out := Back(mem, Pos(EndOf(es[..n]), |mem|), cap, k);
            && |out| == Accepted(es, n, cap, k)
            && forall i :: 0 <= i < |out| ==> out[i] == es[n - 1 - i]
  {
    hide Pos, Bytes, PrevAt, LogFrom, EndOf, EventOk, Readable;
    if k > 0 {
      EndsIn(es, n - k, n - 1);
      PrevReturns(mem, es, lo, n, cap);
      if Readable(es[n - 1], cap) {
        ReadsBack(mem, es, lo, n - 1, cap, k - 1);
      }
    }
  }

  predicate ZeroFrom(mem: seq<byte>, high: nat) {
    forall i :: high <= i < |mem| ==> mem[i] == 0
  }

  /** In front of the first entry the ring is still zero, which reads as type 0. */
  lemma StopsAtStart(mem: seq<byte>, cap: nat)
    requires |mem| >= MIN_RING && ZeroFrom(mem, |mem| - HEAD - TAIL)
    ensures PrevAt(mem, 0, cap) == Refused
  {
    hide Pos;
    forall i: nat | i < |mem| ensures Pos(i, |mem|) == i {
      PosSmall(i, |mem|);
    }
    var tail := ReadAt(mem, |mem| - TAIL, TAIL);
    assert tail == [0, 0];
    assert Value(tail) == 0 by {
      assert tail[1..] == [0];
    }
    var kind := ReadAt(mem, |mem| - TAIL - HEAD, HEAD)[12..14];
    assert kind == [0, 0];
    assert Value(kind) == 0 by {
      assert kind[1..] == [0];
    }
  }

  /** If all the entries ever written are still in the ring and leave room for
      one more head and tail, the reader returns exactly all of them, newest
      first, and then stops. */
  lemma {:induction false} WholeTrace(mem: seq<byte>, es: seq<Event>, n: nat, cap: nat, k: nat)
    requires |mem| >= MIN_RING && LogFrom(mem, Bytes(es), 0) && ZeroFrom(mem, |mem| - HEAD - TAIL)
    requires n <= |es| && n <= k
    requires forall i :: 0 <= i < |es| ==> EventOk(es[i]) && Readable(es[i], cap)
    ensures var out := Back(mem, Pos(EndOf(es[..n]), |mem|), cap, k);
            |out| == n && forall i :: 0 <= i < n ==> out[i] == es[n - 1 - i]
  {
    hide Pos, PrevAt;
    if n == 0 {
      PosSmall(0, |mem|);
      StopsAtStart(mem, cap);
    } else {
      PrevReturns(mem, es, 0, n, cap);
      WholeTrace(mem, es, n - 1, cap, k - 1);
    }
  }

  /* ---------- what one event records ---------- */

  /** The data of an entry: the length is kept in 16 bits. */
  function Recorded(d1: seq<byte>, d2: seq<byte>): (d: seq<byte>)
    ensures |d| < U16
  {
    (d1 + d2)[..(|d1| + |d2|) % U16]
  }

  /** An event keeps its two buffers exactly when together they are shorter than
      65536 bytes. */
  lemma RecordedExactly(d1: seq<byte>, d2: seq<byte>)
    ensures Recorded(d1, d2) == d1 + d2 <==> |d1| + |d2| < U16
  {
    if |d1| + |d2| < U16 {
      ModUnique(U16, |d1| + |d2|, 0, |d1| + |d2|);
      assert (d1 + d2)[..|d1 + d2|] == d1 + d2;
    }
  }

  /** How far the copies of one call reach: to the tail, or, when the length
      wraps, to the end of the data that were copied all the same. */
  function Extent(d1: seq<byte>, d2: seq<byte>): nat {
    if |d1| + |d2| < U16 then HEAD + |d1| + |d2| + TAIL else HEAD + |d1| + |d2|
  }

  lemma ReadKept(mem: seq<byte>, mem': seq<byte>, x: nat, n: nat, w: nat, m: nat)
    requires |mem| == |mem'| > 0 && SameOn(mem, mem', w + m, w + |mem|)
    requires x + n <= w && w + m <= x + |mem|
    ensures ReadAt(mem', x, n) == ReadAt(mem, x, n)
  {
    hide Pos;
    forall j | 0 <= j < n ensures ReadAt(mem', x, n)[j] == ReadAt(mem, x, n)[j] {
      PosStep(x + j, |mem|, |mem|);
      assert Pos(x + j + |mem|, |mem|) == Pos(x + j, |mem|);
    }
  }

  lemma ReadJoin(mem: seq<byte>, x: nat, a: seq<byte>, b: seq<byte>)
    requires |mem| > 0 && ReadAt(mem, x, |a|) == a && ReadAt(mem, x + |a|, |b|) == b
    ensures ReadAt(mem, x, |a| + |b|) == a + b
  {
    hide Pos;
    var r := ReadAt(mem, x, |a| + |b|);
    forall j | 0 <= j < |a| + |b| ensures r[j] == (a + b)[j] {
      if j >= |a| {
        assert b[j - |a|] == mem[Pos(x + |a| + (j - |a|), |mem|)];
      }
    }
  }

  lemma ReadPrefix(mem: seq<byte>, x: nat, d: seq<byte>, n: nat)
    requires |mem| > 0 && n <= |d| && ReadAt(mem, x, |d|) == d
    ensures ReadAt(mem, x, n) == d[..n]
  {
    hide Pos;
  }

  /** A copy inside [x, x + n) after others inside it changes nothing else. */
  lemma CopiedInside(mem: seq<byte>, a: seq<byte>, b: seq<byte>, w: nat, m: nat, x: nat, n: nat)
    requires |mem| == |a| == |b| > 0 && SameOn(mem, a, x + n, x + |mem|)
    requires SameOn(a, b, w + m, w + |mem|) && x <= w && w + m <= x + n
    ensures SameOn(mem, b, x + n, x + |mem|)
  {
    hide Pos;
  }

  /** Head, two data buffers and tail, copied in this order, form the entry. */
  lemma EntryCopied(mem1: seq<byte>, mem2: seq<byte>, mem3: seq<byte>, mem4: seq<byte>, x: nat,
                    e: Event, d1: seq<byte>, d2: seq<byte>)
    requires |mem1| == |mem2| == |mem3| == |mem4| >= MIN_RING
    requires |d1| < U16 && |d2| < U16 && e.data == Recorded(d1, d2)
    requires ReadAt(mem1, x, HEAD) == Head(e) && ReadAt(mem2, x + HEAD, |d1|) == d1
    requires ReadAt(mem3, x + HEAD + |d1|, |d2|) == d2 && ReadAt(mem4, x + HEAD + |e.data|, TAIL) == Tail(e)
    requires SameOn(mem1, mem2, x + HEAD + |d1|, x + HEAD + |mem1|)
    requires SameOn(mem2, mem3, x + HEAD + |d1| + |d2|, x + HEAD + |d1| + |mem1|)
    requires SameOn(mem3, mem4, x + HEAD + |e.data| + TAIL, x + HEAD + |e.data| + |mem1|)
    ensures ReadAt(mem4, x, Size(e)) == Entry(e)
  {
    hide Pos, Head, Tail, ReadAt, SameOn;
    ReadKept(mem1, mem2, x, HEAD, x + HEAD, |d1|);
    ReadKept(mem2, mem3, x, HEAD, x + HEAD + |d1|, |d2|);
    ReadKept(mem2, mem3, x + HEAD, |d1|, x + HEAD + |d1|, |d2|);
    ReadJoin(mem3, x + HEAD, d1, d2);
    ReadPrefix(mem3, x + HEAD, d1 + d2, |e.data|);
    ReadKept(mem3, mem4, x, HEAD, x + HEAD + |e.data|, TAIL);
    ReadKept(mem3, mem4, x + HEAD, |e.data|, x + HEAD + |e.data|, TAIL);
    ReadJoin(mem4, x, Head(e), e.data);
    ReadJoin(mem4, x, Head(e) + e.data, Tail(e));
  }

  lemma EmptyCopy(mem: seq<byte>, x: nat, y: nat)
    requires |mem| > 0
    ensures ReadAt(mem, x, 0) == [] && SameOn(mem, mem, x, y)
  {
  }

  /* ---------- the shared ring, its writer and its reader ---------- */

  class Ring {
    var endLast: nat
    const base: array<byte>

    /** All events ever recorded, and how far any copy has reached. */
    ghost var events: seq<Event>
    ghost var high: nat

    ghost function Low(): nat
      reads this
    {
      if high <= base.Length then 0 else high - base.Length
    }

    /** The ring holds the entries' bytes except the oldest ones, and is zero
        where nothing has been written yet. */
    ghost predicate Valid()
      reads this, base
    {
      && base.Length >= MIN_RING
      && EndOf(events) <= high && endLast == Pos(EndOf(events), base.Length)
      && LogFrom(base[..], Bytes(events), Low()) && ZeroFrom(base[..], high)
      && (forall i :: 0 <= i < |events| ==> EventOk(events[i]) && events[i].order == i % U32)
    }

    constructor (len: nat)
      requires len >= MIN_RING
      ensures Valid() && fresh(base) && base.Length == len && events == [] && high == 0
    {
      base := new byte[len](_ => 0);
      endLast, events, high := 0, [], 0;
      new;
      PosSmall(0, len);
    }

    /** Copies `src` to stream position `x`, whose cell `pos` may lie one ring
        too high. */
    method CopyTo(pos: nat, src: seq<byte>, ghost x: nat)
      requires base.Length >= MIN_RING && |src| <= base.Length
      requires pos == Pos(x, base.Length) || pos == Pos(x, base.Length) + base.Length
      modifies base
      ensures ReadAt(base[..], x, |src|) == src
      ensures SameOn(old(base[..]), base[..], x + |src|, x + base.Length)
    {
      hide Pos;
      var p := if pos >= base.Length then pos - base.Length else pos;
      if p + |src| <= base.Length {
        forall i | 0 <= i < |src| {
          base[p + i] := src[i];
        }
      } else {
        var first := base.Length - p;
        forall i | 0 <= i < first {
          base[p + i] := src[i];
        }
        forall i | 0 <= i < |src| - first {
          base[i] := src[first + i];
        }
      }
      forall j | 0 <= j < |src| ensures base[..][Pos(x + j, base.Length)] == src[j] {
        PosStep(x, j, base.Length);
      }
      forall y | x + |src| <= y < x + base.Length
        ensures base[..][Pos(y, base.Length)] == old(base[..])[Pos(y, base.Length)]
      {
        PosStep(x, y - x, base.Length);
      }
    }

    method CopyFrom(pos: nat, n: nat) returns (dst: seq<byte>)
      requires pos < base.Length && n <= base.Length
      ensures dst == ReadAt(base[..], pos, n)
    {
      if pos + n <= base.Length {
        dst := base[pos..pos + n];
      } else {
        dst := base[pos..] + base[..n - (base.Length - pos)];
      }
      forall j | 0 <= j < n ensures dst[j] == ReadAt(base[..], pos, n)[j] {
        PosSmall(pos, base.Length);
        PosStep(pos, j, base.Length);
      }
    }

    /** Copies the four parts of an entry to stream position `x`. */
    method WriteEntry(pos: nat, e: Event, d1: seq<byte>, d2: seq<byte>, ghost x: nat)
      requires base.Length >= MIN_RING && pos == Pos(x, base.Length)
      requires |d1| < U16 && |d2| < U16 && e.data == Recorded(d1, d2)
      modifies base
      ensures ReadAt(base[..], x, Size(e)) == Entry(e)
      ensures SameOn(old(base[..]), base[..], x + Extent(d1, d2), x + base.Length)
    {
      hide Pos, Head, Tail, ReadAt, SameOn, Entry;
      var n := |e.data|;
      ghost var (mem0, size, ext) := (base[..], base.Length, Extent(d1, d2));
      EmptyCopy(mem0, x + ext, x + size);
      CopyTo(pos, Head(e), x);
      ghost var mem1 := base[..];
      CopiedInside(mem0, mem0, mem1, x, HEAD, x, ext);
      PosStep(x, HEAD, size);
      CopyTo(pos + HEAD, d1, x + HEAD);
      ghost var mem2 := base[..];
      CopiedInside(mem0, mem1, mem2, x + HEAD, |d1|, x, ext);
      PosStep(x, HEAD + |d1|, size);
      EmptyCopy(mem2, x + HEAD + |d1|, x + HEAD + |d1| + size);
      if |d2| > 0 {
        CopyTo(pos + HEAD + |d1|, d2, x + HEAD + |d1|);
      }
      ghost var mem3 := base[..];
      CopiedInside(mem0, mem2, mem3, x + HEAD + |d1|, |d2|, x, ext);
      PosStep(x, HEAD + n, size);
      CopyTo(pos + HEAD + n, Tail(e), x + HEAD + n);
      CopiedInside(mem0, mem3, base[..], x + HEAD + n, TAIL, x, ext);
      EntryCopied(mem1, mem2, mem3, base[..], x, e, d1, d2);
    }
  }

  lemma RingGrows(mem: seq<byte>, mem': seq<byte>, es: seq<Event>, high: nat, e: Event, ext: nat)
    requires |mem| == |mem'| >= ext && EndOf(es) <= high && Size(e) <= ext && |mem| > 0
    requires LogFrom(mem, Bytes(es), if high <= |mem| then 0 else high - |mem|) && ZeroFrom(mem, high)
    requires ReadAt(mem', EndOf(es), Size(e)) == Entry(e)
    requires SameOn(mem, mem', EndOf(es) + ext, EndOf(es) + |mem|)
    ensures var high' := if EndOf(es) + ext > high then EndOf(es) + ext else high;
            && EndOf(es + [e]) == EndOf(es) + Size(e) <= high' && ZeroFrom(mem', high')
            && LogFrom(mem', Bytes(es + [e]), if high' <= |mem| then 0 else high' - |mem|)
  {
    hide Pos, Entry, ReadAt;
    var high' := if EndOf(es) + ext > high then EndOf(es) + ext else high;
    var lo' := if high' <= |mem| then 0 else high' - |mem|;
    Overwritten(mem, mem', Bytes(es), if high <= |mem| then 0 else high - |mem|, lo', ext);
    LogGrows(mem', Bytes(es), lo', Entry(e));
    assert (es + [e])[..|es|] == es;
    forall i | high' <= i < |mem| ensures mem'[i] == 0 {
      PosSmall(i, |mem|);
      assert mem'[Pos(i, |mem|)] == mem[Pos(i, |mem|)];
    }
  }

  datatype Clock = Failed | Now(ns: nat)

  class Writer {
    const ring: Ring
    var pos: nat
    var order: nat

    ghost predicate Valid()
      reads this, ring, ring.base
    {
      ring.Valid() && pos == ring.endLast && order == |ring.events| % U32
    }

    constructor (ring: Ring)
      requires ring.Valid() && ring.events == []
      ensures Valid() && this.ring == ring
    {
      this.ring := ring;
      pos, order := 0, 0;
      new;
      PosSmall(0, ring.base.Length);
    }

    /** Records one event, unless the clock cannot be read. Its data are the two
        buffers cut to their 16-bit length, and the ring loses what the copies
        overwrote. */
    method TraceEvent2(kind: nat, d1: seq<byte>, d2: seq<byte>, clock: Clock) returns (rv: int)
      requires Valid() && kind < U16 && |d1| < U16 && |d2| < U16 && (clock.Now? ==> clock.ns < U64)
      modifies this, ring, ring.base
      ensures Valid() && (rv == 0 <==> clock.Now?)
      ensures rv != 0 ==> ring.events == old(ring.events) && ring.high == old(ring.high)
      ensures rv == 0 ==>
                && ring.events == old(ring.events)
                               + [Event(clock.ns, |old(ring.events)| % U32, kind, Recorded(d1, d2))]
                && ring.high == (if EndOf(old(ring.events)) + Extent(d1, d2) > old(ring.high)
                                 then EndOf(old(ring.events)) + Extent(d1, d2) else old(ring.high))
    {
      hide Pos, Bytes, ReadAt, SameOn, Entry, LogFrom, ZeroFrom;
      if clock.Failed? {
        return -1;
      }
      var e := Event(clock.ns, order, kind, Recorded(d1, d2));
      order := (order + 1) % U32;
      var size := ring.base.Length;
      ghost var (mem, es) := (ring.base[..], ring.events);
      ring.WriteEntry(pos, e, d1, d2, EndOf(es));
      var newPos := pos + |e.data| + HEAD + TAIL;
      PosStep(EndOf(es), Size(e), size);
      if newPos >= size {
        newPos := newPos - size;
      }
      pos := newPos;
      RingGrows(mem, ring.base[..], es, ring.high, e, Extent(d1, d2));
      ring.events := es + [e];
      if EndOf(es) + Extent(d1, d2) > ring.high {
        ring.high := EndOf(es) + Extent(d1, d2);
      }
      ring.endLast := newPos;
      ModAddLow(U32, |es|, 1);
      return 0;
    }
  }

  class Reader {
    const ring: Ring
    var pos: nat

    ghost predicate Valid()
      reads this, ring, ring.base
    {
      ring.Valid() && pos < ring.base.Length
    }

    /** A reader set to the end of the newest entry. */
    constructor (ring: Ring)
      requires ring.Valid()
      ensures Valid() && this.ring == ring && pos == ring.endLast
    {
      this.ring := ring;
      pos := ring.endLast;
    }

    /** Reads the entry that ends at `pos` and moves to its start. */
    method TracePrev(cap: nat) returns (r: Prev)
      requires Valid()
      modifies this
      ensures Valid() && r == PrevAt(ring.base[..], old(pos), cap)
      ensures pos == if r.Found? then r.pos else old(pos)
    {
      hide Pos, Value, Pow256, ReadAt, Bytes, LogFrom, ZeroFrom;
      Widths();
      var size := ring.base.Length;
      var tailPos := if pos >= TAIL then pos - TAIL else size + pos - TAIL;
      var tail := ring.CopyFrom(tailPos, TAIL);
      var n := Value(tail);
      if cap < n {
        return Refused;
      }
      var dataPos := if tailPos >= n then tailPos - n else size + tailPos - n;
      var data := ring.CopyFrom(dataPos, n);
      var headPos := if dataPos >= HEAD then dataPos - HEAD else size + dataPos - HEAD;
      var head := ring.CopyFrom(headPos, HEAD);
      if Value(head[14..]) != n || Value(head[12..14]) == 0 {
        return Refused;
      }
      pos := headPos;
      return Found(Event(Value(head[..8]), Value(head[8..12]), Value(head[12..14]), data), headPos);
    }

    /** The reading loop, with at most `k` reads. */
    method ReadBack(cap: nat, k: nat) returns (out: seq<Event>)
      requires Valid()
      modifies this
      ensures Valid() && out == Back(ring.base[..], old(pos), cap, k)
    {
      hide Pos, PrevAt, Bytes, LogFrom, ZeroFrom, EventOk, Back;
      ghost var (mem, start) := (ring.base[..], pos);
      out := [];
      var left: nat := k;
      NothingAhead(Back(mem, pos, cap, k));
      while left > 0
        invariant Valid() && left <= k
        invariant out + Back(mem, pos, cap, left) == Back(mem, start, cap, k)
      {
        BackStep(mem, pos, cap, left);
        var r := TracePrev(cap);
        if r.Refused? {
          BackEnd(mem, pos, cap);
          left := 0;
        } else {
          Regrouped(out, r.event, Back(mem, pos, cap, left - 1));
          out, left := out + [r.event], left - 1;
        }
      }
      BackEnd(mem, pos, cap);
    }

    /** Prints at most `k` entries backward, as the tool does without a limit:
        the newest ones, up to the first that is refused, and all of them and no
        more if nothing has been overwritten and every entry is readable. */
    method Dump(cap: nat, k: nat) returns (out: seq<Event>)
      requires Valid() && pos == ring.endLast
      modifies this
      ensures var es := ring.events;
              && (k <= |es| && EndOf(es[..|es| - k]) >= ring.Low() ==>
                    && |out| == Accepted(es, |es|, cap, k)
                    && forall i :: 0 <= i < |out| ==> out[i] == es[|es| - 1 - i])
              && (k >= |es| && ring.high + HEAD + TAIL <= ring.base.Length
                  && (forall i :: 0 <= i < |es| ==> Readable(es[i], cap)) ==>
                    && |out| == |es|
                    && forall i :: 0 <= i < |out| ==> out[i] == es[|es| - 1 - i])
    {
      hide Pos, PrevAt, Bytes, LogFrom, ZeroFrom, Accepted, Readable, EventOk, Back;
      out := ReadBack(cap, k);
      DumpTells(ring.base[..], ring.events, ring.high, cap, k);
    }
  }

  lemma NothingAhead(es: seq<Event>)
    ensures [] + es == es
  {
  }

  lemma Regrouped(a: seq<Event>, e: Event, b: seq<Event>)
    ensures a + ([e] + b) == (a + [e]) + b
  {
  }

  lemma BackStep(mem: seq<byte>, pos: nat, cap: nat, k: nat)
    requires pos < |mem| && |mem| >= MIN_RING && k > 0
    ensures match PrevAt(mem, pos, cap)
            case Refused => Back(mem, pos, cap, k) == []
            case Found(e, before) => Back(mem, pos, cap, k) == [e] + Back(mem, before, cap, k - 1)
  {
    hide PrevAt;
  }

  lemma BackEnd(mem: seq<byte>, pos: nat, cap: nat)
    requires pos < |mem| && |mem| >= MIN_RING
    ensures Back(mem, pos, cap, 0) == []
  {
  }

  lemma DumpTells(mem: seq<byte>, es: seq<Event>, high: nat, cap: nat, k: nat)
    requires |mem| >= MIN_RING && ZeroFrom(mem, high)
    requires LogFrom(mem, Bytes(es), if high <= |mem| then 0 else high - |mem|)
    requires forall i :: 0 <= i < |es| ==> EventOk(es[i])
    ensures var out := Back(mem, Pos(EndOf(es), |mem|), cap, k);
            && (k <= |es| && EndOf(es[..|es| - k]) + |mem| >= high ==>
                  && |out| == Accepted(es, |es|, cap, k)
                  && forall i :: 0 <= i < |out| ==> out[i] == es[|es| - 1 - i])
            && (k >= |es| && high + HEAD + TAIL <= |mem|
                && (forall i :: 0 <= i < |es| ==> Readable(es[i], cap)) ==>
                  && |out| == |es|
                  && forall i :: 0 <= i < |out| ==> out[i] == es[|es| - 1 - i])
  {
    hide Pos, PrevAt, Bytes, LogFrom, Back, Accepted;
    assert es[..|es|] == es;
    if k <= |es| && EndOf(es[..|es| - k]) + |mem| >= high {
      ReadsBack(mem, es, if high <= |mem| then 0 else high - |mem|, |es|, cap, k);
    }
    if k >= |es| && high + HEAD + TAIL <= |mem| && forall i :: 0 <= i < |es| ==> Readable(es[i], cap) {
      WholeTrace(mem, es, |es|, cap, k);
    }
  }
}
