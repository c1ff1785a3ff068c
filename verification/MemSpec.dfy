/**
 Packet memory as blocks: which stretches of [0, size) are free, in the order of
 the free list, and which are handed out, in the order they were.
 */
module MemSpec {
  import opened Basics

  datatype Block = Block(base: nat, len: nat)

  datatype Mem = Mem(free: seq<Block>, live: seq<Block>)

  predicate Has(b: Block, x: int) {
    b.base <= x < b.base + b.len
  }

  /** How many of the blocks contain address `x`. */
  function Covers(bs: seq<Block>, x: int): nat {
    if bs == [] then 0 else (if Has(bs[0], x) then 1 else 0) + Covers(bs[1..], x)
  }

  /** Every address of the memory is in exactly one block, free or handed out,
      and no block reaches beyond the memory. */
  ghost predicate Tiles(m: Mem, size: nat) {
    forall x: int :: Covers(m.free, x) + Covers(m.live, x) == if 0 <= x < size then 1 else 0
  }

  /* ---------- the operations ---------- */

  /** The first free block that is long enough. */
  function FirstFit(bs: seq<Block>, length: nat): (i: nat)
    ensures i <= |bs| && (forall j :: 0 <= j < i ==> bs[j].len < length) && (i < |bs| ==> bs[i].len >= length)
  {
    if bs == [] || bs[0].len >= length then 0 else 1 + FirstFit(bs[1..], length)
  }

  function Removed<T>(xs: seq<T>, i: nat): (ys: seq<T>)
    requires i < |xs|
    ensures |ys| == |xs| - 1
  {
    xs[..i] + xs[i + 1..]
  }

  function Inserted<T>(xs: seq<T>, i: nat, x: T): (ys: seq<T>)
    requires i <= |xs|
    ensures |ys| == |xs| + 1
  {
    xs[..i] + [x] + xs[i..]
  }

  /** Takes a block of `length`, cut from the front of the first that fits. */
  function Alloc(m: Mem, length: nat): (r: (Mem, Option<Block>))
    ensures r.1.None? ==> r.0 == m
  {
    var i := FirstFit(m.free, length);
    if i == |m.free| then (m, None) else
      var b := m.free[i];
      var got := Block(b.base, length);
      var rest := if b.len == length then Removed(m.free, i)
                  else m.free[i := Block(b.base + length, b.len - length)];
      (Mem(rest, m.live + [got]), Some(got))
  }

  /** Free block `i` is the first that is long enough. */
  predicate FirstLongEnough(bs: seq<Block>, length: nat, i: nat) {
    i < |bs| && bs[i].len >= length && forall j :: 0 <= j < i ==> bs[j].len < length
  }

  /** An allocation takes the front of the first free block that is long enough, leaves
      the rest of it free and all other free blocks alone. */
  lemma AllocExactly(m: Mem, length: nat, i: nat)
    requires FirstLongEnough(m.free, length, i)
    ensures var (b, got) := (m.free[i], Block(m.free[i].base, length));
            var left := if b.len == length then [] else [Block(b.base + length, b.len - length)];
            Alloc(m, length) == (Mem(m.free[..i] + left + m.free[i + 1..], m.live + [got]), Some(got))
  {
    var b := m.free[i];
    assert FirstFit(m.free, length) == i;
    if b.len == length {
      assert m.free[..i] + [] == m.free[..i];
    } else {
      var rest := Block(b.base + length, b.len - length);
      assert m.free[i := rest] == m.free[..i] + [rest] + m.free[i + 1..];
    }
  }

  /** It is refused, with nothing changed, if and only if no free block is long enough. */
  lemma AllocRefusedExactly(m: Mem, length: nat)
    ensures Alloc(m, length).1.None? <==> forall i :: 0 <= i < |m.free| ==> m.free[i].len < length
    ensures Alloc(m, length).1.None? ==> Alloc(m, length).0 == m
  {
    hide Removed;
    var k := FirstFit(m.free, length);
    assert k < |m.free| ==> m.free[k].len >= length;
  }

  /** Where the search for the place of a freed block ends: the position before
      which it is inserted. */
  function PlaceFrom(bs: seq<Block>, base: nat, i: nat): (p: nat)
    requires i <= |bs|
    ensures i <= p <= |bs|
    decreases |bs| - i
  {
    if i + 1 < |bs| && bs[i + 1].base < base then PlaceFrom(bs, base, i + 1) else i
  }

  function Adjoins(a: Block, b: Block): bool {
    a.base + a.len == b.base
  }

  /** Block `i` swallows block `i + 1`. */
  function Merged(bs: seq<Block>, i: nat): (cs: seq<Block>)
    requires i + 1 < |bs|
    ensures |cs| == |bs| - 1
  {
    Removed(bs, i + 1)[i := Block(bs[i].base, bs[i].len + bs[i + 1].len)]
  }

  function MergedIf(bs: seq<Block>, i: nat): seq<Block> {
    if i + 1 < |bs| && Adjoins(bs[i], bs[i + 1]) then Merged(bs, i) else bs
  }

  /** Inserts a block at `p` and merges it with its neighbours in the list. */
  function Settled(bs: seq<Block>, p: nat, b: Block): seq<Block>
    requires p <= |bs|
  {
    var cs := Inserted(bs, p, b);
    if p == 0 then MergedIf(cs, 0)
    else if Adjoins(cs[p - 1], b) then MergedIf(Merged(cs, p - 1), p - 1)
    else MergedIf(cs, p)
  }

  function Free(m: Mem, i: nat): Mem
    requires i < |m.live|
  {
    var b := m.live[i];
    Mem(Settled(m.free, PlaceFrom(m.free, b.base, 0), b), Removed(m.live, i))
  }

  /* ---------- coverage ---------- */

  lemma {:induction false} CoversConcat(a: seq<Block>, b: seq<Block>, x: int)
    ensures Covers(a + b, x) == Covers(a, x) + Covers(b, x)
  {
    if a == [] {
      assert a + b == b;
    } else {
      CoversConcat(a[1..], b, x);
      assert (a + b)[1..] == a[1..] + b;
    }
  }

  function One(b: Block, x: int): nat {
    if Has(b, x) then 1 else 0
  }

  lemma CoversOne(b: Block, x: int)
    ensures Covers([b], x) == One(b, x)
  {
  }

  lemma CoversInserted(bs: seq<Block>, i: nat, b: Block, x: int)
    requires i <= |bs|
    ensures Covers(Inserted(bs, i, b), x) == Covers(bs, x) + One(b, x)
  {
    hide Covers, One;
    CoversConcat(bs[..i] + [b], bs[i..], x);
    CoversConcat(bs[..i], [b], x);
    CoversConcat(bs[..i], bs[i..], x);
    CoversOne(b, x);
    assert bs == bs[..i] + bs[i..];
  }

  lemma CoversRemoved(bs: seq<Block>, i: nat, x: int)
    requires i < |bs|
    ensures Covers(bs, x) == Covers(Removed(bs, i), x) + One(bs[i], x)
  {
    hide Covers, One;
    CoversInserted(Removed(bs, i), i, bs[i], x);
    assert bs == Inserted(Removed(bs, i), i, bs[i]);
  }

  lemma CoversUpdated(bs: seq<Block>, i: nat, b: Block, x: int)
    requires i < |bs|
    ensures Covers(bs[i := b], x) + One(bs[i], x) == Covers(bs, x) + One(b, x)
  {
    hide Covers, One;
    CoversRemoved(bs, i, x);
    CoversRemoved(bs[i := b], i, x);
    assert Removed(bs[i := b], i) == Removed(bs, i);
  }

  lemma CoversMerged(bs: seq<Block>, i: nat, x: int)
    requires i + 1 < |bs| && Adjoins(bs[i], bs[i + 1])
    ensures Covers(Merged(bs, i), x) == Covers(bs, x)
  {
    hide Covers;
    var cs := Removed(bs, i + 1);
    CoversRemoved(bs, i + 1, x);
    assert cs[i] == bs[i];
    CoversUpdated(cs, i, Block(bs[i].base, bs[i].len + bs[i + 1].len), x);
  }

  lemma CoversSettled(bs: seq<Block>, p: nat, b: Block, x: int)
    requires p <= |bs|
    ensures Covers(Settled(bs, p, b), x) == Covers(bs, x) + One(b, x)
  {
    hide Covers, One, Merged;
    var cs := Inserted(bs, p, b);
    CoversInserted(bs, p, b, x);
    assert cs[p] == b;
    if p == 0 {
      CoversMergedIf(cs, 0, x);
    } else if Adjoins(cs[p - 1], b) {
      CoversMerged(cs, p - 1, x);
      CoversMergedIf(Merged(cs, p - 1), p - 1, x);
    } else {
      CoversMergedIf(cs, p, x);
    }
  }

  lemma CoversMergedIf(bs: seq<Block>, i: nat, x: int)
    ensures Covers(MergedIf(bs, i), x) == Covers(bs, x)
  {
    hide Covers, Merged;
    if i + 1 < |bs| && Adjoins(bs[i], bs[i + 1]) {
      CoversMerged(bs, i, x);
    }
  }

  /* ---------- what every run keeps ---------- */

  /** Handing out a block keeps the tiling. */
  lemma AllocTiles(m: Mem, length: nat, size: nat)
    requires Tiles(m, size)
    ensures Tiles(Alloc(m, length).0, size)
  {
    hide Covers;
    var i := FirstFit(m.free, length);
    if i < |m.free| {
      var b := m.free[i];
      var got, m' := Block(b.base, length), Alloc(m, length).0;
      forall x: int ensures Covers(m'.free, x) + Covers(m'.live, x) == if 0 <= x < size then 1 else 0 {
        assert Covers(m.free, x) + Covers(m.live, x) == if 0 <= x < size then 1 else 0;
        CoversConcat(m.live, [got], x);
        CoversOne(got, x);
        if b.len == length {
          CoversRemoved(m.free, i, x);
        } else {
          CoversUpdated(m.free, i, Block(b.base + length, b.len - length), x);
        }
      }
    }
  }

  /** Taking a block back keeps the tiling, merged or not. */
  lemma FreeTiles(m: Mem, i: nat, size: nat)
    requires Tiles(m, size) && i < |m.live|
    ensures Tiles(Free(m, i), size)
  {
    hide Covers, One, Settled;
    var m', b := Free(m, i), m.live[i];
    forall x: int ensures Covers(m'.free, x) + Covers(m'.live, x) == if 0 <= x < size then 1 else 0 {
      assert Covers(m.free, x) + Covers(m.live, x) == if 0 <= x < size then 1 else 0;
      CoversRemoved(m.live, i, x);
      CoversSettled(m.free, PlaceFrom(m.free, b.base, 0), b, x);
    }
  }

  datatype Op = AllocOp(length: nat) | FreeOp(i: nat)

  function Start(size: nat): Mem {
    Mem([Block(0, size)], [])
  }

  function Do(m: Mem, op: Op): Mem {
    match op
    case AllocOp(length) => Alloc(m, length).0
    case FreeOp(i) => if i < |m.live| then Free(m, i) else m
  }

  function Run(m: Mem, ops: seq<Op>): Mem
    decreases |ops|
  {
    if ops == [] then m else Run(Do(m, ops[0]), ops[1..])
  }

  lemma {:induction false} RunTiles(m: Mem, ops: seq<Op>, size: nat)
    requires Tiles(m, size)
    ensures Tiles(Run(m, ops), size)
    decreases |ops|
  {
    hide Tiles, Alloc, Free;
    if ops != [] {
      match ops[0] {
        case AllocOp(length) => AllocTiles(m, length, size);
        case FreeOp(i) => if i < |m.live| {
          FreeTiles(m, i, size);
        }
      }
      RunTiles(Do(m, ops[0]), ops[1..], size);
    }
  }

  lemma StartTiles(size: nat)
    ensures Tiles(Start(size), size)
  {
    forall x: int ensures Covers([Block(0, size)], x) == if 0 <= x < size then 1 else 0 {
      CoversOne(Block(0, size), x);
    }
  }

  /** From the start, over every run of allocations and frees: no two blocks that
      are handed out overlap, none overlaps a free block, and all of them lie in
      the memory. */
  lemma LiveBlocksApart(size: nat, ops: seq<Op>, i: nat, j: nat, x: int)
    requires var m := Run(Start(size), ops); i < |m.live| && Has(m.live[i], x)
    ensures var m := Run(Start(size), ops);
            && 0 <= x < size
            && (j < |m.live| && j != i ==> !Has(m.live[j], x))
            && (j < |m.free| ==> !Has(m.free[j], x))
  {
    hide Run, Covers;
    var m := Run(Start(size), ops);
    StartTiles(size);
    RunTiles(Start(size), ops, size);
    assert Covers(m.free, x) + Covers(m.live, x) == if 0 <= x < size then 1 else 0;
    CoversRemoved(m.live, i, x);
    if j < |m.live| && j != i {
      var k := if j < i then j else j - 1;
      CoversRemoved(Removed(m.live, i), k, x);
      assert Removed(m.live, i)[k] == m.live[j];
    }
    if j < |m.free| {
      CoversRemoved(m.free, j, x);
    }
  }

  /* ---------- the free list's order ---------- */

  predicate Sorted(bs: seq<Block>) {
    forall i, j :: 0 <= i < j < |bs| ==> bs[i].base < bs[j].base
  }

  lemma {:induction false} PlaceIs(bs: seq<Block>, base: nat, i: nat)
    requires Sorted(bs) && i < |bs| && bs[i].base < base
    ensures PlaceFrom(bs, base, i) < |bs| && bs[PlaceFrom(bs, base, i)].base < base
    decreases |bs| - i
  {
    if i + 1 < |bs| && bs[i + 1].base < base {
      PlaceIs(bs, base, i + 1);
    }
  }

  predicate NonEmpty(bs: seq<Block>) {
    forall i :: 0 <= i < |bs| ==> bs[i].len > 0
  }

  /** Free blocks in address order, none empty and no two overlapping. */
  predicate Orderly(bs: seq<Block>) {
    && NonEmpty(bs)
    && (forall i, j :: 0 <= i < j < |bs| ==> bs[i].base + bs[i].len <= bs[j].base)
  }

  predicate Disjoint(a: Block, b: Block) {
    a.base + a.len <= b.base || b.base + b.len <= a.base
  }

  lemma InsertedAt(bs: seq<Block>, p: nat, b: Block, i: nat)
    requires p <= |bs| && i <= |bs|
    ensures Inserted(bs, p, b)[i] == if i < p then bs[i] else if i == p then b else bs[i - 1]
  {
  }

  /** Behind the first free block: not merged, and out of order. */
  lemma SettledBehind(bs: seq<Block>, b: Block)
    requires Orderly(bs) && b.len > 0 && forall i :: 0 <= i < |bs| ==> Disjoint(b, bs[i])
    requires bs != [] && bs[0].base < b.base
    ensures var p := PlaceFrom(bs, b.base, 0); var cs := Inserted(bs, p, b);
            Settled(bs, p, b) == cs && !Sorted(cs)
  {
    hide Inserted, PlaceFrom, Merged;
    var p := PlaceFrom(bs, b.base, 0);
    var cs := Inserted(bs, p, b);
    PlaceIs(bs, b.base, 0);
    InsertedAt(bs, p, b, p);
    InsertedAt(bs, p, b, p + 1);
    assert cs[p] == b && cs[p + 1] == bs[p] && !Adjoins(b, bs[p]);
    assert cs[p].base > cs[p + 1].base;
    if p > 0 {
      InsertedAt(bs, p, b, p - 1);
      assert bs[p - 1].base + bs[p - 1].len <= bs[p].base;
      assert cs[p - 1] == bs[p - 1] && !Adjoins(cs[p - 1], b);
    }
  }

  lemma SortedFront(bs: seq<Block>, b: Block)
    requires Orderly(bs) && (bs == [] || b.base < bs[0].base)
    ensures Sorted([b] + bs) && (bs != [] ==> Sorted([b] + bs[1..]))
  {
    var cs := [b] + bs;
    assert forall i :: 0 <= i < |cs| ==> cs[i] == if i == 0 then b else bs[i - 1];
    if bs != [] {
      var ds := [b] + bs[1..];
      assert forall i :: 0 <= i < |ds| ==> ds[i] == if i == 0 then b else bs[i];
    }
  }

  /** In front of all free blocks: merged exactly if it adjoins the first, and in
      order. */
  lemma SettledInFront(bs: seq<Block>, b: Block)
    requires Orderly(bs) && (bs == [] || b.base < bs[0].base)
    ensures PlaceFrom(bs, b.base, 0) == 0 && Sorted(Settled(bs, 0, b))
    ensures Settled(bs, 0, b) == if bs != [] && Adjoins(b, bs[0]) then [Block(b.base, b.len + bs[0].len)] + bs[1..]
                                 else Inserted(bs, 0, b)
  {
    hide Merged, Sorted;
    assert Inserted(bs, 0, b) == [b] + bs;
    SortedFront(bs, b);
    if bs != [] {
      MergedFront(bs, b);
      SortedFront(bs, Block(b.base, b.len + bs[0].len));
    }
  }

  /** What the search makes of a block freed into an orderly list: it stops one block
      early, so the block is merged exactly if it adjoins the first free block from
      below, and the list stays in address order exactly if the block lies in front
      of all the others. */
  lemma SettledExactly(bs: seq<Block>, b: Block)
    requires Orderly(bs) && b.len > 0 && forall i :: 0 <= i < |bs| ==> Disjoint(b, bs[i])
    ensures var cs := Settled(bs, PlaceFrom(bs, b.base, 0), b);
            && (|cs| == |bs| <==> bs != [] && Adjoins(b, bs[0]))
            && (Sorted(cs) <==> bs == [] || b.base < bs[0].base)
            && (bs != [] && Adjoins(b, bs[0]) ==> cs == [Block(b.base, b.len + bs[0].len)] + bs[1..])
            && (bs == [] || !Adjoins(b, bs[0]) ==> cs == Inserted(bs, PlaceFrom(bs, b.base, 0), b))
  {
    hide Settled, Inserted, PlaceFrom, Sorted;
    if bs != [] && bs[0].base < b.base {
      SettledBehind(bs, b);
    } else {
      SettledInFront(bs, b);
    }
  }

  lemma MergedFront(bs: seq<Block>, b: Block)
    requires bs != []
    ensures Merged(Inserted(bs, 0, b), 0) == [Block(b.base, b.len + bs[0].len)] + bs[1..]
  {
    var cs := Inserted(bs, 0, b);
    assert cs == [b] + bs;
    assert Removed(cs, 1) == [b] + bs[1..];
  }

  lemma OneCover(bs: seq<Block>, i: nat, x: int)
    requires i < |bs| && Has(bs[i], x)
    ensures Covers(bs, x) >= 1
  {
    CoversRemoved(bs, i, x);
  }

  lemma TwoCover(bs: seq<Block>, i: nat, j: nat, x: int)
    requires i < j < |bs| && Has(bs[i], x) && Has(bs[j], x)
    ensures Covers(bs, x) >= 2
  {
    hide Covers;
    CoversRemoved(bs, j, x);
    assert Removed(bs, j)[i] == bs[i];
    OneCover(Removed(bs, j), i, x);
  }

  lemma TilesOrderly(m: Mem, size: nat)
    requires Tiles(m, size) && Sorted(m.free) && NonEmpty(m.free)
    ensures Orderly(m.free)
  {
    hide Covers;
    var bs := m.free;
    forall i, j | 0 <= i < j < |bs| ensures bs[i].base + bs[i].len <= bs[j].base {
      var x := bs[j].base;
      assert Covers(m.free, x) + Covers(m.live, x) == if 0 <= x < size then 1 else 0;
      if bs[i].base + bs[i].len > x {
        TwoCover(bs, i, j, x);
      }
    }
  }

  lemma TilesDisjoint(m: Mem, size: nat, i: nat, j: nat)
    requires Tiles(m, size) && i < |m.live| && j < |m.free| && m.live[i].len > 0 && m.free[j].len > 0
    ensures Disjoint(m.live[i], m.free[j])
  {
    hide Covers;
    var a, b := m.live[i], m.free[j];
    var x := if a.base <= b.base then b.base else a.base;
    assert Covers(m.free, x) + Covers(m.live, x) == if 0 <= x < size then 1 else 0;
    if !Disjoint(a, b) {
      OneCover(m.live, i, x);
      OneCover(m.free, j, x);
    }
  }

  /** Freeing a block into a free list that is in address order: which block is merged,
      when the list stays in order, and what is left apart. */
  lemma FreeExactly(m: Mem, i: nat, size: nat)
    requires Tiles(m, size) && i < |m.live| && m.live[i].len > 0
    requires Sorted(m.free) && NonEmpty(m.free)
    ensures var (b, bs, cs) := (m.live[i], m.free, Free(m, i).free);
            && (|cs| == |bs| <==> bs != [] && Adjoins(b, bs[0]))
            && (Sorted(cs) <==> bs == [] || b.base < bs[0].base)
            && (bs != [] && Adjoins(b, bs[0]) ==> cs == [Block(b.base, b.len + bs[0].len)] + bs[1..])
            && (bs == [] || !Adjoins(b, bs[0]) ==> cs == Inserted(bs, PlaceFrom(bs, b.base, 0), b))
  {
    hide Tiles, Settled;
    TilesOrderly(m, size);
    forall j | 0 <= j < |m.free| ensures Disjoint(m.live[i], m.free[j]) {
      TilesDisjoint(m, size, i, j);
    }
    SettledExactly(m.free, m.live[i]);
  }

  /** A freed block lies in front of all free blocks. */
  predicate InFront(m: Mem, op: Op) {
    op.FreeOp? && op.i < |m.live| ==> m.free == [] || m.live[op.i].base < m.free[0].base
  }

  /** No block of length 0 is freed, at any point of the run. */
  predicate FreesNonEmpty(m: Mem, ops: seq<Op>)
    decreases |ops|
  {
    ops == [] || ((ops[0].FreeOp? && ops[0].i < |m.live| ==> m.live[ops[0].i].len > 0)
                  && FreesNonEmpty(Do(m, ops[0]), ops[1..]))
  }

  /** Every block that is freed lies in front of all blocks free by then. */
  predicate FreesInFront(m: Mem, ops: seq<Op>)
    decreases |ops|
  {
    ops == [] || (InFront(m, ops[0]) && FreesInFront(Do(m, ops[0]), ops[1..]))
  }

  /** The free list is in address order at every point of the run. */
  predicate AlwaysSorted(m: Mem, ops: seq<Op>)
    decreases |ops|
  {
    Sorted(m.free) && (ops == [] || AlwaysSorted(Do(m, ops[0]), ops[1..]))
  }

  lemma AllocSorted(m: Mem, length: nat)
    requires Orderly(m.free)
    ensures Sorted(Alloc(m, length).0.free) && NonEmpty(Alloc(m, length).0.free)
  {
    hide FirstFit;
  }

  lemma FreeNonEmpty(m: Mem, i: nat, size: nat)
    requires Tiles(m, size) && Sorted(m.free) && NonEmpty(m.free) && i < |m.live| && m.live[i].len > 0
    ensures NonEmpty(Free(m, i).free)
    ensures Sorted(Free(m, i).free) <==> InFront(m, FreeOp(i))
  {
    hide Tiles, Free, PlaceFrom;
    FreeExactly(m, i, size);
  }

  lemma {:induction false} OrderExactly(m: Mem, ops: seq<Op>, size: nat)
    requires Tiles(m, size) && Sorted(m.free) && NonEmpty(m.free) && FreesNonEmpty(m, ops)
    ensures AlwaysSorted(m, ops) <==> FreesInFront(m, ops)
    decreases |ops|
  {
    hide Tiles, Alloc, Free, Sorted, NonEmpty;
    if ops != [] {
      match ops[0] {
        case AllocOp(length) =>
          AllocTiles(m, length, size);
          TilesOrderly(m, size);
          AllocSorted(m, length);
        case FreeOp(i) => if i < |m.live| {
          FreeTiles(m, i, size);
          FreeNonEmpty(m, i, size);
        }
      }
      if Sorted(Do(m, ops[0]).free) {
        OrderExactly(Do(m, ops[0]), ops[1..], size);
      }
    }
  }

  lemma NothingToFree(m: Mem, i: nat)
    requires Tiles(m, 0) && i < |m.live|
    ensures m.live[i].len == 0
  {
    hide Covers;
    var x := m.live[i].base;
    assert Covers(m.free, x) + Covers(m.live, x) == 0;
    if m.live[i].len > 0 {
      OneCover(m.live, i, x);
    }
  }

  lemma {:induction false} EmptyMemory(m: Mem, ops: seq<Op>)
    requires Tiles(m, 0) && |m.free| <= 1 && FreesNonEmpty(m, ops)
    ensures AlwaysSorted(m, ops) && FreesInFront(m, ops)
    decreases |ops|
  {
    hide Tiles, Free;
    if ops != [] {
      match ops[0] {
        case AllocOp(length) => AllocTiles(m, length, 0);
        case FreeOp(i) => if i < |m.live| {
          NothingToFree(m, i);
        }
      }
      EmptyMemory(Do(m, ops[0]), ops[1..]);
    }
  }

  /** From the start, over every run that frees no block of length 0: the free list is
      in address order at every point if and only if every block that is freed lies in
      front of all blocks free by then. */
  lemma RunInOrderExactly(size: nat, ops: seq<Op>)
    requires FreesNonEmpty(Start(size), ops)
    ensures AlwaysSorted(Start(size), ops) <==> FreesInFront(Start(size), ops)
  {
    hide Tiles, AlwaysSorted, FreesInFront, FreesNonEmpty;
    StartTiles(size);
    if size == 0 {
      EmptyMemory(Start(size), ops);
    } else {
      OrderExactly(Start(size), ops, size);
    }
  }

  /** So memory that is all free again need not be one block: two blocks freed in
      the order of their addresses are not merged, and their sum cannot be
      allocated. */
  lemma FreedButNotMerged()
    ensures var m := Run(Start(2), [AllocOp(1), AllocOp(1), FreeOp(0), FreeOp(0)]);
            m == Mem([Block(1, 1), Block(0, 1)], []) && Alloc(m, 2).1 == None
  {
    var m1 := Do(Start(2), AllocOp(1));
    assert m1 == Mem([Block(1, 1)], [Block(0, 1)]);
    var m2 := Do(m1, AllocOp(1));
    assert m2 == Mem([], [Block(0, 1), Block(1, 1)]);
    var m3 := Do(m2, FreeOp(0));
    assert m3 == Mem([Block(0, 1)], [Block(1, 1)]);
    var m4 := Do(m3, FreeOp(0));
    assert m4 == Mem([Block(1, 1), Block(0, 1)], []);
    var ops := [AllocOp(1), AllocOp(1), FreeOp(0), FreeOp(0)];
    assert ops[1..] == [AllocOp(1), FreeOp(0), FreeOp(0)];
    assert ops[1..][1..] == [FreeOp(0), FreeOp(0)];
    assert ops[1..][1..][1..] == [FreeOp(0)];
  }

  lemma ThreeHandedOut()
    ensures Run(Start(3), [AllocOp(1), AllocOp(1), AllocOp(1)]) == Mem([], [Block(0, 1), Block(1, 1), Block(2, 1)])
  {
  }

  /** From there, freed in the order of their addresses: the third block is merged
      although it lies behind the others, as the list is out of order by then. */
  lemma MergedBehind()
    ensures Run(Mem([], [Block(0, 1), Block(1, 1), Block(2, 1)]), [FreeOp(0), FreeOp(0), FreeOp(0)])
         == Mem([Block(1, 2), Block(0, 1)], [])
  {
  }

  /** A run that leaves all memory free, with a block of length 0 handed out inside it. */
  lemma EmptyBlockInside()
    ensures Run(Start(5), [AllocOp(1), AllocOp(0), FreeOp(0)]) == Mem([Block(0, 5)], [Block(1, 0)])
  {
  }

  /** From there, the memory around the empty block is handed out. */
  lemma EmptyBlockSurrounded()
    ensures Run(Mem([Block(0, 5)], [Block(1, 0)]), [AllocOp(3), AllocOp(2)])
         == Mem([], [Block(1, 0), Block(0, 3), Block(3, 2)])
  {
  }

  /** Then: freed first, the empty block lets a block that is freed behind others
      be merged, with the list in order. */
  lemma EmptyBlockBehind()
    ensures var m := Run(Mem([], [Block(1, 0), Block(0, 3), Block(3, 2)]), [FreeOp(0), FreeOp(0)]);
            && m == Mem([Block(0, 3), Block(1, 0)], [Block(3, 2)]) && !InFront(m, FreeOp(0))
            && Do(m, FreeOp(0)) == Mem([Block(0, 5), Block(1, 0)], [])
  {
  }
}
