/**
 The packet memory allocator: a singly linked list of free handles, searched
 first-fit, split on allocation and merged with list neighbours on free.
 */
module PacketMem {
  import opened Basics
  import opened MemSpec

  class Handle {
    var base: nat
    var len: nat
    var next: Handle?

    constructor (base: nat, len: nat, next: Handle?)
      ensures this.base == base && this.len == len && this.next == next
    {
      this.base, this.len, this.next := base, len, next;
    }
  }

  function NodeAt(xs: seq<Handle>, i: int): Handle? {
    if 0 <= i < |xs| then xs[i] else null
  }

  /** `head` and the links of the nodes spell the list `xs`. */
  ghost predicate Sll(head: Handle?, xs: seq<Handle>)
    reads xs`next
  {
    head == NodeAt(xs, 0) && forall i {:trigger xs[i].next} :: 0 <= i < |xs| ==> xs[i].next == NodeAt(xs, i + 1)
  }

  /** The handles carry the blocks `bs`. */
  ghost predicate Match(xs: seq<Handle>, bs: seq<Block>)
    reads xs`base, xs`len
  {
    |xs| == |bs| && forall i :: 0 <= i < |xs| ==> xs[i].base == bs[i].base && xs[i].len == bs[i].len
  }

  lemma ApartInserted(xs: seq<Handle>, p: nat, h: Handle)
    requires NoDup(xs) && h !in xs && p <= |xs|
    ensures NoDup(Inserted(xs, p, h))
  {
    var ys := Inserted(xs, p, h);
    assert forall i :: 0 <= i < |ys| ==> ys[i] == if i < p then xs[i] else if i == p then h else xs[i - 1];
  }

  lemma ApartRemoved(xs: seq<Handle>, p: nat)
    requires NoDup(xs) && p < |xs|
    ensures NoDup(Removed(xs, p)) && xs[p] !in Removed(xs, p)
    ensures forall h :: h in Removed(xs, p) ==> h in xs
  {
    var ys := Removed(xs, p);
    assert forall i :: 0 <= i < |ys| ==> ys[i] == if i < p then xs[i] else xs[i + 1];
  }

  lemma MatchInserted(xs: seq<Handle>, bs: seq<Block>, p: nat, h: Handle)
    requires Match(xs, bs) && p <= |xs|
    ensures Match(Inserted(xs, p, h), Inserted(bs, p, Block(h.base, h.len)))
  {
  }

  lemma MatchRemoved(xs: seq<Handle>, bs: seq<Block>, p: nat)
    requires Match(xs, bs) && p < |xs|
    ensures Match(Removed(xs, p), Removed(bs, p))
  {
  }

  lemma SllInserted(xs: seq<Handle>, p: nat, h: Handle, head: Handle?)
    requires p <= |xs| && h.next == NodeAt(xs, p)
    requires forall i {:trigger xs[i].next} :: 0 <= i < |xs| ==>
               xs[i].next == if i == p - 1 then h else NodeAt(xs, i + 1)
    requires head == if p == 0 then h else NodeAt(xs, 0)
    ensures Sll(head, Inserted(xs, p, h))
  {
    var ys := Inserted(xs, p, h);
    assert forall i :: 0 <= i < |ys| ==> ys[i] == if i < p then xs[i] else if i == p then h else xs[i - 1];
  }

  lemma SllRemoved(xs: seq<Handle>, p: nat, head: Handle?)
    requires p < |xs|
    requires forall i {:trigger xs[i].next} :: 0 <= i < |xs| && i != p ==>
               xs[i].next == NodeAt(xs, if i == p - 1 then p + 1 else i + 1)
    requires head == NodeAt(xs, if p == 0 then 1 else 0)
    ensures Sll(head, Removed(xs, p))
  {
    var ys := Removed(xs, p);
    assert forall i :: 0 <= i < |ys| ==> ys[i] == if i < p then xs[i] else xs[i + 1];
  }

  class Allocator {
    var freelist: Handle?

    /** The handles of the free and of the handed-out blocks, and the blocks. */
    ghost var free: seq<Handle>
    ghost var live: seq<Handle>
    ghost var spec: Mem

    ghost predicate Valid()
      reads this, free, live
    {
      && Sll(freelist, free) && NoDup(free) && NoDup(live) && (forall i :: 0 <= i < |live| ==> live[i] !in free)
      && Match(free, spec.free) && Match(live, spec.live)
    }

    constructor (size: nat)
      ensures Valid() && spec == Start(size)
      ensures forall i :: 0 <= i < |free| ==> fresh(free[i])
    {
      var h := new Handle(0, size, null);
      freelist, free, live, spec := h, [h], [], Start(size);
    }

    /** The first free handle that is long enough and the one before it. */
    method FindFit(length: nat) returns (prev: Handle?, ph: Handle?)
      requires Valid()
      ensures var i := FirstFit(spec.free, length); prev == NodeAt(free, i - 1) && ph == NodeAt(free, i)
    {
      prev, ph := null, freelist;
      ghost var i := 0;
      while ph != null && ph.len < length
        invariant 0 <= i <= |free| && prev == NodeAt(free, i - 1) && ph == NodeAt(free, i)
        invariant forall j :: 0 <= j < i ==> spec.free[j].len < length
        decreases |free| - i
      {
        prev, ph := ph, ph.next;
        i := i + 1;
      }
      FitIs(spec.free, length, i);
    }

    /** Where a freed handle goes: before the handle `ph`, behind `prev`. */
    method FindPlace(base: nat) returns (prev: Handle?)
      requires Valid()
      ensures prev == NodeAt(free, PlaceFrom(spec.free, base, 0) - 1)
    {
      prev := null;
      var ph := freelist;
      ghost var i := 0;
      while ph != null && ph.next != null && ph.next.base < base
        invariant 0 <= i <= |free| && prev == NodeAt(free, i - 1) && ph == NodeAt(free, i)
        invariant PlaceFrom(spec.free, base, 0) == PlaceFrom(spec.free, base, i)
        decreases |free| - i
      {
        prev, ph := ph, ph.next;
        i := i + 1;
      }
    }

    /** Hands out a free block as it is. */
    method TakeOut(prev: Handle?, ph: Handle, ghost i: nat)
      requires Valid() && i < |free| && ph == free[i] && prev == NodeAt(free, i - 1)
      modifies this, free`next
      ensures Valid() && live == old(live) + [ph]
      ensures spec == Mem(Removed(old(spec).free, i), old(spec).live + [old(spec).free[i]])
    {
      hide Removed;
      ghost var (xs, bs) := (free, spec.free);
      if prev == null {
        freelist := ph.next;
      } else {
        prev.next := ph.next;
      }
      SllRemoved(xs, i, freelist);
      ApartRemoved(xs, i);
      MatchRemoved(xs, bs, i);
      free, live, spec := Removed(xs, i), live + [ph], Mem(Removed(bs, i), spec.live + [bs[i]]);
    }

    /** Hands out the front of a free block. */
    method Split(ph: Handle, length: nat, ghost i: nat) returns (handle: Handle)
      requires Valid() && i < |free| && ph == free[i] && length < ph.len
      modifies this, ph`base, ph`len
      ensures Valid() && live == old(live) + [handle] && handle.base == old(ph.base) && handle.len == length
      ensures var (bs, b) := (old(spec).free, old(spec).free[i]);
              spec == Mem(bs[i := Block(b.base + length, b.len - length)], old(spec).live + [Block(b.base, length)])
    {
      handle := new Handle(ph.base, length, null);
      ph.base := ph.base + length;
      ph.len := ph.len - length;
      live := live + [handle];
      ghost var b := spec.free[i];
      spec := Mem(spec.free[i := Block(b.base + length, b.len - length)], spec.live + [Block(b.base, length)]);
    }

    /** Hands out the first block that fits, split if it is longer; splitting
        needs a new handle. */
    method PacketmemAlloc(length: nat, handles: bool) returns (rc: int, off: nat, handle: Handle?)
      requires Valid()
      modifies this, free`base, free`len, free`next
      ensures Valid()
      ensures var (m, got) := Alloc(old(spec), length);
              && (rc == 0 ==>
                    && got.Some? && spec == m && off == got.value.base && handle != null
                    && live == old(live) + [handle] && handle.base == off && handle.len == length)
              && (rc != 0 ==> spec == old(spec) && (got.Some? ==> !handles))
      ensures handles ==> (rc == 0 <==> exists i :: 0 <= i < |old(spec).free| && old(spec).free[i].len >= length)
    {
      hide FirstFit, Removed, Sll, NoDup;
      var prev, ph := FindFit(length);
      ghost var i := FirstFit(spec.free, length);
      if ph == null {
        return -1, 0, null;
      }
      assert spec.free[i].len >= length;
      if ph.len == length {
        TakeOut(prev, ph, i);
        return 0, ph.base, ph;
      }
      if !handles {
        return -1, 0, null;
      }
      var h := Split(ph, length, i);
      return 0, h.base, h;
    }

    /** Puts a handle into the free list behind `prev`. */
    method LinkIn(prev: Handle?, handle: Handle, ghost i: nat, ghost p: nat)
      requires Valid() && i < |live| && handle == live[i] && p <= |free| && prev == NodeAt(free, p - 1)
      modifies this, free`next, handle`next
      ensures Valid() && live == Removed(old(live), i)
      ensures |free| == |old(free)| + 1 && free[p] == handle && NodeAt(free, p - 1) == prev
      ensures forall k :: 0 <= k < |free| ==> free[k] == handle || free[k] in old(free)
      ensures spec == Mem(Inserted(old(spec).free, p, old(spec).live[i]), Removed(old(spec).live, i))
    {
      hide Inserted, Removed;
      ghost var (xs, ls) := (free, live);
      assert spec.live[i] == Block(handle.base, handle.len);
      if prev == null {
        handle.next := freelist;
        freelist := handle;
      } else {
        handle.next := prev.next;
        prev.next := handle;
      }
      SllInserted(xs, p, handle, freelist);
      ApartInserted(xs, p, handle);
      MatchInserted(xs, spec.free, p, handle);
      ApartRemoved(ls, i);
      MatchRemoved(ls, spec.live, i);
      free, live := Inserted(xs, p, handle), Removed(ls, i);
      spec := Mem(Inserted(spec.free, p, spec.live[i]), Removed(spec.live, i));
      StillApart(xs, ls, p, i);
      InsertedNodes(xs, p, handle);
    }

    /** A handle swallows the next one in the list. */
    method Swallow(ph: Handle, next: Handle, ghost i: nat)
      requires Valid() && i + 1 < |free| && ph == free[i] && next == free[i + 1]
      modifies this, ph`len, ph`next
      ensures Valid() && live == old(live)
      ensures |free| == |old(free)| - 1 && free[i] == ph && forall k :: 0 <= k < |free| ==> free[k] in old(free)
      ensures spec == old(spec).(free := Merged(old(spec).free, i))
    {
      ghost var (xs, bs) := (free, spec.free);
      ph.len := ph.len + next.len;
      ph.next := next.next;
      SllRemoved(xs, i + 1, freelist);
      ApartRemoved(xs, i + 1);
      MatchMerged(xs, bs, i);
      free, spec := Removed(xs, i + 1), spec.(free := Merged(bs, i));
    }

    /** Merges a handle with the next one if their blocks adjoin. */
    method MergeNext(ph: Handle, ghost i: nat)
      requires Valid() && i < |free| && ph == free[i]
      modifies this, ph`len, ph`next
      ensures Valid() && live == old(live) && spec == old(spec).(free := MergedIf(old(spec).free, i))
    {
      hide Merged, Removed, NoDup;
      var next := ph.next;
      if next != null && ph.base + ph.len == next.base {
        Swallow(ph, next, i);
      }
    }

    /** Merges the handle behind `prev` with its neighbours in the list. */
    method MergeItems(prev: Handle?, ghost p: nat)
      requires Valid() && p < |free| && prev == NodeAt(free, p - 1)
      modifies this, free`len, free`next
      ensures Valid() && live == old(live)
      ensures var cs := old(spec).free;
              spec == old(spec).(free := if p == 0 then MergedIf(cs, 0)
                                         else if Adjoins(cs[p - 1], cs[p]) then MergedIf(Merged(cs, p - 1), p - 1)
                                         else MergedIf(cs, p))
    {
      hide Merged, MergedIf, Removed, NoDup;
      if prev == null {
        MergeNext(freelist, 0);
      } else {
        var ph := prev.next;
        if prev.base + prev.len == ph.base {
          Swallow(prev, ph, p - 1);
          MergeNext(prev, p - 1);
        } else {
          MergeNext(ph, p);
        }
      }
    }

    /** Takes back a block that is handed out. */
    method PacketmemFree(handle: Handle, ghost i: nat)
      requires Valid() && i < |live| && live[i] == handle
      modifies this, free`len, free`next, handle`next, handle`len
      ensures Valid() && spec == Free(old(spec), i) && live == Removed(old(live), i)
    {
      hide Removed, Inserted;
      ghost var p := PlaceFrom(spec.free, handle.base, 0);
      var prev := FindPlace(handle.base);
      LinkIn(prev, handle, i, p);
      MergeItems(prev, p);
    }
  }

  lemma InsertedNodes(xs: seq<Handle>, p: nat, h: Handle)
    requires p <= |xs|
    ensures var ys := Inserted(xs, p, h);
            && ys[p] == h && NodeAt(ys, p - 1) == NodeAt(xs, p - 1)
            && forall k :: 0 <= k < |ys| ==> ys[k] == h || ys[k] in xs
  {
    var ys := Inserted(xs, p, h);
    assert forall k :: 0 <= k < |ys| ==> ys[k] == if k < p then xs[k] else if k == p then h else xs[k - 1];
  }

  lemma StillApart(xs: seq<Handle>, ls: seq<Handle>, p: nat, i: nat)
    requires NoDup(ls) && i < |ls| && p <= |xs| && forall k :: 0 <= k < |ls| ==> ls[k] !in xs
    ensures forall k :: 0 <= k < |ls| - 1 ==> Removed(ls, i)[k] !in Inserted(xs, p, ls[i])
  {
    var (ys, ms) := (Inserted(xs, p, ls[i]), Removed(ls, i));
    forall k | 0 <= k < |ms| ensures ms[k] !in ys {
      assert ms[k] == if k < i then ls[k] else ls[k + 1];
    }
  }

  lemma MatchMerged(xs: seq<Handle>, bs: seq<Block>, i: nat)
    requires |xs| == |bs| && i + 1 < |xs|
    requires forall k :: 0 <= k < |xs| ==>
               xs[k].base == bs[k].base && xs[k].len == if k == i then bs[i].len + bs[i + 1].len else bs[k].len
    ensures Match(Removed(xs, i + 1), Merged(bs, i))
  {
    var ys := Removed(xs, i + 1);
    assert forall k :: 0 <= k < |ys| ==> ys[k] == if k <= i then xs[k] else xs[k + 1];
  }

  lemma FitIs(bs: seq<Block>, length: nat, i: nat)
    requires i <= |bs| && (forall j :: 0 <= j < i ==> bs[j].len < length) && (i < |bs| ==> bs[i].len >= length)
    ensures FirstFit(bs, length) == i
  {
    hide FirstFit;
    var k := FirstFit(bs, length);
    assert !(k < i);
    assert !(i < k);
  }
}
