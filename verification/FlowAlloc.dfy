/**
 When an allocation in the flow table succeeds, and with which slot: said of the slots
 and their displacements, not of the search.
 */
module FlowAlloc {
  import opened Basics
  import opened FlowTable
  import FlowIds

  /** The `n` slots from `j` on are all taken. */
  predicate AllTaken(t: Table, j: nat, n: nat)
    requires |t| == ENTRIES && j < ENTRIES
  {
    forall x :: 0 <= x < ENTRIES && Dist(j, x) < n ==> t[x].valid
  }

  /** Slot `i` is the first free one from `j` on. */
  predicate NearestFree(t: Table, j: nat, i: nat)
    requires |t| == ENTRIES && j < ENTRIES
  {
    i < ENTRIES && !t[i].valid && AllTaken(t, j, Dist(j, i))
  }

  /** By its displacement, the entry in slot `x` may go up to slot `k`. */
  predicate MayGoTo(t: Table, x: nat, k: nat)
    requires |t| == ENTRIES && x < ENTRIES && k < ENTRIES
  {
    0 < Dist(x, k) && t[x].disp + Dist(x, k) < NBSZ
  }

  /** The entry in slot `m` may go up to slot `k`, and none from further below may. */
  predicate Farthest(t: Table, m: nat, k: nat)
    requires |t| == ENTRIES && k < ENTRIES
  {
    && m < ENTRIES && MayGoTo(t, m, k)
    && forall x :: 0 <= x < ENTRIES && Dist(x, k) > Dist(m, k) ==> !MayGoTo(t, x, k)
  }

  /** The hole in slot `i` cannot be brought into the neighbourhood of `j`: filled again
      and again from as far below as an entry may come, it gets to a slot into which no
      entry may go. */
  ghost predicate Blocked(t: Table, j: nat, i: nat, recompute: bool)
    requires TableOk(t) && i < ENTRIES && j < ENTRIES
    decreases Dist(j, i)
  {
    && Dist(j, i) >= NBSZ
    && ((forall x :: 0 <= x < ENTRIES ==> !MayGoTo(t, x, i)) ||
        (exists m :: Farthest(t, m, i) && Dist(j, m) < Dist(j, i)
                     && TableOk(Move(t, m, i, recompute)) && Blocked(Move(t, m, i, recompute), j, m, recompute)))
  }

  /** No slot can be had for a flow whose home is `j`. */
  ghost predicate Refused(t: Table, j: nat, recompute: bool)
    requires TableOk(t) && j < ENTRIES
  {
    || AllTaken(t, j, 5 * NBSZ)
    || (exists i :: NearestFree(t, j, i) && NBSZ <= Dist(j, i) < 5 * NBSZ && Blocked(t, j, i, recompute))
  }

  lemma {:induction false} FirstMovableIs(t: Table, i: nat, k: nat, x: nat)
    requires TableOk(t) && i < ENTRIES && k < ENTRIES && x < ENTRIES && Dist(i, k) <= NBSZ
    requires 0 < Dist(x, k) <= Dist(i, k)
    ensures match FirstMovable(t, i, k)
            case None => !MayGoTo(t, x, k)
            case Some(m) => MayGoTo(t, m, k) && (Dist(x, k) > Dist(m, k) ==> !MayGoTo(t, x, k))
    decreases Dist(i, k)
  {
    if i != k && !Movable(t, i, k) && x != i {
      FirstMovableIs(t, Up(i, 1), k, x);
    }
  }

  /** The search for an entry to move finds the farthest, or there is none. */
  lemma SearchExactly(t: Table, k: nat)
    requires TableOk(t) && k < ENTRIES
    ensures match FirstMovable(t, Reach(k), k)
            case None => forall x :: 0 <= x < ENTRIES ==> !MayGoTo(t, x, k)
            case Some(m) => Farthest(t, m, k)
  {
    hide FirstMovable;
    forall x | 0 <= x < ENTRIES
      ensures match FirstMovable(t, Reach(k), k)
              case None => !MayGoTo(t, x, k)
              case Some(m) => Dist(x, k) > Dist(m, k) ==> !MayGoTo(t, x, k)
    {
      if 0 < Dist(x, k) <= NBSZ {
        FirstMovableIs(t, Reach(k), k, x);
      }
    }
    FirstMovableIs(t, Reach(k), k, Reach(k));
  }

  lemma FarthestUnique(t: Table, m: nat, n: nat, k: nat)
    requires |t| == ENTRIES && k < ENTRIES && Farthest(t, m, k) && Farthest(t, n, k)
    ensures m == n
  {
  }

  lemma {:induction false} SettleRefusedExactly(t: Table, j: nat, i: nat, recompute: bool)
    requires TableOk(t) && i < ENTRIES && j < ENTRIES && !t[i].valid && Packed(t, j, i)
    ensures Settle(t, j, i, recompute).1.None? <==> Blocked(t, j, i, recompute)
    decreases Dist(j, i)
  {
    hide Dist, FirstMovable, Packed, Move, MayGoTo, Farthest, Movable;
    if Dist(j, i) >= NBSZ {
      SearchExactly(t, i);
      match FirstMovable(t, Reach(i), i)
      case None =>
      case Some(m) =>
        CandidateBelow(t, j, m, i);
        MoveOk(t, m, i, recompute);
        MovePacked(t, j, m, i, recompute);
        SettleRefusedExactly(Move(t, m, i, recompute), j, m, recompute);
        FarthestMay(t, m, i);
        forall n | Farthest(t, n, i) ensures n == m {
          FarthestUnique(t, m, n, i);
        }
    }
  }

  lemma FarthestMay(t: Table, m: nat, k: nat)
    requires |t| == ENTRIES && k < ENTRIES && Farthest(t, m, k)
    ensures m < ENTRIES && MayGoTo(t, m, k)
  {
  }

  /** A free slot in the neighbourhood is taken at once: the nearest to home, with the
      table as it is. */
  lemma AllocNearest(t: Table, h: nat, recompute: bool, i: nat)
    requires TableOk(t) && NearestFree(t, Home(h), i) && Dist(Home(h), i) < NBSZ
    ensures Alloc(t, h, recompute) == (t, Some(i))
  {
    hide Settle;
    var j := Home(h);
    var r := FirstFree(t, j, NBSZ);
    assert r.Some?;
    assert Dist(j, r.value) == Dist(j, i);
  }

  lemma NearestIs(t: Table, j: nat, i: nat)
    requires |t| == ENTRIES && j < ENTRIES
    requires FirstFree(t, j, NBSZ).None? && FirstFree(t, Up(j, NBSZ), 4 * NBSZ) == Some(i)
    ensures NearestFree(t, j, i) && NBSZ <= Dist(j, i) < 5 * NBSZ
    ensures forall x :: NearestFree(t, j, x) ==> x == i
  {
    FarPacked(t, j, i);
    HoleIsFar(t, j, i);
    forall x | NearestFree(t, j, x) ensures x == i {
      assert Dist(j, x) == Dist(j, i);
    }
  }

  lemma AllTakenFar(t: Table, j: nat)
    requires |t| == ENTRIES && j < ENTRIES && FirstFree(t, j, NBSZ).None?
    ensures AllTaken(t, j, 5 * NBSZ) <==> FirstFree(t, Up(j, NBSZ), 4 * NBSZ).None?
  {
    var l := Up(j, NBSZ);
    forall x | 0 <= x < ENTRIES && Dist(j, x) >= NBSZ ensures Dist(j, x) == NBSZ + Dist(l, x) {
    }
  }

  /** An allocation is refused if and only if all of the twenty slots from home are taken
      or the nearest free one of them is blocked. */
  lemma AllocRefusedExactly(t: Table, h: nat, recompute: bool)
    requires TableOk(t)
    ensures Alloc(t, h, recompute).1.None? <==> Refused(t, Home(h), recompute)
  {
    hide Dist, Home, Settle, Blocked, AllTaken, NearestFree, Packed;
    var j := Home(h);
    match FirstFree(t, j, NBSZ)
    case Some(i) =>
      NotRefused(t, j, i, recompute);
    case None =>
      AllTakenFar(t, j);
      match FirstFree(t, Up(j, NBSZ), 4 * NBSZ)
      case None =>
      case Some(i) =>
        FarPacked(t, j, i);
        NearestIs(t, j, i);
        SettleRefusedExactly(t, j, i, recompute);
  }

  lemma NotRefused(t: Table, j: nat, i: nat, recompute: bool)
    requires TableOk(t) && j < ENTRIES && i < ENTRIES && !t[i].valid && Dist(j, i) < NBSZ
    ensures !Refused(t, j, recompute)
  {
    hide Blocked;
  }

  /** Registering a flow fails if and only if it is refused a slot. Otherwise the flow is
      in the table, in the neighbourhood of its home and with its displacement, beside
      exactly the flows that were there; a refused flow is not, and they still are. */
  lemma AddedExactly(t: Table, fid: nat, hash: nat, recompute: bool, f: nat, h: nat)
    requires TableOk(t)
    ensures var (t', ok) := Added(t, fid, hash, recompute);
            && (ok <==> !Refused(t, Home(hash), recompute))
            && (Holds(t', f, h) <==> Holds(t, f, h) || (ok && f == fid && h == hash))
            && (ok ==> exists x :: 0 <= x < ENTRIES && Dist(Home(hash), x) < NBSZ
                                   && t'[x] == Slot(true, Dist(Home(hash), x), fid, hash))
  {
    hide Dist, Home, Holds, Alloc, Refused, TableOk;
    AllocRefusedExactly(t, hash, recompute);
    AllocHolds(t, hash, recompute, f, h);
    var r := Alloc(t, hash, recompute);
    match r.1
    case None =>
    case Some(i) =>
      InsertFlow(r.0, i, fid, hash, f, h);
      OkLength(r.0);
      var t' := Added(t, fid, hash, recompute).0;
      assert t'[i] == Slot(true, Dist(Home(hash), i), fid, hash);
  }

  lemma OkLength(t: Table)
    requires TableOk(t)
    ensures |t| == ENTRIES
  {
  }

  /** In particular, with its home slot free a flow is registered there. */
  lemma HomeFree(t: Table, fid: nat, hash: nat, recompute: bool)
    requires TableOk(t) && !t[Home(hash)].valid
    ensures Added(t, fid, hash, recompute) == (t[Home(hash) := Slot(true, 0, fid, hash)], true)
  {
    AllocNearest(t, hash, recompute, Home(hash));
  }

  /** A connection is set up, under the first free id, if and only if there is a free id
      and its flow is not refused a slot; otherwise no id is used up and the flows in use
      stay as they are. */
  lemma ConnectExactly(c: FlowIds.Conns, hash: nat, recompute: bool)
    requires TableOk(c.t)
    ensures var c' := FlowIds.Do(c, FlowIds.Connect(hash), recompute);
            if c.free != [] && !Refused(c.t, Home(hash), recompute)
            then && c'.free == c.free[1..] && c'.reg == c.reg + {(c.free[0], hash)}
                 && Holds(c'.t, c.free[0], hash)
            else && c'.free == c.free && c'.reg == c.reg
                 && forall f: nat, h: nat :: Holds(c'.t, f, h) <==> Holds(c.t, f, h)
  {
    hide Home, Holds, Added, Refused, TableOk;
    if c.free != [] {
      AddedExactly(c.t, c.free[0], hash, recompute, c.free[0], hash);
      forall f: nat, h: nat
        ensures Refused(c.t, Home(hash), recompute) ==>
                  (Holds(Added(c.t, c.free[0], hash, recompute).0, f, h) <==> Holds(c.t, f, h))
      {
        AddedExactly(c.t, c.free[0], hash, recompute, f, h);
      }
    }
  }
}
