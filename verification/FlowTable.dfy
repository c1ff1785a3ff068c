/**
 The flow lookup table: hopscotch hashing with a neighbourhood of four slots. A
 flow whose neighbourhood is full gets a slot by moving other flows up, hole by
 hole, until the hole is close enough.
 */
module FlowTable {
  import opened Basics

  const ENTRIES: nat := 262144
  const NBSZ: nat := 4

  /** An entry: its first word packs a valid bit, a displacement in 2 bits and the
      flow id; the second word is the hash. */
  datatype Slot = Slot(valid: bool, disp: nat, fid: nat, hash: nat)

  type Table = seq<Slot>

  predicate TableOk(t: Table) {
    |t| == ENTRIES && forall i :: 0 <= i < |t| ==> t[i].disp < NBSZ
  }

  /* ---------- positions around the table ---------- */

  function Up(i: nat, k: nat): (r: nat)
    requires i < ENTRIES && k <= ENTRIES
    ensures r == if i + k < ENTRIES then i + k else i + k - ENTRIES
  {
    (i + k) % ENTRIES
  }

  /** How far slot `j` is above slot `i`, computed in unsigned 32-bit arithmetic. */
  function Dist(i: nat, j: nat): (r: nat)
    requires i < ENTRIES && j < ENTRIES
    ensures r == if j >= i then j - i else j + ENTRIES - i
  {
    ((j - i) % U32) % ENTRIES
  }

  function Home(hash: nat): (h: nat)
    ensures h < ENTRIES
  {
    hash % ENTRIES
  }

  /** How far the entry in slot `i` is from its home. */
  function Far(t: Table, i: nat): nat
    requires |t| == ENTRIES && i < ENTRIES
  {
    Dist(Home(t[i].hash), i)
  }

  /* ---------- finding and making room ---------- */

  /** The first free one of the `n` slots from `i` on. */
  function FirstFree(t: Table, i: nat, n: nat): (r: Option<nat>)
    requires |t| == ENTRIES && i < ENTRIES && n < ENTRIES
    ensures r.Some? ==> r.value < ENTRIES && !t[r.value].valid && Dist(i, r.value) < n
    ensures var m := if r.Some? then Dist(i, r.value) else n;
            forall x :: 0 <= x < ENTRIES && Dist(i, x) < m ==> t[x].valid
    decreases n
  {
    if n == 0 then None
    else if !t[i].valid then Some(i)
    else
      var r := FirstFree(t, Up(i, 1), n - 1);
      assert forall x :: 0 <= x < ENTRIES && x != i ==> Dist(i, x) == Dist(Up(i, 1), x) + 1;
      r
  }

  /** The entry in slot `i` says that it can be moved up to `k`. */
  predicate Movable(t: Table, i: nat, k: nat)
    requires TableOk(t) && i < ENTRIES && k < ENTRIES
  {
    Dist(i, k) <= NBSZ - 1 - t[i].disp
  }

  /** The first slot from `i` up to `k` whose entry can be moved to `k`. */
  function FirstMovable(t: Table, i: nat, k: nat): (r: Option<nat>)
    requires TableOk(t) && i < ENTRIES && k < ENTRIES
    ensures r.Some? ==> r.value < ENTRIES && 0 < Dist(r.value, k) <= Dist(i, k) && Movable(t, r.value, k)
    decreases Dist(i, k)
  {
    if i == k then None
    else if Movable(t, i, k) then Some(i)
    else FirstMovable(t, Up(i, 1), k)
  }

  /** Moves the entry in slot `i` to slot `k`. The code copies the displacement as
      it is; `recompute` adds the distance moved to it. */
  function Move(t: Table, i: nat, k: nat, recompute: bool): Table
    requires TableOk(t) && i < ENTRIES && k < ENTRIES
  {
    var d := if recompute then t[i].disp + Dist(i, k) else t[i].disp;
    t[k := t[i].(valid := true, disp := d)][i := t[i].(valid := false, disp := 0, fid := 0)]
  }

  /** All slots from `j` up to `i` are taken. */
  predicate Packed(t: Table, j: nat, i: nat)
    requires |t| == ENTRIES && i < ENTRIES && j < ENTRIES
  {
    forall x :: 0 <= x < ENTRIES && Dist(j, x) < Dist(j, i) ==> t[x].valid
  }

  lemma MoveOk(t: Table, i: nat, k: nat, recompute: bool)
    requires TableOk(t) && i < ENTRIES && k < ENTRIES && i != k && Movable(t, i, k)
    ensures TableOk(Move(t, i, k, recompute)) && !Move(t, i, k, recompute)[i].valid
  {
  }

  lemma MovePacked(t: Table, j: nat, i: nat, k: nat, recompute: bool)
    requires TableOk(t) && i < ENTRIES && k < ENTRIES && j < ENTRIES
    requires Packed(t, j, k) && Dist(j, i) < Dist(j, k)
    ensures Packed(Move(t, i, k, recompute), j, i)
  {
  }

  /** The lowest slot from which an entry could be moved to `k`. */
  function Reach(k: nat): (r: nat)
    requires k < ENTRIES
    ensures r < ENTRIES && Dist(r, k) == NBSZ
  {
    ((k - NBSZ) % U32) % ENTRIES
  }

  /** Moves the hole in slot `i` down until it is in the neighbourhood of `j`. */
  function Settle(t: Table, j: nat, i: nat, recompute: bool): (r: (Table, Option<nat>))
    requires TableOk(t) && i < ENTRIES && j < ENTRIES && !t[i].valid && Packed(t, j, i)
    ensures TableOk(r.0)
    ensures r.1.Some? ==> r.1.value < ENTRIES && !r.0[r.1.value].valid && Dist(j, r.1.value) < NBSZ
    decreases Dist(j, i)
  {
    if Dist(j, i) < NBSZ then (t, Some(i))
    else
      match FirstMovable(t, Reach(i), i)
      case None => (t, None)
      case Some(m) =>
        MoveOk(t, m, i, recompute);
        MovePacked(t, j, m, i, recompute);
        Settle(Move(t, m, i, recompute), j, m, recompute)
  }

  /** A slot for a flow with hash `h`, and the table with that slot free; no slot
      if none is free within 20 slots or no entry can be moved. */
  function Alloc(t: Table, h: nat, recompute: bool): (r: (Table, Option<nat>))
    requires TableOk(t)
    ensures TableOk(r.0)
    ensures r.1.Some? ==> r.1.value < ENTRIES && !r.0[r.1.value].valid && Dist(Home(h), r.1.value) < NBSZ
  {
    var j := Home(h);
    match FirstFree(t, j, NBSZ)
    case Some(i) => (t, Some(i))
    case None =>
      var l := Up(j, NBSZ);
      match FirstFree(t, l, 4 * NBSZ)
      case None => (t, None)
      case Some(i) =>
        assert Packed(t, j, i) by {
          FarPacked(t, j, i);
        }
        Settle(t, j, i, recompute)
  }

  lemma FarPacked(t: Table, j: nat, i: nat)
    requires |t| == ENTRIES && j < ENTRIES && i < ENTRIES
    requires FirstFree(t, j, NBSZ).None? && FirstFree(t, Up(j, NBSZ), 4 * NBSZ) == Some(i)
    ensures Packed(t, j, i)
  {
    forall x | 0 <= x < ENTRIES && Dist(j, x) < Dist(j, i) ensures t[x].valid {
      if Dist(j, x) >= NBSZ {
        assert Dist(Up(j, NBSZ), x) == Dist(j, x) - NBSZ;
      }
    }
  }

  /** The first of the `n` slots from `i` on that holds flow `fid`. */
  function FindFlow(t: Table, i: nat, n: nat, fid: nat, hash: nat): (r: Option<nat>)
    requires |t| == ENTRIES && i < ENTRIES && n < ENTRIES
    ensures r.Some? ==> r.value < ENTRIES && IsFlow(t[r.value], fid, hash)
    decreases n
  {
    if n == 0 then None
    else if IsFlow(t[i], fid, hash) then Some(i)
    else FindFlow(t, Up(i, 1), n - 1, fid, hash)
  }

  predicate IsFlow(s: Slot, fid: nat, hash: nat) {
    s.valid && s.hash == hash && s.fid == fid
  }

  /** Takes flow `fid` out of the table, if it is in the neighbourhood of its home. */
  function Clear(t: Table, fid: nat, hash: nat): Table
    requires |t| == ENTRIES
  {
    match FindFlow(t, Home(hash), NBSZ, fid, hash)
    case None => t
    case Some(i) => t[i := t[i].(valid := false)]
  }

  /* ---------- what is kept ---------- */

  /** Every flow is in the neighbourhood of its home, so a lookup finds it. */
  predicate Findable(t: Table)
    requires |t| == ENTRIES
  {
    forall i :: 0 <= i < ENTRIES && t[i].valid ==> Far(t, i) < NBSZ
  }

  /** Every displacement stored is the distance from home. */
  predicate Consistent(t: Table)
    requires |t| == ENTRIES
  {
    forall i :: 0 <= i < ENTRIES && t[i].valid ==> Far(t, i) == t[i].disp
  }

  predicate Holds(t: Table, fid: nat, hash: nat) {
    exists i :: 0 <= i < |t| && IsFlow(t[i], fid, hash)
  }

  lemma ConsistentIsFindable(t: Table)
    requires TableOk(t) && Consistent(t)
    ensures Findable(t)
  {
    forall i | 0 <= i < ENTRIES && t[i].valid ensures Far(t, i) < NBSZ {
      assert t[i].disp < NBSZ;
    }
  }

  lemma DistSum(a: nat, b: nat, c: nat)
    requires a < ENTRIES && b < ENTRIES && c < ENTRIES && Dist(a, b) + Dist(b, c) < ENTRIES
    ensures Dist(a, c) == Dist(a, b) + Dist(b, c)
  {
  }

  lemma MovedFar(t: Table, i: nat, k: nat, recompute: bool)
    requires TableOk(t) && i < ENTRIES && k < ENTRIES && i != k
    requires Far(t, i) + Dist(i, k) < ENTRIES
    ensures Far(Move(t, i, k, recompute), k) == Far(t, i) + Dist(i, k)
  {
    DistSum(Home(t[i].hash), i, k);
  }

  /** A move the code makes keeps every flow findable if and only if the entry's
      real distance from home, not the stored one, leaves room for it. */
  lemma MoveFindableExactly(t: Table, i: nat, k: nat, recompute: bool)
    requires TableOk(t) && i < ENTRIES && k < ENTRIES && i != k
    requires t[i].valid && !t[k].valid && Findable(t) && Movable(t, i, k)
    ensures Findable(Move(t, i, k, recompute)) <==> Far(t, i) + Dist(i, k) < NBSZ
  {
    hide Dist, Home;
    var t' := Move(t, i, k, recompute);
    assert Far(t, i) < NBSZ;
    MovedFar(t, i, k, recompute);
    forall x | 0 <= x < ENTRIES && x != k && t'[x].valid ensures Far(t', x) < NBSZ {
      assert t'[x] == t[x];
    }
    assert t'[k].valid;
  }

  lemma MoveHolds(t: Table, i: nat, k: nat, recompute: bool, fid: nat, hash: nat)
    requires TableOk(t) && i < ENTRIES && k < ENTRIES && i != k && t[i].valid && !t[k].valid
    ensures Holds(Move(t, i, k, recompute), fid, hash) <==> Holds(t, fid, hash)
  {
    var t' := Move(t, i, k, recompute);
    if Holds(t, fid, hash) {
      var x :| 0 <= x < |t| && IsFlow(t[x], fid, hash);
      assert IsFlow(t'[if x == i then k else x], fid, hash);
    }
    if Holds(t', fid, hash) {
      var x :| 0 <= x < |t'| && IsFlow(t'[x], fid, hash);
      assert IsFlow(t[if x == k then i else x], fid, hash);
    }
  }

  /** Every move on the hole's way leaves its entry within reach of its home. */
  predicate InRoom(t: Table, j: nat, i: nat, recompute: bool)
    requires TableOk(t) && i < ENTRIES && j < ENTRIES && !t[i].valid && Packed(t, j, i)
    decreases Dist(j, i)
  {
    Dist(j, i) < NBSZ ||
    match FirstMovable(t, Reach(i), i)
    case None => true
    case Some(m) =>
      MoveOk(t, m, i, recompute);
      MovePacked(t, j, m, i, recompute);
      Far(t, m) + Dist(m, i) < NBSZ && InRoom(Move(t, m, i, recompute), j, m, recompute)
  }

  /** Above the hole, some flow is out of reach. */
  predicate Lost(t: Table, j: nat, i: nat)
    requires |t| == ENTRIES && i < ENTRIES && j < ENTRIES
  {
    exists x :: 0 <= x < ENTRIES && Dist(j, x) > Dist(j, i) && t[x].valid && Far(t, x) >= NBSZ
  }

  lemma MoveStaysLost(t: Table, j: nat, m: nat, i: nat, recompute: bool)
    requires TableOk(t) && i < ENTRIES && j < ENTRIES && m < ENTRIES && Dist(j, m) < Dist(j, i) && Lost(t, j, i)
    ensures Lost(Move(t, m, i, recompute), j, m)
  {
    hide Dist, Home;
    var x :| 0 <= x < ENTRIES && Dist(j, x) > Dist(j, i) && t[x].valid && Far(t, x) >= NBSZ;
    assert Move(t, m, i, recompute)[x] == t[x];
  }

  /** The hole only moves down, so a flow lost above it stays lost. */
  lemma {:induction false} SettleStaysLost(t: Table, j: nat, i: nat, recompute: bool)
    requires TableOk(t) && i < ENTRIES && j < ENTRIES && !t[i].valid && Packed(t, j, i) && Lost(t, j, i)
    ensures !Findable(Settle(t, j, i, recompute).0)
    decreases Dist(j, i)
  {
    hide Dist, Home, Move, Movable, Packed;
    if Dist(j, i) >= NBSZ {
      match FirstMovable(t, Reach(i), i)
      case None =>
      case Some(m) =>
        CandidateBelow(t, j, m, i);
        MoveOk(t, m, i, recompute);
        MovePacked(t, j, m, i, recompute);
        MoveStaysLost(t, j, m, i, recompute);
        SettleStaysLost(Move(t, m, i, recompute), j, m, recompute);
    }
  }

  lemma MoveLoses(t: Table, j: nat, m: nat, i: nat, recompute: bool)
    requires TableOk(t) && i < ENTRIES && j < ENTRIES && m < ENTRIES && Dist(j, m) < Dist(j, i)
    requires t[m].valid && !t[i].valid && Findable(t) && Movable(t, m, i) && Far(t, m) + Dist(m, i) >= NBSZ
    ensures Lost(Move(t, m, i, recompute), j, m)
  {
    hide Dist, Home;
    assert Far(t, m) < NBSZ;
    MovedFar(t, m, i, recompute);
    assert Move(t, m, i, recompute)[i].valid;
  }

  /** From any table whose flows are findable, stored displacements right or wrong:
      they all stay findable if and only if every move is in room. */
  lemma {:induction false} SettleFindableExactly(t: Table, j: nat, i: nat, recompute: bool)
    requires TableOk(t) && i < ENTRIES && j < ENTRIES && !t[i].valid && Packed(t, j, i) && Findable(t)
    ensures Findable(Settle(t, j, i, recompute).0) <==> InRoom(t, j, i, recompute)
    decreases Dist(j, i)
  {
    hide Dist, Home, Move, Movable, Packed, Findable, Lost;
    if Dist(j, i) >= NBSZ {
      match FirstMovable(t, Reach(i), i)
      case None =>
      case Some(m) =>
        CandidateBelow(t, j, m, i);
        MoveOk(t, m, i, recompute);
        MovePacked(t, j, m, i, recompute);
        MoveFindableExactly(t, m, i, recompute);
        if Far(t, m) + Dist(m, i) < NBSZ {
          SettleFindableExactly(Move(t, m, i, recompute), j, m, recompute);
        } else {
          MoveLoses(t, j, m, i, recompute);
          SettleStaysLost(Move(t, m, i, recompute), j, m, recompute);
        }
    }
  }

  /** Moving the hole keeps every flow in the table, within reach or not. */
  lemma {:induction false} SettleHolds(t: Table, j: nat, i: nat, recompute: bool, fid: nat, hash: nat)
    requires TableOk(t) && i < ENTRIES && j < ENTRIES && !t[i].valid && Packed(t, j, i)
    ensures Holds(Settle(t, j, i, recompute).0, fid, hash) <==> Holds(t, fid, hash)
    decreases Dist(j, i)
  {
    hide Dist, Home, Move, Movable, Packed, Holds;
    if Dist(j, i) >= NBSZ {
      match FirstMovable(t, Reach(i), i)
      case None =>
      case Some(m) =>
        CandidateBelow(t, j, m, i);
        MoveOk(t, m, i, recompute);
        MovePacked(t, j, m, i, recompute);
        MoveHolds(t, m, i, recompute, fid, hash);
        SettleHolds(Move(t, m, i, recompute), j, m, recompute, fid, hash);
    }
  }

  /** Below the hole, stored displacements are right. */
  predicate RightBelow(t: Table, j: nat, i: nat)
    requires |t| == ENTRIES && i < ENTRIES && j < ENTRIES
  {
    forall x :: 0 <= x < ENTRIES && Dist(j, x) < Dist(j, i) && t[x].valid ==> Far(t, x) == t[x].disp
  }

  /** Above the hole, some stored displacement is wrong. */
  predicate WrongAbove(t: Table, j: nat, i: nat)
    requires |t| == ENTRIES && i < ENTRIES && j < ENTRIES
  {
    exists x :: 0 <= x < ENTRIES && Dist(j, x) > Dist(j, i) && t[x].valid && Far(t, x) != t[x].disp
  }

  lemma MoveBelow(t: Table, j: nat, m: nat, i: nat, recompute: bool)
    requires TableOk(t) && i < ENTRIES && j < ENTRIES && m < ENTRIES && !t[i].valid && t[m].valid
    requires Findable(t) && RightBelow(t, j, i)
    requires Movable(t, m, i) && Dist(j, m) < Dist(j, i)
    ensures var t' := Move(t, m, i, recompute);
            && Far(t, m) + Dist(m, i) < NBSZ && Findable(t') && RightBelow(t', j, m)
            && (recompute && Consistent(t) ==> Consistent(t'))
            && (!recompute || WrongAbove(t, j, i) ==> WrongAbove(t', j, m))
  {
    hide Home, Dist;
    assert m != i && Dist(m, i) > 0;
    var t' := Move(t, m, i, recompute);
    assert Far(t, m) == t[m].disp;
    MoveFindableExactly(t, m, i, recompute);
    MovedFar(t, m, i, recompute);
    assert forall x :: 0 <= x < ENTRIES && x != m && x != i ==> t'[x] == t[x];
    if !recompute {
      assert Dist(j, i) > Dist(j, m) && t'[i].valid && Far(t', i) != t'[i].disp;
    } else if WrongAbove(t, j, i) {
      var x :| 0 <= x < ENTRIES && Dist(j, x) > Dist(j, i) && t[x].valid && Far(t, x) != t[x].disp;
      assert Dist(j, x) > Dist(j, m) && t'[x].valid && Far(t', x) != t'[x].disp;
    }
  }

  /** Where stored displacements are right, every move is in room. */
  lemma {:induction false} SettleKeeps(t: Table, j: nat, i: nat, recompute: bool)
    requires TableOk(t) && i < ENTRIES && j < ENTRIES && !t[i].valid && Packed(t, j, i)
    requires Findable(t) && RightBelow(t, j, i)
    ensures var t' := Settle(t, j, i, recompute).0;
            && InRoom(t, j, i, recompute)
            && (recompute && Consistent(t) ==> Consistent(t'))
            && (!recompute && WrongAbove(t, j, i) ==> !Consistent(t'))
    decreases Dist(j, i)
  {
    hide Home, Dist, Findable, Consistent, RightBelow, Move, Movable;
    if Dist(j, i) < NBSZ {
      WrongIsInconsistent(t, j, i);
    } else {
      match FirstMovable(t, Reach(i), i)
      case None =>
        WrongIsInconsistent(t, j, i);
      case Some(m) =>
        CandidateBelow(t, j, m, i);
        MoveOk(t, m, i, recompute);
        MovePacked(t, j, m, i, recompute);
        MoveBelow(t, j, m, i, recompute);
        SettleKeeps(Move(t, m, i, recompute), j, m, recompute);
    }
  }

  /** The slots searched for an entry to move are all taken, as the code asserts. */
  lemma CandidateBelow(t: Table, j: nat, m: nat, i: nat)
    requires |t| == ENTRIES && j < ENTRIES && m < ENTRIES && i < ENTRIES
    requires Packed(t, j, i) && Dist(j, i) >= NBSZ && 0 < Dist(m, i) <= NBSZ
    ensures Dist(j, m) < Dist(j, i) && t[m].valid && m != i
  {
  }

  lemma WrongIsInconsistent(t: Table, j: nat, i: nat)
    requires |t| == ENTRIES && i < ENTRIES && j < ENTRIES
    ensures WrongAbove(t, j, i) ==> !Consistent(t)
  {
  }

  /** The call moves an entry: the neighbourhood is full, but a hole further up can
      be filled from below. */
  predicate NeedsMove(t: Table, h: nat)
    requires TableOk(t)
  {
    FirstFree(t, Home(h), NBSZ).None? &&
    match FirstFree(t, Up(Home(h), NBSZ), 4 * NBSZ)
    case None => false
    case Some(i) => FirstMovable(t, Reach(i), i).Some?
  }

  /** Every move of the call is in room. */
  predicate RoomFor(t: Table, h: nat, recompute: bool)
    requires TableOk(t)
  {
    var j := Home(h);
    FirstFree(t, j, NBSZ).Some? ||
    match FirstFree(t, Up(j, NBSZ), 4 * NBSZ)
    case None => true
    case Some(i) =>
      FarPacked(t, j, i);
      InRoom(t, j, i, recompute)
  }

  /** One call from any table whose flows are findable: they stay findable if and only
      if every move of the call is in room. */
  lemma AllocFindableExactly(t: Table, h: nat, recompute: bool)
    requires TableOk(t) && Findable(t)
    ensures Findable(Alloc(t, h, recompute).0) <==> RoomFor(t, h, recompute)
  {
    hide Dist, Home, Findable, Settle, InRoom, Packed;
    var j := Home(h);
    if FirstFree(t, j, NBSZ).None? {
      match FirstFree(t, Up(j, NBSZ), 4 * NBSZ)
      case None =>
      case Some(i) =>
        FarPacked(t, j, i);
        SettleFindableExactly(t, j, i, recompute);
    }
  }

  lemma AllocHolds(t: Table, h: nat, recompute: bool, fid: nat, hash: nat)
    requires TableOk(t)
    ensures Holds(Alloc(t, h, recompute).0, fid, hash) <==> Holds(t, fid, hash)
  {
    hide Dist, Home, Holds, Settle, Packed;
    var j := Home(h);
    if FirstFree(t, j, NBSZ).None? {
      match FirstFree(t, Up(j, NBSZ), 4 * NBSZ)
      case None =>
      case Some(i) =>
        FarPacked(t, j, i);
        SettleHolds(t, j, i, recompute, fid, hash);
    }
  }

  /** From a table whose displacements are right every call is in room. Displacements
      stay right in every case if they are recomputed; as the code is, they stay right
      if and only if nothing had to be moved. */
  lemma AllocKeeps(t: Table, h: nat, recompute: bool)
    requires TableOk(t) && Consistent(t)
    ensures RoomFor(t, h, recompute)
    ensures Consistent(Alloc(t, h, recompute).0) <==> recompute || !NeedsMove(t, h)
  {
    hide Dist, Home, Findable, Consistent, RightBelow, Move, Movable, Settle, InRoom;
    ConsistentIsFindable(t);
    var j := Home(h);
    if FirstFree(t, j, NBSZ).None? {
      match FirstFree(t, Up(j, NBSZ), 4 * NBSZ)
      case None =>
      case Some(i) =>
        FarPacked(t, j, i);
        HoleIsFar(t, j, i);
        ConsistentBelow(t, j, i);
        SettleKeeps(t, j, i, recompute);
        SettleFirst(t, j, i, recompute);
        match FirstMovable(t, Reach(i), i) {
          case None =>
          case Some(m) =>
            CandidateBelow(t, j, m, i);
            MoveOk(t, m, i, recompute);
            MovePacked(t, j, m, i, recompute);
            MoveBelow(t, j, m, i, recompute);
            SettleKeeps(Move(t, m, i, recompute), j, m, recompute);
        }
    }
  }

  lemma HoleIsFar(t: Table, j: nat, i: nat)
    requires |t| == ENTRIES && j < ENTRIES && i < ENTRIES
    requires FirstFree(t, j, NBSZ).None? && !t[i].valid
    ensures Dist(j, i) >= NBSZ
  {
  }

  lemma ConsistentBelow(t: Table, j: nat, i: nat)
    requires |t| == ENTRIES && i < ENTRIES && j < ENTRIES && Consistent(t)
    ensures RightBelow(t, j, i)
  {
  }

  lemma SettleFirst(t: Table, j: nat, i: nat, recompute: bool)
    requires TableOk(t) && i < ENTRIES && j < ENTRIES && !t[i].valid && Packed(t, j, i) && Dist(j, i) >= NBSZ
    ensures match FirstMovable(t, Reach(i), i)
            case None => Settle(t, j, i, recompute) == (t, None)
            case Some(m) =>
              var t1 := Move(t, m, i, recompute);
              && TableOk(t1) && !t1[m].valid && Packed(t1, j, m)
              && Settle(t, j, i, recompute) == Settle(t1, j, m, recompute)
  {
    match FirstMovable(t, Reach(i), i)
    case None =>
    case Some(m) =>
      MoveOk(t, m, i, recompute);
      MovePacked(t, j, m, i, recompute);
  }

  /* ---------- runs ---------- */

  datatype Op = AddFlow(fid: nat, hash: nat) | ClearFlow(fid: nat, hash: nat)

  /** Registering a flow in a slot that was made free for it. */
  function Added(t: Table, fid: nat, hash: nat, recompute: bool): (r: (Table, bool))
    requires TableOk(t)
    ensures TableOk(r.0)
  {
    match Alloc(t, hash, recompute)
    case (t', None) => (t', false)
    case (t', Some(i)) => (t'[i := Slot(true, Dist(Home(hash), i), fid, hash)], true)
  }

  function Apply(t: Table, op: Op, recompute: bool): (t': Table)
    requires TableOk(t)
    ensures TableOk(t')
  {
    match op
    case AddFlow(fid, hash) => Added(t, fid, hash, recompute).0
    case ClearFlow(fid, hash) => Clear(t, fid, hash)
  }

  /** The flows registered after an operation. */
  function Track(reg: set<(nat, nat)>, t: Table, op: Op, recompute: bool): set<(nat, nat)>
    requires TableOk(t)
  {
    match op
    case AddFlow(fid, hash) => if Added(t, fid, hash, recompute).1 then reg + {(fid, hash)} else reg
    case ClearFlow(fid, hash) => reg - {(fid, hash)}
  }

  predicate Distinct(t: Table) {
    forall i, k :: 0 <= i < k < |t| && t[i].valid && t[k].valid ==> t[i].fid != t[k].fid
  }

  /** The table holds exactly the registered flows, each once and findable. */
  ghost predicate TableInv(t: Table, reg: set<(nat, nat)>) {
    && TableOk(t) && Findable(t) && Distinct(t)
    && forall fid: nat, hash: nat :: (fid, hash) in reg <==> Holds(t, fid, hash)
  }

  /** Flow ids are handed out fresh. */
  ghost predicate Fresh(reg: set<(nat, nat)>, op: Op) {
    op.AddFlow? ==> forall hash: nat :: (op.fid, hash) !in reg
  }

  lemma {:induction false} FindFlowComplete(t: Table, i: nat, n: nat, fid: nat, hash: nat, x: nat)
    requires |t| == ENTRIES && i < ENTRIES && n < ENTRIES && x < ENTRIES
    requires IsFlow(t[x], fid, hash) && Dist(i, x) < n
    ensures FindFlow(t, i, n, fid, hash).Some?
    decreases n
  {
    if x != i {
      FindFlowComplete(t, Up(i, 1), n - 1, fid, hash, x);
    }
  }

  /** A lookup by home finds every flow the table holds. */
  lemma LookupFinds(t: Table, fid: nat, hash: nat)
    requires |t| == ENTRIES && Findable(t)
    ensures FindFlow(t, Home(hash), NBSZ, fid, hash).Some? <==> Holds(t, fid, hash)
  {
    if Holds(t, fid, hash) {
      var x :| 0 <= x < |t| && IsFlow(t[x], fid, hash);
      assert Far(t, x) < NBSZ;
      FindFlowComplete(t, Home(hash), NBSZ, fid, hash, x);
    }
  }

  lemma {:induction false} SettleDistinct(t: Table, j: nat, i: nat, recompute: bool)
    requires TableOk(t) && i < ENTRIES && j < ENTRIES && !t[i].valid && Packed(t, j, i) && Distinct(t)
    ensures Distinct(Settle(t, j, i, recompute).0)
    decreases Dist(j, i)
  {
    hide Home, Dist, Move, Movable, Distinct;
    if Dist(j, i) >= NBSZ {
      match FirstMovable(t, Reach(i), i)
      case None =>
      case Some(m) =>
        CandidateBelow(t, j, m, i);
        MoveOk(t, m, i, recompute);
        MovePacked(t, j, m, i, recompute);
        MoveDistinct(t, m, i, recompute);
        SettleDistinct(Move(t, m, i, recompute), j, m, recompute);
    }
  }

  lemma MoveDistinct(t: Table, i: nat, k: nat, recompute: bool)
    requires TableOk(t) && i < ENTRIES && k < ENTRIES && i != k && t[i].valid && !t[k].valid && Distinct(t)
    ensures Distinct(Move(t, i, k, recompute))
  {
  }

  lemma AllocDistinct(t: Table, h: nat, recompute: bool)
    requires TableOk(t) && Distinct(t)
    ensures Distinct(Alloc(t, h, recompute).0)
  {
    hide Home, Dist, Distinct, Settle;
    var j := Home(h);
    if FirstFree(t, j, NBSZ).None? {
      match FirstFree(t, Up(j, NBSZ), 4 * NBSZ)
      case None =>
      case Some(i) =>
        FarPacked(t, j, i);
        SettleDistinct(t, j, i, recompute);
    }
  }

  lemma InsertFlow(t: Table, i: nat, fid: nat, hash: nat, f: nat, h: nat)
    requires TableOk(t) && i < ENTRIES && !t[i].valid
    ensures var t' := t[i := Slot(true, Dist(Home(hash), i), fid, hash)];
            Holds(t', f, h) <==> Holds(t, f, h) || (f == fid && h == hash)
  {
    hide Dist, Home;
    var t' := t[i := Slot(true, Dist(Home(hash), i), fid, hash)];
    if Holds(t, f, h) {
      var x :| 0 <= x < |t| && IsFlow(t[x], f, h);
      assert IsFlow(t'[x], f, h);
    }
    assert IsFlow(t'[i], fid, hash);
    if Holds(t', f, h) {
      var x :| 0 <= x < |t'| && IsFlow(t'[x], f, h);
      assert x != i ==> IsFlow(t[x], f, h);
    }
  }

  /** Adding a flow with a new id keeps table and registered flows in step, all of
      them findable, if and only if every move is in room. */
  lemma AddKeeps(t: Table, reg: set<(nat, nat)>, fid: nat, hash: nat, recompute: bool)
    requires TableInv(t, reg) && Fresh(reg, AddFlow(fid, hash))
    ensures TableInv(Added(t, fid, hash, recompute).0, Track(reg, t, AddFlow(fid, hash), recompute))
       <==> RoomFor(t, hash, recompute)
  {
    hide Dist, Home, Holds, Alloc, RoomFor;
    AllocFindableExactly(t, hash, recompute);
    AllocDistinct(t, hash, recompute);
    var r := Alloc(t, hash, recompute);
    forall f: nat, h: nat ensures Holds(r.0, f, h) <==> Holds(t, f, h) {
      AllocHolds(t, hash, recompute, f, h);
    }
    match r.1
    case None =>
    case Some(i) =>
      var t' := r.0[i := Slot(true, Dist(Home(hash), i), fid, hash)];
      forall f: nat, h: nat ensures Holds(t', f, h) <==> Holds(t, f, h) || (f == fid && h == hash) {
        InsertFlow(r.0, i, fid, hash, f, h);
      }
      forall x | 0 <= x < ENTRIES && r.0[x].valid ensures r.0[x].fid != fid {
        HoldsAt(r.0, x);
      }
      FilledFindable(r.0, i, fid, hash);
  }

  lemma FilledFindable(t: Table, i: nat, fid: nat, hash: nat)
    requires |t| == ENTRIES && i < ENTRIES && !t[i].valid && Dist(Home(hash), i) < NBSZ
    ensures Findable(t[i := Slot(true, Dist(Home(hash), i), fid, hash)]) <==> Findable(t)
  {
    hide Dist, Home;
    var t' := t[i := Slot(true, Dist(Home(hash), i), fid, hash)];
    assert forall x :: 0 <= x < ENTRIES && x != i ==> t'[x] == t[x];
  }

  lemma HoldsAt(t: Table, x: nat)
    requires x < |t| && t[x].valid
    ensures Holds(t, t[x].fid, t[x].hash)
  {
    assert IsFlow(t[x], t[x].fid, t[x].hash);
  }

  lemma ClearKeeps(t: Table, reg: set<(nat, nat)>, fid: nat, hash: nat)
    requires TableInv(t, reg)
    ensures TableInv(Clear(t, fid, hash), reg - {(fid, hash)})
  {
    hide Dist, Home, FindFlow;
    LookupFinds(t, fid, hash);
    match FindFlow(t, Home(hash), NBSZ, fid, hash)
    case None =>
    case Some(i) =>
      var t' := Clear(t, fid, hash);
      forall f: nat, h: nat ensures Holds(t', f, h) <==> Holds(t, f, h) && (f, h) != (fid, hash) {
        ClearedFlow(t, i, fid, hash, f, h);
      }
      forall x | 0 <= x < ENTRIES && t'[x].valid ensures Far(t', x) < NBSZ {
        assert Far(t, x) < NBSZ;
      }
  }

  lemma ClearedFlow(t: Table, i: nat, fid: nat, hash: nat, f: nat, h: nat)
    requires TableOk(t) && Distinct(t) && i < ENTRIES && IsFlow(t[i], fid, hash)
    ensures Holds(t[i := t[i].(valid := false)], f, h) <==> Holds(t, f, h) && (f, h) != (fid, hash)
  {
    var t' := t[i := t[i].(valid := false)];
    if Holds(t', f, h) {
      var x :| 0 <= x < |t'| && IsFlow(t'[x], f, h);
      assert IsFlow(t[x], f, h) && x != i;
    }
    if Holds(t, f, h) && (f, h) != (fid, hash) {
      var x :| 0 <= x < |t| && IsFlow(t[x], f, h);
      assert IsFlow(t'[x], f, h);
    }
  }

  function Run(t: Table, ops: seq<Op>, recompute: bool): (t': Table)
    requires TableOk(t)
    ensures TableOk(t')
    decreases ops
  {
    if ops == [] then t else Run(Apply(t, ops[0], recompute), ops[1..], recompute)
  }

  function Registered(reg: set<(nat, nat)>, t: Table, ops: seq<Op>, recompute: bool): set<(nat, nat)>
    requires TableOk(t)
    decreases ops
  {
    if ops == [] then reg
    else Registered(Track(reg, t, ops[0], recompute), Apply(t, ops[0], recompute), ops[1..], recompute)
  }

  ghost predicate FreshRun(reg: set<(nat, nat)>, t: Table, ops: seq<Op>, recompute: bool)
    requires TableOk(t)
    decreases ops
  {
    ops == [] ||
    (Fresh(reg, ops[0]) &&
     FreshRun(Track(reg, t, ops[0], recompute), Apply(t, ops[0], recompute), ops[1..], recompute))
  }

  /** Every move of every addition of the run is in room. */
  ghost predicate AllInRoom(t: Table, ops: seq<Op>, recompute: bool)
    requires TableOk(t)
    decreases ops
  {
    ops == [] ||
    (&& (ops[0].AddFlow? ==> RoomFor(t, ops[0].hash, recompute))
     && AllInRoom(Apply(t, ops[0], recompute), ops[1..], recompute))
  }

  /** At every point of the run the table holds exactly the registered flows, each
      once and findable. */
  ghost predicate AlwaysInStep(t: Table, reg: set<(nat, nat)>, ops: seq<Op>, recompute: bool)
    requires TableOk(t)
    decreases ops
  {
    && TableInv(t, reg)
    && (ops == [] ||
        AlwaysInStep(Apply(t, ops[0], recompute), Track(reg, t, ops[0], recompute), ops[1..], recompute))
  }

  /** Over every run that adds only flows that are not registered: table and registered
      flows stay in step, every flow findable at every point, if and only if every
      addition is in room. */
  lemma {:induction false} RunKeeps(t: Table, reg: set<(nat, nat)>, ops: seq<Op>, recompute: bool)
    requires TableInv(t, reg) && FreshRun(reg, t, ops, recompute)
    ensures AlwaysInStep(t, reg, ops, recompute) <==> AllInRoom(t, ops, recompute)
    decreases ops
  {
    hide TableInv, Fresh, Track, RoomFor, Apply;
    if ops != [] {
      InStepOk(t, reg);
      var t1, reg1 := Apply(t, ops[0], recompute), Track(reg, t, ops[0], recompute);
      StepKeeps(t, reg, ops[0], recompute);
      if TableInv(t1, reg1) {
        RunKeeps(t1, reg1, ops[1..], recompute);
      }
    }
  }

  lemma InStepOk(t: Table, reg: set<(nat, nat)>)
    requires TableInv(t, reg)
    ensures TableOk(t) && Findable(t)
  {
  }

  lemma StepKeeps(t: Table, reg: set<(nat, nat)>, op: Op, recompute: bool)
    requires TableInv(t, reg) && Fresh(reg, op)
    ensures TableInv(Apply(t, op, recompute), Track(reg, t, op, recompute))
       <==> (op.AddFlow? ==> RoomFor(t, op.hash, recompute))
  {
    hide TableInv, RoomFor, Added, Clear;
    InStepOk(t, reg);
    match op
    case AddFlow(fid, hash) => AddKeeps(t, reg, fid, hash, recompute);
    case ClearFlow(fid, hash) => ClearKeeps(t, reg, fid, hash);
  }

  /** With recomputed displacements every run is in room. */
  lemma {:induction false} RecomputedInRoom(t: Table, ops: seq<Op>)
    requires TableOk(t) && Consistent(t)
    ensures AllInRoom(t, ops, true) && Consistent(Run(t, ops, true))
    decreases ops
  {
    hide Consistent, RoomFor, Added;
    if ops != [] {
      match ops[0] {
        case AddFlow(fid, hash) =>
          AllocKeeps(t, hash, true);
          AddConsistent(t, fid, hash);
        case ClearFlow(fid, hash) =>
          ClearConsistent(t, fid, hash);
      }
      RecomputedInRoom(Apply(t, ops[0], true), ops[1..]);
    }
  }

  lemma AddConsistent(t: Table, fid: nat, hash: nat)
    requires TableOk(t) && Consistent(t)
    ensures Consistent(Added(t, fid, hash, true).0)
  {
    hide Dist, Home, Alloc;
    AllocKeeps(t, hash, true);
    var r := Alloc(t, hash, true);
    if r.1.Some? {
      var t' := Added(t, fid, hash, true).0;
      forall x | 0 <= x < ENTRIES && t'[x].valid ensures Far(t', x) == t'[x].disp {
        assert x != r.1.value ==> Far(r.0, x) == r.0[x].disp;
      }
    }
  }

  lemma ClearConsistent(t: Table, fid: nat, hash: nat)
    requires TableOk(t) && Consistent(t)
    ensures Consistent(Clear(t, fid, hash))
  {
    hide Dist, Home, FindFlow;
    var t' := Clear(t, fid, hash);
    forall x | 0 <= x < ENTRIES && t'[x].valid ensures Far(t', x) == t'[x].disp {
      assert Far(t, x) == t[x].disp;
    }
  }

  /* ---------- as the code is ---------- */

  /** Six flows, each in its home slot. */
  function SixFlows(): (t: Table)
    ensures TableOk(t) && Consistent(t) && Distinct(t)
  {
    seq(ENTRIES, i requires 0 <= i < ENTRIES =>
          if i < 4 || i == 5 || i == 6 then Slot(true, 0, i, i) else Slot(false, 0, 0, 0))
  }

  lemma FirstFreeNone(t: Table, i: nat)
    requires |t| == ENTRIES && i + 3 < ENTRIES
    requires t[i].valid && t[i + 1].valid && t[i + 2].valid && t[i + 3].valid
    ensures FirstFree(t, i, NBSZ).None?
  {
  }

  lemma FirstAddMoves()
    ensures var t := SixFlows();
            Added(t, 100, 0, false) == (Move(t, 1, 4, false)[1 := Slot(true, 1, 100, 0)], true)
  {
    var t := SixFlows();
    FirstFreeNone(t, 0);
    assert FirstFree(t, 4, 4 * NBSZ) == Some(4);
    assert !Movable(t, 0, 4) && Movable(t, 1, 4);
    assert FirstMovable(t, 0, 4) == FirstMovable(t, 1, 4) == Some(1);
    FarPacked(t, 0, 4);
    SettleFirst(t, 0, 4, false);
  }

  /** Copying the displacement unchanged loses flows: after two adds to a consistent
      table of six flows, flow 1 is moved twice, to slot 7, six slots from its home,
      where no lookup goes. */
  lemma StaleDisplacementLosesFlow()
    ensures var t := Run(SixFlows(), [AddFlow(100, 0), AddFlow(101, 3)], false);
            && Holds(SixFlows(), 1, 1) && Holds(t, 1, 1)
            && !Findable(t) && FindFlow(t, Home(1), NBSZ, 1, 1).None?
  {
    hide Added, Alloc;
    var t := SixFlows();
    var t1 := Move(t, 1, 4, false)[1 := Slot(true, 1, 100, 0)];
    FirstAddMoves();
    SecondAddMoves(t1);
    var ops := [AddFlow(100, 0), AddFlow(101, 3)];
    assert ops[1..] == [AddFlow(101, 3)];
    var t2 := Move(t1, 4, 7, false)[4 := Slot(true, 1, 101, 3)];
    assert Run(t, ops, false) == Run(t1, ops[1..], false) == Run(t2, [], false) == t2;
    assert IsFlow(t[1], 1, 1) && IsFlow(t2[7], 1, 1);
    assert Far(t2, 7) == 6;
    assert FindFlow(t2, 5, 0, 1, 1).None?;
    assert FindFlow(t2, 4, 1, 1, 1).None?;
    assert FindFlow(t2, 3, 2, 1, 1).None?;
    assert FindFlow(t2, 2, 3, 1, 1).None?;
  }

  lemma SecondAddMoves(t: Table)
    requires t == Move(SixFlows(), 1, 4, false)[1 := Slot(true, 1, 100, 0)]
    ensures TableOk(t)
    ensures Added(t, 101, 3, false) == (Move(t, 4, 7, false)[4 := Slot(true, 1, 101, 3)], true)
  {
    FirstFreeNone(t, 3);
    assert FirstFree(t, 7, 4 * NBSZ) == Some(7);
    assert !Movable(t, 3, 7) && Movable(t, 4, 7);
    assert FirstMovable(t, 3, 7) == FirstMovable(t, 4, 7) == Some(4);
    FarPacked(t, 3, 7);
    SettleFirst(t, 3, 7, false);
  }

  /** The code's test that slot `i` is not in the neighbourhood from `j` to `l`. */
  predicate OutsideOf(i: nat, j: nat, l: nat)
    requires i < ENTRIES && j < ENTRIES && l == Up(j, NBSZ)
    ensures OutsideOf(i, j, l) <==> Dist(j, i) >= NBSZ
  {
    (j > l || (i < j || i >= l)) && (j < l || (i >= l && i < j))
  }

  lemma UpSteps(i: nat, d: nat, n: nat)
    requires i < ENTRIES && d <= n < ENTRIES
    ensures Up(i, 0) == i && Dist(i, Up(i, d)) == d && (Up(i, d) == Up(i, n) <==> d == n)
    ensures Up(Up(i, d), 1) == (Up(i, d) + 1) % ENTRIES && (d < n ==> Up(i, d + 1) == Up(Up(i, d), 1))
  {
  }

  lemma FirstFreeStep(t: Table, i: nat, n: nat)
    requires |t| == ENTRIES && i < ENTRIES && 0 < n < ENTRIES
    ensures FirstFree(t, i, n) == if t[i].valid then FirstFree(t, Up(i, 1), n - 1) else Some(i)
  {
    hide Up, Dist;
  }

  lemma FirstFreeEnd(t: Table, i: nat)
    requires |t| == ENTRIES && i < ENTRIES
    ensures FirstFree(t, i, 0).None?
  {
  }

  class FlowHashTable {
    const slots: array<Slot>

    ghost predicate Valid()
      reads slots
    {
      slots.Length == ENTRIES && TableOk(slots[..])
    }

    constructor ()
      ensures Valid() && fresh(slots)
      ensures forall i :: 0 <= i < ENTRIES ==> !slots[i].valid
    {
      slots := new Slot[ENTRIES](_ => Slot(false, 0, 0, 0));
    }

    /** The first of the `n` slots from `i` on that is free; `k` if there is none. */
    method ScanFree(i: nat, k: nat, ghost n: nat) returns (p: nat, d: nat)
      requires Valid() && i < ENTRIES && n < ENTRIES && k == Up(i, n)
      ensures match FirstFree(slots[..], i, n)
              case None => p == k && d == n
              case Some(x) => p == x && d == Dist(i, x)
      ensures p == k <==> FirstFree(slots[..], i, n).None?
    {
      hide Up, Dist, FirstFree;
      p, d := i, 0;
      UpSteps(i, 0, n);
      while p != k
        invariant d <= n && p == Up(i, d)
        invariant FirstFree(slots[..], i, n) == FirstFree(slots[..], p, n - d)
        decreases n - d
      {
        UpSteps(i, d, n);
        FirstFreeStep(slots[..], p, n - d);
        if !slots[p].valid {
          return;
        }
        p, d := (p + 1) % ENTRIES, d + 1;
      }
      UpSteps(i, d, n);
      FirstFreeEnd(slots[..], p);
    }

    /** The lowest entry that can be moved up to the hole `k`; `k` if none can. */
    method ScanMovable(k: nat, ghost j: nat) returns (i: nat)
      requires Valid() && k < ENTRIES && j < ENTRIES
      requires Packed(slots[..], j, k) && Dist(j, k) >= NBSZ
      ensures i < ENTRIES
      ensures match FirstMovable(slots[..], Reach(k), k)
              case None => i == k
              case Some(m) => i == m && i != k
    {
      i := ((k - NBSZ) % U32) % ENTRIES;
      while i != k
        invariant i < ENTRIES && Dist(i, k) <= NBSZ
        invariant FirstMovable(slots[..], Reach(k), k) == FirstMovable(slots[..], i, k)
        decreases Dist(i, k)
      {
        assert slots[i].valid by { CandidateBelow(slots[..], j, i, k); }
        var d := NBSZ - 1 - slots[i].disp;
        if ((k - i) % U32) % ENTRIES <= d {
          return;
        }
        i := (i + 1) % ENTRIES;
      }
    }

    /** A slot for a flow with hash `h`: 0, its index and its displacement; -1 if no
        slot can be made free. */
    method FlowSlotAlloc(h: nat, recompute: bool) returns (rc: int, pi: nat, pd: nat)
      requires Valid()
      modifies slots
      ensures Valid()
      ensures var r := Alloc(old(slots[..]), h, recompute);
              && slots[..] == r.0
              && rc == (if r.1.Some? then 0 else -1)
              && (rc == 0 ==> pi == r.1.value && pd == Dist(Home(h), pi) < NBSZ)
    {
      hide FirstFree, FirstMovable, Settle, Move, TableOk, Packed;
      pi, pd := 0, 0;
      ghost var t := slots[..];
      var j := h % ENTRIES;
      var l := (j + NBSZ) % ENTRIES;
      var i, d := ScanFree(j, l, NBSZ);
      if i != l {
        return 0, i, d;
      }
      var k := (l + 4 * NBSZ) % ENTRIES;
      i, d := ScanFree(l, k, 4 * NBSZ);
      if i == k {
        return -1, 0, 0;
      }
      FarPacked(t, j, i);
      rc, i := SettleHole(i, j, l, recompute);
      return rc, i, ((i - j) % U32) % ENTRIES;
    }

    /** Moves the hole in slot `hole` down into the neighbourhood from `j` to `l`;
        -1 if no entry can be moved into it. */
    method SettleHole(hole: nat, j: nat, l: nat, recompute: bool) returns (rc: int, i: nat)
      requires Valid() && hole < ENTRIES && j < ENTRIES && l == Up(j, NBSZ)
      requires !slots[hole].valid && Packed(slots[..], j, hole)
      modifies slots
      ensures Valid() && i < ENTRIES
      ensures var r := Settle(old(slots[..]), j, hole, recompute);
              && slots[..] == r.0
              && rc == (if r.1.Some? then 0 else -1)
              && (rc == 0 ==> i == r.1.value && Dist(j, i) < NBSZ)
    {
      hide FirstFree, FirstMovable, Settle, Move, TableOk, Packed, Dist, Up;
      i := hole;
      while OutsideOf(i, j, l)
        invariant Valid() && i < ENTRIES && !slots[i].valid && Packed(slots[..], j, i)
        invariant Settle(slots[..], j, i, recompute) == Settle(old(slots[..]), j, hole, recompute)
        decreases Dist(j, i)
      {
        var k := i;
        i := ScanMovable(k, j);
        SettleFirst(slots[..], j, k, recompute);
        if i == k {
          return -1, i;
        }
        CandidateBelow(slots[..], j, i, k);
        MoveUp(i, k, recompute);
      }
      SettleNear(slots[..], j, i, recompute);
      rc := 0;
    }

    /** Copies entry `i` to the free slot `k`, then empties slot `i`. */
    method MoveUp(i: nat, k: nat, recompute: bool)
      requires Valid() && i < ENTRIES && k < ENTRIES && i != k && Movable(slots[..], i, k)
      modifies slots
      ensures Valid() && slots[..] == Move(old(slots[..]), i, k, recompute)
    {
      MoveOk(slots[..], i, k, recompute);
      var d := if recompute then slots[i].disp + Dist(i, k) else slots[i].disp;
      slots[k] := slots[k].(hash := slots[i].hash);
      slots[k] := slots[k].(valid := true, disp := d, fid := slots[i].fid);
      slots[i] := slots[i].(valid := false, disp := 0, fid := 0);
      assert slots[..] == Move(old(slots[..]), i, k, recompute);
    }

    /** Takes a flow out of the table: 0, or -1 if it is not found. */
    method FlowSlotClear(fid: nat, h: nat) returns (rc: int)
      requires Valid()
      modifies slots
      ensures Valid() && slots[..] == Clear(old(slots[..]), fid, h)
      ensures rc == if FindFlow(old(slots[..]), Home(h), NBSZ, fid, h).Some? then 0 else -1
    {
      hide Home, Up, Dist;
      ghost var t := slots[..];
      HomeUp(h, 0);
      var j := 0;
      while j < NBSZ
        invariant j <= NBSZ && slots[..] == t
        invariant FindFlow(t, Home(h), NBSZ, fid, h) == FindFlow(t, Up(Home(h), j), NBSZ - j, fid, h)
      {
        var k := (h + j) % ENTRIES;
        HomeUp(h, j);
        if slots[k].valid && slots[k].hash == h && slots[k].fid == fid {
          slots[k] := slots[k].(valid := false);
          assert slots[..] == t[k := t[k].(valid := false)];
          return 0;
        }
        j := j + 1;
      }
      return -1;
    }
  }

  lemma HomeUp(h: nat, j: nat)
    requires j <= NBSZ
    ensures (h + j) % ENTRIES == Up(Home(h), j)
    ensures j < NBSZ ==> Up(Up(Home(h), j), 1) == Up(Home(h), j + 1)
    ensures j == 0 ==> Up(Home(h), j) == Home(h)
  {
  }

  lemma SettleNear(t: Table, j: nat, i: nat, recompute: bool)
    requires TableOk(t) && i < ENTRIES && j < ENTRIES && !t[i].valid && Packed(t, j, i) && Dist(j, i) < NBSZ
    ensures Settle(t, j, i, recompute) == (t, Some(i))
  {
  }
}
