/**
 Lock-free lookup: a fast-path core scans the four slots of a flow's neighbourhood,
 one word at a time, while the slow path adds, moves and removes entries. One
 action below is one memory access; accesses are taken to be sequentially
 consistent, and a flow's address tuple to be read and written in one access.
 */
module LookupProtocol {
  import opened Basics
  import opened FlowTable

  datatype Key = Key(localIp: nat, remoteIp: nat, localPort: nat, remotePort: nat)

  /** Where the slow path is in adding or moving an entry. */
  datatype Writer =
    | Idle
    | NewTuple(fid: nat, key: Key)           // flow state filled in
    | NewHash(fid: nat, key: Key, k: nat)    // hash word of slot k written
    | MoveHash(i: nat, k: nat)               // hash word copied from slot i to k
    | MovePublished(i: nat, k: nat)          // both words copied, slot i still valid

  /** Where the fast path is in scanning slot `j` of the neighbourhood. */
  datatype Reader =
    | ReadId(j: nat)
    | ReadHash(j: nat, valid: bool, fid: nat)
    | Check(j: nat, fid: nat)
    | Found(fid: nat)
    | NotFound

  datatype World = World(t: Table, keys: map<nat, Key>, w: Writer, r: Reader)

  datatype Action =
    | WriteTuple(fid: nat, key: Key)
    | WriteHash(k: nat)
    | Publish
    | CopyHash(i: nat, k: nat)
    | PublishCopy(disp: nat)
    | ClearOld
    | Remove(i: nat)
    | Read

  predicate Live(t: Table, fid: nat, x: nat) {
    x < |t| && t[x].valid && t[x].fid == fid
  }

  ghost predicate Enabled(s: World, a: Action, hash: Key -> nat)
    requires |s.t| == ENTRIES
  {
    match a
    case WriteTuple(fid, key) => s.w.Idle? && forall x :: 0 <= x < ENTRIES ==> !Live(s.t, fid, x)
    case WriteHash(k) => s.w.NewTuple? && k < ENTRIES && !s.t[k].valid && Dist(Home(hash(s.w.key)), k) < NBSZ
    case Publish => s.w.NewHash? && s.w.k < ENTRIES
    case CopyHash(i, k) =>
      && s.w.Idle? && i < ENTRIES && k < ENTRIES && i != k && s.t[i].valid && !s.t[k].valid
      && Far(s.t, i) + Dist(i, k) < NBSZ
    case PublishCopy(disp) => s.w.MoveHash? && s.w.i < ENTRIES && s.w.k < ENTRIES && disp < NBSZ
    case ClearOld => s.w.MovePublished? && s.w.i < ENTRIES
    case Remove(i) => s.w.Idle? && i < ENTRIES && s.t[i].valid
    case Read => !s.r.Found? && !s.r.NotFound?
  }

  function Next(j: nat): Reader {
    if j + 1 < NBSZ then ReadId(j + 1) else NotFound
  }

  /** One memory access of the scan for `key`. */
  function ReadStep(s: World, key: Key, h: nat): Reader
    requires |s.t| == ENTRIES
  {
    match s.r
    case ReadId(j) =>
      if j >= NBSZ then NotFound
      else var e := s.t[Up(Home(h), j)]; ReadHash(j, e.valid, e.fid)
    case ReadHash(j, valid, fid) =>
      if j < NBSZ && valid && s.t[Up(Home(h), j)].hash == h then Check(j, fid) else Next(j)
    case Check(j, fid) =>
      if fid in s.keys && s.keys[fid] == key then Found(fid) else Next(j)
    case _ => s.r
  }

  function Do(s: World, a: Action, key: Key, hash: Key -> nat): (s': World)
    requires |s.t| == ENTRIES
    ensures |s'.t| == ENTRIES
  {
    match a
    case WriteTuple(fid, k) => s.(keys := s.keys[fid := k], w := NewTuple(fid, k))
    case WriteHash(k) =>
      if s.w.NewTuple? && k < ENTRIES
      then s.(t := s.t[k := s.t[k].(hash := hash(s.w.key))], w := NewHash(s.w.fid, s.w.key, k)) else s
    case Publish =>
      if s.w.NewHash? && s.w.k < ENTRIES
      then s.(t := s.t[s.w.k := s.t[s.w.k].(valid := true, fid := s.w.fid,
                                            disp := Dist(Home(hash(s.w.key)), s.w.k))], w := Idle) else s
    case CopyHash(i, k) =>
      if i < ENTRIES && k < ENTRIES
      then s.(t := s.t[k := s.t[k].(hash := s.t[i].hash)], w := MoveHash(i, k)) else s
    case PublishCopy(disp) =>
      if s.w.MoveHash? && s.w.i < ENTRIES && s.w.k < ENTRIES
      then s.(t := s.t[s.w.k := s.t[s.w.k].(valid := true, fid := s.t[s.w.i].fid, disp := disp)],
              w := MovePublished(s.w.i, s.w.k)) else s
    case ClearOld =>
      if s.w.MovePublished? && s.w.i < ENTRIES
      then s.(t := s.t[s.w.i := s.t[s.w.i].(valid := false, disp := 0, fid := 0)], w := Idle) else s
    case Remove(i) =>
      if i < ENTRIES then s.(t := s.t[i := s.t[i].(valid := false)]) else s
    case Read => s.(r := ReadStep(s, key, hash(key)))
  }

  /* ---------- what every access keeps ---------- */

  /** A valid entry is findable and carries the hash of its flow's tuple. */
  predicate EntryOk(s: World, hash: Key -> nat, x: nat)
    requires |s.t| == ENTRIES && x < ENTRIES
  {
    s.t[x].valid ==>
      && Far(s.t, x) < NBSZ
      && s.t[x].fid in s.keys && s.t[x].hash == hash(s.keys[s.t[x].fid])
  }

  ghost predicate WriterOk(s: World, hash: Key -> nat)
    requires |s.t| == ENTRIES
  {
    match s.w
    case Idle => true
    case NewTuple(fid, key) =>
      fid in s.keys && s.keys[fid] == key && forall x :: 0 <= x < ENTRIES ==> !Live(s.t, fid, x)
    case NewHash(fid, key, k) =>
      && fid in s.keys && s.keys[fid] == key && k < ENTRIES && !s.t[k].valid
      && s.t[k].hash == hash(key) && Dist(Home(hash(key)), k) < NBSZ
    case MoveHash(i, k) =>
      && i < ENTRIES && k < ENTRIES && i != k && s.t[i].valid && !s.t[k].valid
      && s.t[k].hash == s.t[i].hash && Far(s.t, i) < Far(s.t, k) < NBSZ
    case MovePublished(i, k) =>
      && i < ENTRIES && k < ENTRIES && i != k && s.t[i].valid && s.t[k].valid
      && s.t[k].hash == s.t[i].hash && s.t[k].fid == s.t[i].fid && Far(s.t, i) < Far(s.t, k)
  }

  ghost predicate WorldInv(s: World, hash: Key -> nat) {
    && |s.t| == ENTRIES
    && (forall x :: 0 <= x < ENTRIES ==> EntryOk(s, hash, x))
    && WriterOk(s, hash)
  }

  lemma FarAbove(t: Table, i: nat, k: nat)
    requires |t| == ENTRIES && i < ENTRIES && k < ENTRIES && i != k && Far(t, i) + Dist(i, k) < NBSZ
    ensures Far(t, i) < Dist(Home(t[i].hash), k) < NBSZ
  {
    DistSum(Home(t[i].hash), i, k);
  }

  lemma DoKeepsWorld(s: World, a: Action, key: Key, hash: Key -> nat)
    requires WorldInv(s, hash) && Enabled(s, a, hash)
    ensures WorldInv(Do(s, a, key, hash), hash)
  {
    hide Dist, Home, Up, ReadStep;
    var s' := Do(s, a, key, hash);
    if a.CopyHash? {
      FarAbove(s.t, a.i, a.k);
    }
    forall x | 0 <= x < ENTRIES ensures EntryOk(s', hash, x) {
      assert EntryOk(s, hash, x);
      assert a.WriteTuple? ==> !Live(s.t, a.fid, x);
      if a.PublishCopy? {
        assert EntryOk(s, hash, s.w.i);
      }
    }
  }

  /* ---------- the scan ---------- */

  /** Flow `f` has an entry at least `j` slots from home. */
  ghost predicate Ahead(t: Table, f: nat, h: nat, j: nat)
    requires |t| == ENTRIES
  {
    exists x :: 0 <= x < ENTRIES && Live(t, f, x) && Dist(Home(h), x) >= j
  }

  /** Flow `f` is in the table under `key`. */
  ghost predicate Registered(s: World, f: nat, key: Key, h: nat)
    requires |s.t| == ENTRIES
  {
    f in s.keys && s.keys[f] == key && Ahead(s.t, f, h, 0)
  }

  /** The scan cannot have missed flow `f`: unless it is about to be found, it still
      has an entry in a slot the scan has yet to visit. */
  ghost predicate NotMissed(s: World, f: nat, h: nat)
    requires |s.t| == ENTRIES
  {
    match s.r
    case ReadId(j) => j < NBSZ && Ahead(s.t, f, h, j)
    case ReadHash(j, valid, fid) =>
      j < NBSZ && (Ahead(s.t, f, h, j + 1) || (valid && fid == f && Live(s.t, f, Up(Home(h), j))))
    case Check(j, fid) => j < NBSZ && (Ahead(s.t, f, h, j + 1) || fid == f)
    case Found(_) => true
    case NotFound => false
  }

  lemma UpDist(h: nat, x: nat, j: nat)
    requires h < ENTRIES && x < ENTRIES && j < ENTRIES
    ensures Dist(h, x) == j <==> x == Up(h, j)
  {
  }

  lemma AheadSplits(t: Table, f: nat, h: nat, j: nat)
    requires |t| == ENTRIES && j < ENTRIES && Ahead(t, f, h, j)
    ensures Ahead(t, f, h, j + 1) || Live(t, f, Up(Home(h), j))
  {
    hide Dist, Home, Up;
    var x :| 0 <= x < ENTRIES && Live(t, f, x) && Dist(Home(h), x) >= j;
    UpDist(Home(h), x, j);
  }

  lemma AheadEnds(s: World, f: nat, key: Key, hash: Key -> nat)
    requires WorldInv(s, hash) && f in s.keys && s.keys[f] == key
    ensures !Ahead(s.t, f, hash(key), NBSZ)
  {
    forall x | 0 <= x < ENTRIES && Live(s.t, f, x) ensures Dist(Home(hash(key)), x) < NBSZ {
      assert EntryOk(s, hash, x);
    }
  }

  /** An access of the scan itself. */
  lemma ReadNotMissed(s: World, f: nat, key: Key, hash: Key -> nat)
    requires WorldInv(s, hash) && Registered(s, f, key, hash(key))
    requires NotMissed(s, f, hash(key))
    ensures NotMissed(Do(s, Read, key, hash), f, hash(key))
  {
    hide Dist, Home, Up, Ahead, WriterOk;
    var h := hash(key);
    AheadEnds(s, f, key, hash);
    match s.r
    case ReadId(j) =>
      AheadSplits(s.t, f, h, j);
    case ReadHash(j, valid, fid) =>
      if Live(s.t, f, Up(Home(h), j)) {
        assert EntryOk(s, hash, Up(Home(h), j));
      }
    case Check(j, fid) =>
    case Found(_) =>
    case NotFound =>
  }

  /** Accesses of the slow path take no entry of `f` away without leaving one
      further up. */
  lemma WriteKeepsAhead(s: World, a: Action, key: Key, hash: Key -> nat, f: nat, j: nat, x: nat)
    requires WorldInv(s, hash) && Enabled(s, a, hash) && f in s.keys && s.keys[f] == key
    requires a.Remove? ==> s.t[a.i].fid != f
    requires x < ENTRIES && Live(s.t, f, x) && Dist(Home(hash(key)), x) >= j
    ensures Live(Do(s, a, key, hash).t, f, x) || Ahead(Do(s, a, key, hash).t, f, hash(key), j + 1)
  {
    hide Dist, Home, Up, ReadStep;
    var t' := Do(s, a, key, hash).t;
    if a.ClearOld? && x == s.w.i {
      assert EntryOk(s, hash, x) && EntryOk(s, hash, s.w.k);
      assert Live(t', f, s.w.k) && Dist(Home(hash(key)), s.w.k) >= j + 1;
    }
  }

  lemma WriteNotMissed(s: World, a: Action, key: Key, hash: Key -> nat, f: nat)
    requires WorldInv(s, hash) && Enabled(s, a, hash) && !a.Read?
    requires a.Remove? ==> s.t[a.i].fid != f
    requires Registered(s, f, key, hash(key)) && NotMissed(s, f, hash(key))
    ensures Registered(Do(s, a, key, hash), f, key, hash(key)) && NotMissed(Do(s, a, key, hash), f, hash(key))
  {
    hide Dist, Home, Up, Enabled, WriterOk, EntryOk, Do;
    DoKeepsTuple(s, a, key, hash, f);
    AheadKept(s, a, key, hash, f, 0);
    match s.r
    case ReadId(j) =>
      AheadKept(s, a, key, hash, f, j);
    case ReadHash(j, valid, fid) =>
      if Ahead(s.t, f, hash(key), j + 1) {
        AheadKept(s, a, key, hash, f, j + 1);
      } else {
        UpDist(Home(hash(key)), Up(Home(hash(key)), j), j);
        WriteKeepsAhead(s, a, key, hash, f, j, Up(Home(hash(key)), j));
      }
    case Check(j, fid) =>
      if Ahead(s.t, f, hash(key), j + 1) {
        AheadKept(s, a, key, hash, f, j + 1);
      }
    case Found(_) =>
    case NotFound =>
  }

  lemma DoKeepsTuple(s: World, a: Action, key: Key, hash: Key -> nat, f: nat)
    requires WorldInv(s, hash) && Enabled(s, a, hash) && Registered(s, f, key, hash(key)) && !a.Read?
    ensures var s' := Do(s, a, key, hash); s'.r == s.r && f in s'.keys && s'.keys[f] == key
  {
    hide Dist, Home, Up;
    var x :| 0 <= x < ENTRIES && Live(s.t, f, x) && Dist(Home(hash(key)), x) >= 0;
    assert a.WriteTuple? ==> !Live(s.t, a.fid, x);
  }

  lemma AheadKept(s: World, a: Action, key: Key, hash: Key -> nat, f: nat, j: nat)
    requires WorldInv(s, hash) && Enabled(s, a, hash) && f in s.keys && s.keys[f] == key
    requires a.Remove? ==> s.t[a.i].fid != f
    requires Ahead(s.t, f, hash(key), j)
    ensures Ahead(Do(s, a, key, hash).t, f, hash(key), j)
  {
    hide Dist, Home, Up, Do;
    var x :| 0 <= x < ENTRIES && Live(s.t, f, x) && Dist(Home(hash(key)), x) >= j;
    WriteKeepsAhead(s, a, key, hash, f, j, x);
    var t' := Do(s, a, key, hash).t;
    if !Live(t', f, x) {
      var y :| 0 <= y < ENTRIES && Live(t', f, y) && Dist(Home(hash(key)), y) >= j + 1;
    }
  }

  /* ---------- runs ---------- */

  function Run(s: World, actions: seq<Action>, key: Key, hash: Key -> nat): (s': World)
    requires |s.t| == ENTRIES
    ensures |s'.t| == ENTRIES
    decreases actions
  {
    if actions == [] then s else Run(Do(s, actions[0], key, hash), actions[1..], key, hash)
  }

  /** Every access is one its side may make, and flow `f` is not removed. */
  ghost predicate RunOk(s: World, actions: seq<Action>, key: Key, hash: Key -> nat, f: nat)
    requires |s.t| == ENTRIES
    decreases actions
  {
    actions == [] ||
    (var a := actions[0];
     && Enabled(s, a, hash) && (a.Remove? ==> s.t[a.i].fid != f)
     && RunOk(Do(s, a, key, hash), actions[1..], key, hash, f))
  }

  predicate HasTuple(s: World, g: nat, key: Key) {
    g in s.keys && s.keys[g] == key
  }

  /** No other flow that is in the table, or being added, has the address tuple. Flow
      states that are out of use may still carry it. */
  ghost predicate NoOther(s: World, key: Key, f: nat)
    requires |s.t| == ENTRIES
  {
    && (forall x :: 0 <= x < ENTRIES && s.t[x].valid && s.t[x].fid != f ==> !HasTuple(s, s.t[x].fid, key))
    && (s.w.NewTuple? || s.w.NewHash? ==> s.w.fid == f || s.w.key != key)
  }

  /** No other flow is given the address tuple. */
  predicate NoneGiven(actions: seq<Action>, key: Key, f: nat) {
    forall i :: 0 <= i < |actions| && actions[i].WriteTuple? ==> actions[i].fid == f || actions[i].key != key
  }

  lemma {:induction false} RunNotMissed(s: World, actions: seq<Action>, key: Key, hash: Key -> nat, f: nat)
    requires WorldInv(s, hash) && Registered(s, f, key, hash(key)) && NotMissed(s, f, hash(key))
    requires RunOk(s, actions, key, hash, f)
    ensures WorldInv(Run(s, actions, key, hash), hash)
    ensures NotMissed(Run(s, actions, key, hash), f, hash(key))
    decreases actions
  {
    hide NotMissed, Registered, WriterOk, EntryOk, Do;
    if actions != [] {
      var a := actions[0];
      DoKeepsWorld(s, a, key, hash);
      if a.Read? {
        ReadNotMissed(s, f, key, hash);
        ReadKeepsRegistered(s, key, hash, f);
      } else {
        WriteNotMissed(s, a, key, hash, f);
      }
      RunNotMissed(Do(s, a, key, hash), actions[1..], key, hash, f);
    }
  }

  lemma ReadKeepsRegistered(s: World, key: Key, hash: Key -> nat, f: nat)
    requires |s.t| == ENTRIES && Registered(s, f, key, hash(key))
    ensures Registered(Do(s, Read, key, hash), f, key, hash(key))
  {
  }

  /** A lookup never misses a flow that stays registered while it runs, whatever
      the slow path adds, moves or removes meanwhile. */
  lemma NeverMissed(s: World, actions: seq<Action>, key: Key, hash: Key -> nat, f: nat)
    requires WorldInv(s, hash) && Registered(s, f, key, hash(key)) && s.r == ReadId(0)
    requires RunOk(s, actions, key, hash, f)
    ensures Run(s, actions, key, hash).r != NotFound
  {
    RunNotMissed(s, actions, key, hash, f);
  }

  /** What the scan has picked up is flow `f` or has another tuple. */
  predicate PickedUp(s: World, key: Key, f: nat) {
    match s.r
    case ReadHash(_, valid, fid) => valid ==> fid == f || !HasTuple(s, fid, key)
    case Check(_, fid) => fid == f || !HasTuple(s, fid, key)
    case Found(fid) => fid == f
    case _ => true
  }

  lemma DoKeepsPicked(s: World, a: Action, key: Key, hash: Key -> nat, f: nat)
    requires WorldInv(s, hash) && Enabled(s, a, hash) && NoOther(s, key, f) && PickedUp(s, key, f)
    requires a.WriteTuple? ==> a.fid == f || a.key != key
    ensures NoOther(Do(s, a, key, hash), key, f) && PickedUp(Do(s, a, key, hash), key, f)
  {
    hide Dist, Home, Up;
    var s' := Do(s, a, key, hash);
    forall x | 0 <= x < ENTRIES && s'.t[x].valid && s'.t[x].fid != f ensures !HasTuple(s', s'.t[x].fid, key) {
      assert s.t[x].valid && s.t[x].fid != f ==> !HasTuple(s, s.t[x].fid, key);
      if a.PublishCopy? && x == s.w.k {
        assert s.t[s.w.i].valid && s.t[s.w.i].fid != f ==> !HasTuple(s, s.t[s.w.i].fid, key);
      }
    }
  }

  lemma {:induction false} FoundIsFlow(s: World, actions: seq<Action>, key: Key, hash: Key -> nat, f: nat)
    requires WorldInv(s, hash) && RunOk(s, actions, key, hash, f)
    requires NoOther(s, key, f) && PickedUp(s, key, f) && NoneGiven(actions, key, f)
    ensures Run(s, actions, key, hash).r.Found? ==> Run(s, actions, key, hash).r.fid == f
    decreases actions
  {
    hide NoOther, WriterOk, EntryOk, Do;
    if actions != [] {
      DoKeepsWorld(s, actions[0], key, hash);
      DoKeepsPicked(s, actions[0], key, hash, f);
      FoundIsFlow(Do(s, actions[0], key, hash), actions[1..], key, hash, f);
    }
  }

  /** A finished lookup returns exactly the registered flow, as long as no second flow
      in use has its address tuple; flow states that have been freed, which keep their
      old tuples, do no harm. */
  lemma LookupReturnsFlow(s: World, actions: seq<Action>, key: Key, hash: Key -> nat, f: nat)
    requires WorldInv(s, hash) && Registered(s, f, key, hash(key)) && s.r == ReadId(0)
    requires RunOk(s, actions, key, hash, f) && NoOther(s, key, f) && NoneGiven(actions, key, f)
    ensures var r := Run(s, actions, key, hash).r;
            r.Found? || r.NotFound? ==> r == Found(f)
  {
    NeverMissed(s, actions, key, hash, f);
    FoundIsFlow(s, actions, key, hash, f);
  }

  /** Accesses left to the scan. */
  function Work(r: Reader): nat {
    match r
    case ReadId(j) => if j < NBSZ then 3 * (NBSZ - j) else 1
    case ReadHash(j, _, _) => if j < NBSZ then 3 * (NBSZ - j) - 1 else 1
    case Check(j, _) => if j < NBSZ then 3 * (NBSZ - j) - 2 else 1
    case _ => 0
  }

  lemma WorkShrinks(s: World, a: Action, key: Key, hash: Key -> nat)
    requires |s.t| == ENTRIES
    ensures if a.Read? && !s.r.Found? && !s.r.NotFound? then Work(Do(s, a, key, hash).r) < Work(s.r)
            else Work(Do(s, a, key, hash).r) == Work(s.r)
    ensures Work(s.r) <= 3 * NBSZ
  {
    hide Dist, Home, Up;
  }

  function Reads(actions: seq<Action>): nat {
    if actions == [] then 0 else (if actions[0].Read? then 1 else 0) + Reads(actions[1..])
  }

  lemma {:induction false} WorkLeft(s: World, actions: seq<Action>, key: Key, hash: Key -> nat)
    requires |s.t| == ENTRIES
    ensures var r := Run(s, actions, key, hash).r; r.Found? || r.NotFound? || Work(r) + Reads(actions) <= Work(s.r)
    decreases actions
  {
    hide Do;
    if actions != [] {
      WorkShrinks(s, actions[0], key, hash);
      WorkLeft(Do(s, actions[0], key, hash), actions[1..], key, hash);
    }
  }

  /** In every run a lookup has ended after 12 accesses of its own: three for each of
      four slots. The slow path cannot delay it. */
  lemma LookupEnds(s: World, actions: seq<Action>, key: Key, hash: Key -> nat)
    requires |s.t| == ENTRIES && Reads(actions) >= 3 * NBSZ
    ensures var r := Run(s, actions, key, hash).r; r.Found? || r.NotFound?
  {
    WorkShrinks(s, Read, key, hash);
    WorkLeft(s, actions, key, hash);
    WorkShrinks(Run(s, actions, key, hash), Read, key, hash);
  }

  /** A move that `FlowTable.Settle` makes is one the protocol allows if and only if it
      is in room, and its three accesses do exactly what `FlowTable.Move` does. */
  lemma SettleMovesAreSafe(s: World, j: nat, m: nat, i: nat, recompute: bool, key: Key, hash: Key -> nat)
    requires TableOk(s.t) && s.w.Idle? && i < ENTRIES && j < ENTRIES && m < ENTRIES
    requires !s.t[i].valid && Packed(s.t, j, i) && Dist(j, i) >= NBSZ
    requires FirstMovable(s.t, Reach(i), i) == Some(m)
    ensures Enabled(s, CopyHash(m, i), hash) <==> Far(s.t, m) + Dist(m, i) < NBSZ
    ensures var d := if recompute then s.t[m].disp + Dist(m, i) else s.t[m].disp;
            var s1 := Do(s, CopyHash(m, i), key, hash);
            var s2 := Do(s1, PublishCopy(d), key, hash);
            && Enabled(s1, PublishCopy(d), hash) && Enabled(s2, ClearOld, hash)
            && Do(s2, ClearOld, key, hash) == s.(t := Move(s.t, m, i, recompute))
  {
    hide Dist, Home, Up, FirstMovable, Packed;
    CandidateBelow(s.t, j, m, i);
    var d := if recompute then s.t[m].disp + Dist(m, i) else s.t[m].disp;
    var s1 := Do(s, CopyHash(m, i), key, hash);
    var t3 := Do(Do(s1, PublishCopy(d), key, hash), ClearOld, key, hash).t;
    assert forall x :: 0 <= x < ENTRIES ==> t3[x] == Move(s.t, m, i, recompute)[x];
  }

  /* ---------- registering a flow, access by access ---------- */

  /** The accesses of one move. */
  function MoveAccesses(t: Table, m: nat, i: nat, recompute: bool): seq<Action>
    requires TableOk(t) && m < ENTRIES && i < ENTRIES
  {
    [CopyHash(m, i), PublishCopy(if recompute then t[m].disp + Dist(m, i) else t[m].disp), ClearOld]
  }

  /** The accesses of `FlowTable.Settle`, move by move. */
  function SettleAccesses(t: Table, j: nat, i: nat, recompute: bool): seq<Action>
    requires TableOk(t) && i < ENTRIES && j < ENTRIES && !t[i].valid && Packed(t, j, i)
    decreases Dist(j, i)
  {
    if Dist(j, i) < NBSZ then []
    else
      match FirstMovable(t, Reach(i), i)
      case None => []
      case Some(m) =>
        MoveOk(t, m, i, recompute);
        MovePacked(t, j, m, i, recompute);
        MoveAccesses(t, m, i, recompute) + SettleAccesses(Move(t, m, i, recompute), j, m, recompute)
  }

  /** The accesses that make a slot free for hash `h`. */
  function AllocAccesses(t: Table, h: nat, recompute: bool): seq<Action>
    requires TableOk(t)
  {
    var j := Home(h);
    if FirstFree(t, j, NBSZ).Some? then []
    else
      match FirstFree(t, Up(j, NBSZ), 4 * NBSZ)
      case None => []
      case Some(i) =>
        FarPacked(t, j, i);
        SettleAccesses(t, j, i, recompute)
  }

  /** The accesses that register flow `fid` under `tuple`: first the moves, then the
      flow state, then the two words of the free slot. */
  function AddAccesses(t: Table, fid: nat, tuple: Key, hash: Key -> nat, recompute: bool): seq<Action>
    requires TableOk(t)
  {
    var h := hash(tuple);
    AllocAccesses(t, h, recompute) +
    match Alloc(t, h, recompute).1
    case None => []
    case Some(i) => [WriteTuple(fid, tuple), WriteHash(i), Publish]
  }

  ghost predicate AllEnabled(s: World, actions: seq<Action>, key: Key, hash: Key -> nat)
    requires |s.t| == ENTRIES
    decreases actions
  {
    actions == [] ||
    (Enabled(s, actions[0], hash) && AllEnabled(Do(s, actions[0], key, hash), actions[1..], key, hash))
  }

  lemma {:induction false} RunConcat(s: World, a: seq<Action>, b: seq<Action>, key: Key, hash: Key -> nat)
    requires |s.t| == ENTRIES
    ensures Run(s, a + b, key, hash) == Run(Run(s, a, key, hash), b, key, hash)
    ensures AllEnabled(s, a + b, key, hash)
       <==> AllEnabled(s, a, key, hash) && AllEnabled(Run(s, a, key, hash), b, key, hash)
    decreases a
  {
    hide Do, Enabled;
    if a == [] {
      assert a + b == b;
    } else {
      assert (a + b)[1..] == a[1..] + b;
      RunConcat(Do(s, a[0], key, hash), a[1..], b, key, hash);
    }
  }

  lemma RunThree(s: World, a: Action, b: Action, c: Action, key: Key, hash: Key -> nat)
    requires |s.t| == ENTRIES
    ensures var s1 := Do(s, a, key, hash); var s2 := Do(s1, b, key, hash);
            && Run(s, [a, b, c], key, hash) == Do(s2, c, key, hash)
            && (AllEnabled(s, [a, b, c], key, hash) <==>
                Enabled(s, a, hash) && Enabled(s1, b, hash) && Enabled(s2, c, hash))
  {
    hide Do, Enabled;
    var s1 := Do(s, a, key, hash);
    var s2 := Do(s1, b, key, hash);
    assert [a, b, c][1..] == [b, c] && [b, c][1..] == [c] && [c][1..] == [];
    assert Run(s2, [c], key, hash) == Do(s2, c, key, hash);
    assert Run(s1, [b, c], key, hash) == Run(s2, [c], key, hash);
    assert AllEnabled(s2, [c], key, hash) <==> Enabled(s2, c, hash);
    assert AllEnabled(s1, [b, c], key, hash) <==> Enabled(s1, b, hash) && AllEnabled(s2, [c], key, hash);
  }

  lemma MoveAccessesExactly(s: World, j: nat, m: nat, i: nat, recompute: bool, key: Key, hash: Key -> nat)
    requires TableOk(s.t) && s.w.Idle? && i < ENTRIES && j < ENTRIES && m < ENTRIES
    requires !s.t[i].valid && Packed(s.t, j, i) && Dist(j, i) >= NBSZ
    requires FirstMovable(s.t, Reach(i), i) == Some(m)
    ensures var actions := MoveAccesses(s.t, m, i, recompute);
            && (AllEnabled(s, actions, key, hash) <==> Far(s.t, m) + Dist(m, i) < NBSZ)
            && Run(s, actions, key, hash) == s.(t := Move(s.t, m, i, recompute))
  {
    hide Dist, Home, Up, FirstMovable, Packed, Do, Enabled, Move, Run, AllEnabled;
    SettleMovesAreSafe(s, j, m, i, recompute, key, hash);
    var d := if recompute then s.t[m].disp + Dist(m, i) else s.t[m].disp;
    RunThree(s, CopyHash(m, i), PublishCopy(d), ClearOld, key, hash);
  }

  lemma {:induction false} SettleAccessesExactly(s: World, j: nat, i: nat, recompute: bool, key: Key, hash: Key -> nat)
    requires TableOk(s.t) && s.w.Idle? && i < ENTRIES && j < ENTRIES && !s.t[i].valid && Packed(s.t, j, i)
    ensures var actions := SettleAccesses(s.t, j, i, recompute);
            && (AllEnabled(s, actions, key, hash) <==> InRoom(s.t, j, i, recompute))
            && Run(s, actions, key, hash) == s.(t := Settle(s.t, j, i, recompute).0)
    decreases Dist(j, i)
  {
    hide Dist, Home, Up, FirstMovable, Packed, Do, Enabled, Move, MoveAccesses, Far;
    if Dist(j, i) >= NBSZ {
      match FirstMovable(s.t, Reach(i), i)
      case None =>
      case Some(m) =>
        MoveOk(s.t, m, i, recompute);
        CandidateBelow(s.t, j, m, i);
        MovePacked(s.t, j, m, i, recompute);
        MoveAccessesExactly(s, j, m, i, recompute, key, hash);
        var s' := s.(t := Move(s.t, m, i, recompute));
        SettleAccessesExactly(s', j, m, recompute, key, hash);
        RunConcat(s, MoveAccesses(s.t, m, i, recompute), SettleAccesses(s'.t, j, m, recompute), key, hash);
    }
  }

  lemma {:induction false} SettleNotLive(t: Table, j: nat, i: nat, recompute: bool, fid: nat)
    requires TableOk(t) && i < ENTRIES && j < ENTRIES && !t[i].valid && Packed(t, j, i)
    requires forall x :: 0 <= x < ENTRIES ==> !Live(t, fid, x)
    ensures forall x :: 0 <= x < ENTRIES ==> !Live(Settle(t, j, i, recompute).0, fid, x)
    decreases Dist(j, i)
  {
    hide Dist, Home, Up, FirstMovable, Packed, Far;
    if Dist(j, i) >= NBSZ {
      match FirstMovable(t, Reach(i), i)
      case None =>
      case Some(m) =>
        MoveOk(t, m, i, recompute);
        CandidateBelow(t, j, m, i);
        MovePacked(t, j, m, i, recompute);
        var t' := Move(t, m, i, recompute);
        forall x | 0 <= x < ENTRIES ensures !Live(t', fid, x) {
          assert !Live(t, fid, x) && !Live(t, fid, m);
        }
        SettleNotLive(t', j, m, recompute, fid);
    }
  }

  lemma AllocAccessesExactly(s: World, h: nat, recompute: bool, fid: nat, key: Key, hash: Key -> nat)
    requires TableOk(s.t) && s.w.Idle? && forall x :: 0 <= x < ENTRIES ==> !Live(s.t, fid, x)
    ensures var actions := AllocAccesses(s.t, h, recompute);
            && (AllEnabled(s, actions, key, hash) <==> RoomFor(s.t, h, recompute))
            && Run(s, actions, key, hash) == s.(t := Alloc(s.t, h, recompute).0)
    ensures forall x :: 0 <= x < ENTRIES ==> !Live(Alloc(s.t, h, recompute).0, fid, x)
  {
    hide Dist, Home, Up, FirstFree, Packed, InRoom, Settle, SettleAccesses, Live;
    var j := Home(h);
    if FirstFree(s.t, j, NBSZ).None? {
      match FirstFree(s.t, Up(j, NBSZ), 4 * NBSZ)
      case None =>
      case Some(i) =>
        FarPacked(s.t, j, i);
        SettleAccessesExactly(s, j, i, recompute, key, hash);
        SettleNotLive(s.t, j, i, recompute, fid);
    }
  }

  /** Flow state, hash word and id word, in this order, register a flow in a free slot. */
  lemma RegisterAccesses(s: World, i: nat, fid: nat, tuple: Key, key: Key, hash: Key -> nat)
    requires TableOk(s.t) && s.w.Idle? && forall x :: 0 <= x < ENTRIES ==> !Live(s.t, fid, x)
    requires i < ENTRIES && !s.t[i].valid && Dist(Home(hash(tuple)), i) < NBSZ
    ensures var actions := [WriteTuple(fid, tuple), WriteHash(i), Publish];
            && AllEnabled(s, actions, key, hash)
            && Run(s, actions, key, hash)
            == s.(t := s.t[i := Slot(true, Dist(Home(hash(tuple)), i), fid, hash(tuple))], keys := s.keys[fid := tuple])
  {
    hide Dist, Home, Run, AllEnabled, Live;
    RunThree(s, WriteTuple(fid, tuple), WriteHash(i), Publish, key, hash);
    var s2 := Do(Do(s, WriteTuple(fid, tuple), key, hash), WriteHash(i), key, hash);
    assert Do(s2, Publish, key, hash).t == s.t[i := Slot(true, Dist(Home(hash(tuple)), i), fid, hash(tuple))];
  }

  /** All accesses of registering a flow, the moves included, are ones the protocol
      allows if and only if every move is in room, and together they do to the table
      what `FlowTable.Added` does. */
  lemma AddAccessesExactly(s: World, fid: nat, tuple: Key, recompute: bool, key: Key, hash: Key -> nat)
    requires TableOk(s.t) && s.w.Idle? && forall x :: 0 <= x < ENTRIES ==> !Live(s.t, fid, x)
    ensures var actions := AddAccesses(s.t, fid, tuple, hash, recompute);
            && (AllEnabled(s, actions, key, hash) <==> RoomFor(s.t, hash(tuple), recompute))
            && var s' := Run(s, actions, key, hash);
               && s'.t == Added(s.t, fid, hash(tuple), recompute).0 && s'.w == Idle && s'.r == s.r
               && s'.keys == if Added(s.t, fid, hash(tuple), recompute).1 then s.keys[fid := tuple] else s.keys
  {
    hide Dist, Home, Run, AllEnabled, Live, RoomFor, Alloc, AllocAccesses;
    var h := hash(tuple);
    AllocAccessesExactly(s, h, recompute, fid, key, hash);
    var (t', slot) := Alloc(s.t, h, recompute);
    var s1 := s.(t := t');
    match slot
    case None =>
      assert AddAccesses(s.t, fid, tuple, hash, recompute) == AllocAccesses(s.t, h, recompute);
    case Some(i) =>
      RegisterAccesses(s1, i, fid, tuple, key, hash);
      RunConcat(s, AllocAccesses(s.t, h, recompute), [WriteTuple(fid, tuple), WriteHash(i), Publish], key, hash);
  }

  /* ---------- a lookup while a flow is registered ---------- */

  /** The accesses of the slow path among `actions`. */
  function Writes(actions: seq<Action>): seq<Action> {
    if actions == [] then []
    else (if actions[0].Read? then [] else [actions[0]]) + Writes(actions[1..])
  }

  /** The fast path reads only while its scan is under way. */
  ghost predicate ReadsOk(s: World, actions: seq<Action>, key: Key, hash: Key -> nat)
    requires |s.t| == ENTRIES
    decreases actions
  {
    actions == [] ||
    ((actions[0].Read? ==> Enabled(s, Read, hash)) && ReadsOk(Do(s, actions[0], key, hash), actions[1..], key, hash))
  }

  predicate OnlyWrites(actions: seq<Action>) {
    forall i :: 0 <= i < |actions| ==> !actions[i].Read? && !actions[i].Remove?
  }

  lemma DoIgnoresReader(s: World, r: Reader, a: Action, key: Key, hash: Key -> nat)
    requires |s.t| == ENTRIES && !a.Read?
    ensures Do(s.(r := r), a, key, hash) == Do(s, a, key, hash).(r := r)
    ensures Enabled(s.(r := r), a, hash) <==> Enabled(s, a, hash)
  {
    hide Dist, Home, Up;
  }

  lemma {:induction false} WritesIgnoreReader(s: World, r: Reader, actions: seq<Action>, key: Key, hash: Key -> nat)
    requires |s.t| == ENTRIES && OnlyWrites(actions)
    ensures AllEnabled(s.(r := r), actions, key, hash) <==> AllEnabled(s, actions, key, hash)
    ensures Run(s.(r := r), actions, key, hash) == Run(s, actions, key, hash).(r := r)
    decreases actions
  {
    hide Do, Enabled;
    if actions != [] {
      DoIgnoresReader(s, r, actions[0], key, hash);
      WritesIgnoreReader(Do(s, actions[0], key, hash), r, actions[1..], key, hash);
    }
  }

  /** However the reads fall between them, the writes stay allowed and do the same. */
  lemma {:induction false} Interleaved(s: World, actions: seq<Action>, key: Key, hash: Key -> nat, f: nat)
    requires |s.t| == ENTRIES && ReadsOk(s, actions, key, hash) && OnlyWrites(Writes(actions))
    requires AllEnabled(s, Writes(actions), key, hash)
    ensures RunOk(s, actions, key, hash, f)
    ensures Run(s, actions, key, hash).t == Run(s, Writes(actions), key, hash).t
    decreases actions
  {
    hide Enabled, ReadStep;
    if actions != [] {
      var a, ws := actions[0], Writes(actions[1..]);
      if a.Read? {
        assert Writes(actions) == ws;
        WritesIgnoreReader(s, ReadStep(s, key, hash(key)), ws, key, hash);
      } else {
        assert Writes(actions) == [a] + ws && Writes(actions)[1..] == ws && Writes(actions)[0] == a;
      }
      Interleaved(Do(s, a, key, hash), actions[1..], key, hash, f);
    }
  }

  lemma {:induction false} SettleOnlyWrites(t: Table, j: nat, i: nat, recompute: bool)
    requires TableOk(t) && i < ENTRIES && j < ENTRIES && !t[i].valid && Packed(t, j, i)
    ensures OnlyWrites(SettleAccesses(t, j, i, recompute))
    decreases Dist(j, i)
  {
    hide Dist, Home, Up, FirstMovable, Packed, Move;
    if Dist(j, i) >= NBSZ {
      match FirstMovable(t, Reach(i), i)
      case None =>
      case Some(m) =>
        MoveOk(t, m, i, recompute);
        CandidateBelow(t, j, m, i);
        MovePacked(t, j, m, i, recompute);
        SettleOnlyWrites(Move(t, m, i, recompute), j, m, recompute);
    }
  }

  lemma AddOnlyWrites(t: Table, fid: nat, tuple: Key, hash: Key -> nat, recompute: bool)
    requires TableOk(t)
    ensures OnlyWrites(AddAccesses(t, fid, tuple, hash, recompute))
  {
    hide Dist, Home, Up, FirstFree, Packed, Settle, SettleAccesses, Alloc;
    var j := Home(hash(tuple));
    if FirstFree(t, j, NBSZ).None? {
      match FirstFree(t, Up(j, NBSZ), 4 * NBSZ)
      case None =>
      case Some(i) =>
        FarPacked(t, j, i);
        SettleOnlyWrites(t, j, i, recompute);
    }
  }

  /** While a flow is being registered with every move in room, up to any access of it
      and however reads fall between them, a lookup does not miss a registered flow. */
  lemma LookupDuringAdd(s: World, fid: nat, tuple: Key, recompute: bool, actions: seq<Action>, rest: seq<Action>,
                        key: Key, hash: Key -> nat, f: nat)
    requires WorldInv(s, hash) && TableOk(s.t) && s.w.Idle? && forall x :: 0 <= x < ENTRIES ==> !Live(s.t, fid, x)
    requires RoomFor(s.t, hash(tuple), recompute)
    requires Registered(s, f, key, hash(key)) && s.r == ReadId(0) && ReadsOk(s, actions, key, hash)
    requires Writes(actions) + rest == AddAccesses(s.t, fid, tuple, hash, recompute)
    ensures Run(s, actions, key, hash).r != NotFound
    ensures rest == [] ==> Run(s, actions, key, hash).t == Added(s.t, fid, hash(tuple), recompute).0
  {
    hide WorldInv, Registered, Run, AllEnabled, ReadsOk, RoomFor, AddAccesses, Added, Live;
    var all := AddAccesses(s.t, fid, tuple, hash, recompute);
    AddAccessesExactly(s, fid, tuple, recompute, key, hash);
    AddOnlyWrites(s.t, fid, tuple, hash, recompute);
    RunConcat(s, Writes(actions), rest, key, hash);
    assert forall i :: 0 <= i < |Writes(actions)| ==> Writes(actions)[i] == all[i];
    Interleaved(s, actions, key, hash, f);
    NeverMissed(s, actions, key, hash, f);
    assert rest == [] ==> Writes(actions) == all;
  }
}
