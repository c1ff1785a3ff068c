/**
 Flow ids: a free list threaded through an array, and runs of connections that take
 their ids from it, which is why an id is never given to two flows at once.
 */
module FlowIds {
  import opened Basics
  import opened FlowTable

  const FLOWS: nat := 131072

  predicate AreIds(ids: seq<nat>) {
    forall i :: 0 <= i < |ids| ==> ids[i] < FLOWS
  }

  /** The id at position `i`; past the end, no id. */
  function IdAt(ids: seq<nat>, i: nat): nat {
    if i < |ids| then ids[i] else FLOWS
  }

  class FlowIdPool {
    const next: array<nat>
    var first: nat

    ghost var free: seq<nat>

    /** `first` and the links spell the free list, on which no id is twice. */
    ghost predicate Valid()
      reads this, next
    {
      && next.Length == FLOWS && AreIds(free) && NoDup(free) && first == IdAt(free, 0)
      && forall i {:trigger free[i]} :: 0 <= i < |free| ==> next[free[i]] == IdAt(free, i + 1)
    }

    constructor ()
      ensures Valid() && fresh(next) && |free| == FLOWS
      ensures forall i :: 0 <= i < FLOWS ==> free[i] == i
    {
      next := new nat[FLOWS](i => i + 1);
      first := 0;
      free := seq(FLOWS, i => i);
    }

    method Alloc() returns (rc: int, fid: nat)
      requires Valid()
      modifies this
      ensures Valid()
      ensures if old(free) == [] then rc == -1 && free == []
              else rc == 0 && fid == old(free)[0] && free == old(free)[1..]
    {
      if first == FLOWS {
        return -1, 0;
      }
      fid := first;
      first := next[fid];
      free := free[1..];
      return 0, fid;
    }

    method Free(fid: nat)
      requires Valid() && fid < FLOWS && fid !in free
      modifies this, next
      ensures Valid() && free == [fid] + old(free)
    {
      next[fid] := first;
      first := fid;
      free := [fid] + free;
    }
  }

  /* ---------- connections ---------- */

  datatype Conns = Conns(free: seq<nat>, t: Table, reg: set<(nat, nat)>)

  datatype Step = Connect(hash: nat) | Disconnect(fid: nat, hash: nat) | Release(fid: nat)

  ghost predicate ConnsOk(c: Conns) {
    TableOk(c.t) && NoDup(c.free) && forall fid: nat, hash: nat :: (fid, hash) in c.reg ==> fid !in c.free
  }

  /** An id is released once, after its flow has been taken out. */
  ghost predicate StepOk(c: Conns, s: Step) {
    s.Release? ==> s.fid !in c.free && forall hash: nat :: (s.fid, hash) !in c.reg
  }

  /** What a step does to the table. */
  function TableOps(c: Conns, s: Step): seq<Op> {
    match s
    case Connect(hash) => if c.free == [] then [] else [AddFlow(c.free[0], hash)]
    case Disconnect(fid, hash) => [ClearFlow(fid, hash)]
    case Release(_) => []
  }

  /** A connection takes the first free id, which goes back if there is no slot. */
  ghost function Do(c: Conns, s: Step, recompute: bool): (c': Conns)
    requires TableOk(c.t)
    ensures TableOk(c'.t)
  {
    match s
    case Connect(hash) =>
      if c.free == [] then c else
        var r := Added(c.t, c.free[0], hash, recompute);
        Conns(if r.1 then c.free[1..] else c.free, r.0, Track(c.reg, c.t, AddFlow(c.free[0], hash), recompute))
    case Disconnect(fid, hash) => c.(t := Clear(c.t, fid, hash), reg := c.reg - {(fid, hash)})
    case Release(fid) => c.(free := [fid] + c.free)
  }

  lemma DoKeeps(c: Conns, s: Step, recompute: bool)
    requires ConnsOk(c) && StepOk(c, s)
    ensures ConnsOk(Do(c, s, recompute))
  {
    hide Added, Clear;
    if s.Connect? && c.free != [] {
      assert forall i :: 0 <= i < |c.free[1..]| ==> c.free[1..][i] == c.free[i + 1];
    }
  }

  ghost predicate RunOk(c: Conns, steps: seq<Step>, recompute: bool)
    requires TableOk(c.t)
    decreases |steps|
  {
    steps == [] || (StepOk(c, steps[0]) && RunOk(Do(c, steps[0], recompute), steps[1..], recompute))
  }

  ghost function OpsOf(c: Conns, steps: seq<Step>, recompute: bool): seq<Op>
    requires TableOk(c.t)
    decreases |steps|
  {
    if steps == [] then []
    else TableOps(c, steps[0]) + OpsOf(Do(c, steps[0], recompute), steps[1..], recompute)
  }

  /** Over every run of connections each flow added has an id of its own. */
  lemma {:induction false} IdsAreFresh(c: Conns, steps: seq<Step>, recompute: bool)
    requires ConnsOk(c) && RunOk(c, steps, recompute)
    ensures FreshRun(c.reg, c.t, OpsOf(c, steps, recompute), recompute)
    decreases |steps|
  {
    hide Added, Clear, TableOk;
    if steps != [] {
      DoKeeps(c, steps[0], recompute);
      var c1 := Do(c, steps[0], recompute);
      var rest := OpsOf(c1, steps[1..], recompute);
      IdsAreFresh(c1, steps[1..], recompute);
      if TableOps(c, steps[0]) == [] {
        assert OpsOf(c, steps, recompute) == rest;
      } else {
        var op := TableOps(c, steps[0])[0];
        assert OpsOf(c, steps, recompute) == [op] + rest;
        assert ([op] + rest)[1..] == rest;
        assert Apply(c.t, op, recompute) == c1.t && Track(c.reg, c.t, op, recompute) == c1.reg;
      }
    }
  }

  /** So over every run of connections the table holds exactly the flows in use, all
      findable, if and only if every addition is in room. */
  lemma ConnectionsInStep(c: Conns, steps: seq<Step>, recompute: bool)
    requires ConnsOk(c) && TableInv(c.t, c.reg) && RunOk(c, steps, recompute)
    ensures var ops := OpsOf(c, steps, recompute);
            AlwaysInStep(c.t, c.reg, ops, recompute) <==> AllInRoom(c.t, ops, recompute)
  {
    IdsAreFresh(c, steps, recompute);
    RunKeeps(c.t, c.reg, OpsOf(c, steps, recompute), recompute);
  }
}
