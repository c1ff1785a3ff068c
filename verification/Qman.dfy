/**
 The queue manager as it runs: queues linked by index in place, comparing 32-bit
 stamps. Every operation is proved to do what the scheduler does over unbounded
 time (`spec`), so the skip-list shape and all run properties of the scheduler
 hold of it.
 */
module Qman {
  import opened Basics
  import opened WrapTime
  import opened Scheduler
  import opened QmanState

  /** A queue served: its index and the bytes it may send. */
  datatype Grant = Grant(id: nat, bytes: nat)

  function Grants(log: seq<Shot>): (g: seq<Grant>)
    ensures |g| == |log|
  {
    if log == [] then [] else [Grant(log[0].id, log[0].bytes)] + Grants(log[1..])
  }

  lemma {:induction false} GrantsConcat(l1: seq<Shot>, l2: seq<Shot>)
    ensures Grants(l1 + l2) == Grants(l1) + Grants(l2)
  {
    if l1 == [] {
      assert l1 + l2 == l2;
    } else {
      assert (l1 + l2)[1..] == l1[1..] + l2;
      GrantsConcat(l1[1..], l2);
    }
  }

  /** Each shot is granted to its queue, with its bytes. */
  lemma {:induction false} GrantsAre(log: seq<Shot>, i: nat)
    requires i < |log|
    ensures Grants(log)[i] == Grant(log[i].id, log[i].bytes)
  {
    if i > 0 {
      GrantsAre(log[1..], i - 1);
    }
  }

  /** The stamp `bytes` from now at `rate`. */
  function NewTs(tsVirtual: nat, rate: nat, bytes: nat): nat
    requires rate > 0
  {
    (tsVirtual + Cost(bytes, rate)) % TS_MOD
  }

  class QueueManager {
    const queues: array<Queue>
    var head: seq<nat>
    var nolimitHead: nat
    var nolimitTail: nat
    var tsReal: nat
    var tsVirtual: nat
    var nolimitFirst: bool

    /** The scheduler state this memory stands for, and the level of each queue. */
    ghost var spec: Sched
    ghost var height: seq<nat>

    ghost function View(): Memory
      reads this, queues
    {
      Memory(queues[..], head, nolimitHead, nolimitTail, tsReal, tsVirtual, nolimitFirst)
    }

    ghost predicate Valid()
      reads this, queues
    {
      Represents(View(), height, spec) && Inv(spec)
    }

    /** Valid, with `idx` taken off its list. */
    ghost predicate ValidBut(idx: nat)
      reads this, queues
    {
      Represents(View(), height, spec) && InvBut(spec, idx)
    }

    /** All lists empty, virtual time 0, real time `cur`. */
    constructor (n: nat, ts: nat, ghost cur: int)
      requires n < NONE && ts == Stamp(cur)
      ensures Valid() && fresh(queues) && queues.Length == n
      ensures spec == Sched(0, cur, false, seq(n, _ => Client(0, 0, 0, 0)), [], [])
    {
      queues := new Queue[n](_ => Queue([0, 0, 0, 0], 0, 0, 0, 0, false, false));
      head := [NONE, NONE, NONE, NONE];
      nolimitHead, nolimitTail := NONE, NONE;
      tsVirtual, tsReal, nolimitFirst := 0, ts, false;
      spec := Sched(0, cur, false, seq(n, _ => Client(0, 0, 0, 0)), [], []);
      height := seq(n, _ => 0);
    }

    method ActivateNolimit(idx: nat)
      requires ValidBut(idx) && spec.clients[idx].rate == 0
      modifies this, queues
      ensures Valid() && spec == Activate(old(spec), idx)
    {
      hide Represents, InvBut, Inv, Activate;
      ghost var m := View();
      InvButLists(spec, idx);
      RepresentsShape(m, height, spec);
      ActivateKeeps(spec, idx);
      NolimitAppended(m, height, spec, idx);
      queues[idx] := queues[idx].(inNolimit := true, next := queues[idx].next[0 := NONE]);
      if nolimitTail == NONE {
        nolimitHead, nolimitTail := idx, idx;
      } else {
        queues[nolimitTail] := queues[nolimitTail].(next := queues[nolimitTail].next[0 := idx]);
        nolimitTail := idx;
      }
      assert queues[..] == Appended(m.queues, m.nolimitTail, idx);
      spec := Activate(spec, idx);
    }

    /** The last queue of level `l` that is due by `d`, searching from a queue
        already known to be due (or from the head). */
    method FindPred(l: nat, start: nat, ts: nat, ghost d: int) returns (pred: nat)
      requires Represents(View(), height, spec) && ListsOk(spec) && l < LEVELS
      requires ts == Stamp(d) && spec.now <= d < spec.now + HALF
      requires start == NONE ||
               start in AtLevel(spec.timed[..Rank(spec.clients, spec.timed, d)], height, l)
      ensures pred == LastOf(AtLevel(spec.timed[..Rank(spec.clients, spec.timed, d)], height, l))
    {
      hide Represents, ListsOk, AtLevel, Rank, LessEq, Upcoming, Chain;
      LevelChain(View(), height, spec, l);
      ghost var p := Rank(spec.clients, spec.timed, d);
      ghost var xs, early := AtLevel(spec.timed, height, l), AtLevel(spec.timed[..p], height, l);
      LevelCut(spec, height, l, d);

      ghost var i: nat := 0;
      ChainAt(queues[..], l, head[l], xs, 0);
      var idx := if start != NONE then start else head[l];
      pred := start;
      if start != NONE {
        i :| 0 <= i < |early| && early[i] == start;
        assert xs[i] == early[i];
      }
      while idx != NONE && LessEq(tsVirtual, queues[idx].nextTs, ts)
        invariant 0 <= i <= |early|
        invariant idx == if i < |xs| then xs[i] else NONE
        invariant (i == 0 && pred == NONE) || (i > 0 && pred == xs[i - 1]) || (i < |early| && pred == xs[i])
        invariant idx != NONE ==> idx < queues.Length
        decreases |early| - i
      {
        assert i < |early| by { StampDecides(View(), height, spec, xs[i], d); }
        ChainAt(queues[..], l, head[l], xs, i);
        pred := idx;
        idx := queues[idx].next[l];
        i := i + 1;
      }
      if i < |early| {
        StampDecides(View(), height, spec, xs[i], d);
      }
    }

    /** The predecessors of a queue due at `d`, level by level from the top. */
    method FindPreds(ts: nat, ghost d: int) returns (preds: seq<nat>)
      requires Represents(View(), height, spec) && ListsOk(spec)
      requires ts == Stamp(d) && spec.now <= d < spec.now + HALF
      ensures |preds| == LEVELS
      ensures forall l :: 0 <= l < LEVELS ==>
                preds[l] == LastOf(AtLevel(spec.timed[..Rank(spec.clients, spec.timed, d)], height, l))
    {
      hide Represents, ListsOk, AtLevel, Rank;
      LevelChain(View(), height, spec, 0);
      ghost var early := spec.timed[..Rank(spec.clients, spec.timed, d)];
      preds := [NONE, NONE, NONE, NONE];
      var pred := NONE;
      for l := LEVELS downto 0
        invariant |preds| == LEVELS
        invariant pred == NONE || pred in AtLevel(early, height, l)
        invariant forall k :: l <= k < LEVELS ==> preds[k] == LastOf(AtLevel(early, height, k))
      {
        AtLevelMembers(early, height, l);
        AtLevelMembers(early, height, l + 1);
        pred := FindPred(l, pred, ts, d);
        preds := preds[l := pred];
        assert AtLevel(early, height, l) != [] ==> LastOf(AtLevel(early, height, l)) in AtLevel(early, height, l);
      }
    }

    method SetLink(i: nat, l: nat, n: nat)
      requires Shaped(queues[..]) && i < queues.Length && l < LEVELS
      modifies queues
      ensures queues[..] == Relink(old(queues[..]), i, l, n)
    {
      queues[i] := queues[i].(next := queues[i].next[l := n]);
    }

    /** Links queue `q` into level `l` behind `pred` if it reaches that level. */
    method LinkLevel(l: nat, level: nat, q: nat, pred: nat, ghost xs: seq<nat>, ghost m: nat)
      requires l < LEVELS && Shaped(queues[..]) && |head| == LEVELS
      requires Chain(queues[..], l, head[l], xs) && NoDup(xs)
      requires m <= |xs| && pred == LastOf(xs[..m])
      requires q < queues.Length && q !in xs
      modifies this`head, queues
      ensures Shaped(queues[..]) && SameFields(old(queues[..]), queues[..])
      ensures |head| == LEVELS
      ensures Chain(queues[..], l, head[l], if l <= level then Insert(xs, m, q) else xs)
      ensures forall k :: 0 <= k < LEVELS && k != l ==> head[k] == old(head[k])
      ensures forall i, k :: 0 <= i < queues.Length && 0 <= k < LEVELS && (k != l || (i != q && i !in xs)) ==>
                queues[i].next[k] == old(queues[i].next[k])
    {
      hide Chain, Insert, After, LastOf, Relink, NoDup;
      ghost var qs := queues[..];
      PredIs(qs, l, head[l], xs, m);
      if l > level {
        NotLinked(qs, l, head[l], xs, q);
        SetLink(q, l, NONE);
      } else if pred != NONE {
        LinkedBehind(qs, l, head[l], xs, m, q);
        SetLink(q, l, queues[pred].next[l]);
        SetLink(pred, l, q);
      } else {
        LinkedFirst(qs, l, head[l], xs, q);
        SetLink(q, l, head[l]);
        head := head[l := q];
      }
      assert LinkedAt(qs, queues[..], l, xs, q);
    }

    /** Links queue `idx` into all levels up to `level`. */
    method LinkAll(idx: nat, level: nat, preds: seq<nat>, ghost p: nat)
      requires ValidBut(idx) && level < LEVELS && p <= |spec.timed|
      requires |preds| == LEVELS
      requires forall l :: 0 <= l < LEVELS ==> preds[l] == LastOf(AtLevel(spec.timed[..p], height, l))
      modifies this`head, queues
      ensures Shaped(queues[..]) && SameFields(old(queues[..]), queues[..])
      ensures Levels(queues[..], head, height[idx := level], Insert(spec.timed, p, idx))
      ensures forall i :: 0 <= i < queues.Length && i != idx && i !in spec.timed ==>
                queues[i].next == old(queues[i].next)
    {
      hide Represents, InvBut, ListsOk, AtLevel, Insert, Chain, Shaped;
      InvButLists(spec, idx);
      TimedNoDup(spec);
      LevelChain(View(), height, spec, 0);
      ghost var qs, timed := queues[..], spec.timed;
      ghost var timed', height' := Insert(timed, p, idx), height[idx := level];
      forall l | 0 <= l < LEVELS ensures Chain(qs, l, head[l], AtLevel(timed, height, l)) {
        LevelChain(View(), height, spec, l);
      }
      NewLevel(timed, height, p, idx, level, 0);
      for l := LEVELS downto 0
        invariant Shaped(queues[..]) && SameFields(qs, queues[..])
        invariant |head| == LEVELS
        invariant forall k :: l <= k < LEVELS ==> Chain(queues[..], k, head[k], AtLevel(timed', height', k))
        invariant forall k :: 0 <= k < l ==> Chain(queues[..], k, head[k], AtLevel(timed, height, k))
        invariant forall i :: 0 <= i < queues.Length && i != idx && i !in timed ==> queues[i].next == qs[i].next
      {
        ghost var before, h := queues[..], head;
        ghost var xs, m := AtLevel(timed, height, l), |AtLevel(timed[..p], height, l)|;
        NewLevel(timed, height, p, idx, level, l);
        AtLevelMembers(timed, height, l);
        AtLevelNoDup(timed, height, l);
        LinkLevel(l, level, idx, preds[l], xs, m);
        OtherLevels(before, queues[..], h, head, l, timed, height, timed', height');
        LinksOutside(before, queues[..], l, idx, timed, xs);
      }
    }

    /** Gives a queue that enters the skip list a reasonable send time: not in
        the past, and no later than if it had just sent a maximum chunk. */
    method ClampTs(idx: nat)
      requires ValidBut(idx) && spec.clients[idx].rate > 0
      modifies this`spec, queues
      ensures ValidBut(idx)
      ensures var c := old(spec).clients[idx];
              spec == old(spec).(clients := old(spec).clients[idx :=
                        c.(due := Placed(old(spec).now, c.due, Cost(c.chunk, c.rate)))])
    {
      hide Represents, InvBut, Inv, LessEq, Placed, Cost;
      InvButLists(spec, idx);
      ghost var m, c := View(), spec.clients[idx];
      ghost var d := Placed(spec.now, c.due, Cost(c.chunk, c.rate));
      QueueFields(m, height, spec, idx);
      PlacedStamp(spec.now, c.due, Cost(c.chunk, c.rate));
      var ts := queues[idx].nextTs;
      var maxTs := NewTs(tsVirtual, queues[idx].rate, queues[idx].maxChunk);
      if LessEq(tsVirtual, ts, tsVirtual) {
        ts := tsVirtual;
      } else if !LessEq(tsVirtual, ts, maxTs) {
        ts := maxTs;
      }
      queues[idx] := queues[idx].(nextTs := ts);
      ClientChanged(m, height, spec, idx, c.(due := d));
      ClientChangedInvBut(spec, idx, c.(due := d));
      spec := spec.(clients := spec.clients[idx := c.(due := d)]);
      assert View() == m.(queues := queues[..]);
    }

    method ActivateSkiplist(idx: nat)
      requires ValidBut(idx) && spec.clients[idx].rate > 0
      modifies this, queues
      ensures Valid() && spec == Activate(old(spec), idx)
    {
      hide Represents, InvBut, Inv, ListsOk, Placed, Cost, Rank, AtLevel, Levels;
      InvButLists(spec, idx);
      RepresentsShape(View(), height, spec);
      ghost var s0, c0 := spec, spec.clients[idx];
      ActivateKeeps(spec, idx);
      ghost var d := Placed(s0.now, c0.due, Cost(c0.chunk, c0.rate));
      ghost var p := Rank(s0.clients, s0.timed, d);
      ClampIsIdempotent(s0, idx);
      ClampTs(idx);
      ghost var m := View();
      InvButLists(spec, idx);
      RankFrame(s0.clients, spec.clients, s0.timed, d);
      QueueFields(m, height, spec, idx);
      var preds := FindPreds(queues[idx].nextTs, d);
      var level :| 0 <= level < LEVELS;
      LinkAll(idx, level, preds, p);
      LevelsFlag(queues[..], head, height[idx := level], Insert(spec.timed, p, idx), idx);
      queues[idx] := queues[idx].(inSkiplist := true);
      SkiplistInserted(m, View(), height, spec, idx, level);
      spec, height := Activate(s0, idx), height[idx := level];
    }

    method ActivateQueue(idx: nat)
      requires ValidBut(idx)
      modifies this, queues
      ensures Valid() && spec == Activate(old(spec), idx)
    {
      hide Represents, InvBut, Inv, Activate;
      InvButLists(spec, idx);
      QueueFields(View(), height, spec, idx);
      if queues[idx].rate == 0 {
        ActivateNolimit(idx);
      } else {
        ActivateSkiplist(idx);
      }
    }

    /** Writes what a request asks for into a queue, and says whether that is bytes. */
    method WriteFields(id: nat, r: Request) returns (newAvail: bool)
      requires Represents(View(), height, spec) && id < queues.Length && id < |spec.clients|
      modifies this`spec, queues
      ensures Represents(View(), height, spec)
      ensures spec == old(spec).(clients := old(spec).clients[id := Updated(old(spec).clients[id], r)])
      ensures newAvail <==> r.setAvail || r.addAvail
    {
      hide Represents;
      ghost var m, s, c := View(), spec, Updated(spec.clients[id], r);
      QueueFields(m, height, s, id);
      newAvail := false;
      if r.setRate {
        queues[id] := queues[id].(rate := r.rate);
      }
      if r.setChunk {
        queues[id] := queues[id].(maxChunk := r.chunk);
      }
      if r.setAvail {
        queues[id] := queues[id].(avail := r.avail);
        newAvail := true;
      } else if r.addAvail {
        queues[id] := queues[id].(avail := (queues[id].avail + r.avail) % TS_MOD);
        newAvail := true;
      }
      ClientChanged(m, height, s, id, c);
      spec := s.(clients := s.clients[id := c]);
      assert queues[..] == m.queues[id := m.queues[id].(nextTs := Stamp(c.due), rate := c.rate,
                                                         avail := c.avail, maxChunk := c.chunk)];
    }

    /** Changes a queue; -1 if there is no such queue. */
    method Set(id: nat, r: Request) returns (rc: int)
      requires Valid()
      requires id < queues.Length ==> Fits(Updated(spec.clients[id], r))
      modifies this, queues
      ensures Valid()
      ensures if id < queues.Length then rc == 0 && spec == ApplySet(old(spec), id, r)
              else rc == -1 && unchanged(this) && unchanged(queues)
      ensures id < queues.Length ==> Requested(old(queues[id]), queues[id], r)
      ensures forall x :: 0 <= x < queues.Length && x != id ==> SameContent(old(queues[x]), queues[x])
    {
      hide Represents, InvBut, Inv, Activate, Requested, SameContent;
      if id >= queues.Length {
        forall x | 0 <= x < queues.Length ensures SameContent(queues[x], queues[x]) {
          SameAsItself(queues[x]);
        }
        return -1;
      }
      InvHasLists(spec);
      RepresentsShape(View(), height, spec);
      ApplySetKeeps(spec, id, r);
      ghost var m, s, height0 := View(), spec, height;
      var newAvail := WriteFields(id, r);
      QueueFields(View(), height, spec, id);
      if newAvail && queues[id].avail > 0 && !queues[id].inSkiplist && !queues[id].inNolimit {
        SetInvBut(s, id, Updated(s.clients[id], r));
        ActivateQueue(id);
      }
      SetInFields(m, View(), height0, height, s, id, r);
      rc := 0;
    }

    /** Serves a queue that has just left its list. */
    method FireQueue(idx: nat) returns (g: Grant)
      requires ValidBut(idx) && spec.clients[idx].avail > 0
      modifies this, queues
      ensures Valid() && spec == Fire(old(spec), idx)
      ensures [g] == Grants([ShotOf(old(spec), idx)])
    {
      hide Represents, InvBut, Inv, Activate, Cost;
      InvButLists(spec, idx);
      QueueFields(View(), height, spec, idx);
      FireKeeps(spec, idx);
      ghost var m, s, c := View(), spec, Served(spec.clients[idx], spec.now);
      var bytes := if queues[idx].avail <= queues[idx].maxChunk then queues[idx].avail else queues[idx].maxChunk;
      queues[idx] := queues[idx].(avail := queues[idx].avail - bytes);
      if queues[idx].rate > 0 {
        ModAdd(TS_MOD, s.now, Cost(bytes, queues[idx].rate));
        queues[idx] := queues[idx].(nextTs := NewTs(tsVirtual, queues[idx].rate, bytes));
      }
      ClientChanged(m, height, s, idx, c);
      ServedKeepsInvBut(s, idx);
      spec := s.(clients := s.clients[idx := c]);
      assert queues[..] == m.queues[idx := m.queues[idx].(nextTs := Stamp(c.due), rate := c.rate,
                                                         avail := c.avail, maxChunk := c.chunk)];
      if queues[idx].avail > 0 {
        ActivateQueue(idx);
      }
      g := Grant(idx, bytes);
    }

    /** The turn of a queue that has just left its list. */
    method TurnQueue(idx: nat) returns (out: seq<Grant>)
      requires ValidBut(idx)
      modifies this, queues
      ensures Valid() && InRange(old(spec)) && spec == Turn(old(spec), idx).0
      ensures out == Grants(Turn(old(spec), idx).1)
    {
      hide Represents, InvBut, Inv, Fire;
      InvButLists(spec, idx);
      QueueFields(View(), height, spec, idx);
      out := [];
      if queues[idx].avail > 0 {
        var g := FireQueue(idx);
        out := [g];
      } else {
        NotReadyInv(spec, idx);
      }
    }

    /** Takes the first queue off the no-limit list. */
    method TakeNolimit() returns (idx: nat)
      requires Valid() && spec.fifo != []
      modifies this, queues
      ensures idx == old(spec).fifo[0] && spec == PopFifo(old(spec)) && ValidBut(idx)
    {
      hide Represents, InvBut, Inv;
      FifoHead(View(), height, spec);
      NolimitPopped(View(), height, spec);
      PopFifoKeeps(spec);
      idx := nolimitHead;
      nolimitHead := queues[idx].next[0];
      if queues[idx].next[0] == NONE {
        nolimitTail := NONE;
      }
      queues[idx] := queues[idx].(inNolimit := false);
      spec := PopFifo(spec);
    }

    /** Serves up to `num` queues of the no-limit list. */
    method PollNolimit(num: nat) returns (out: seq<Grant>)
      requires Valid()
      modifies this, queues
      ensures Valid() && spec == PollFifo(old(spec), num).0
      ensures out == Grants(PollFifo(old(spec), num).1)
    {
      hide Represents, InvBut, Inv, PollFifo, Turn;
      out := [];
      InvInRange(spec);
      ghost var log: seq<Shot> := [];
      ghost var s0 := spec;
      assert [] + PollFifo(s0, num).1 == PollFifo(s0, num).1;
      while |out| < num && nolimitHead != NONE
        invariant Valid() && InRange(s0) && InRange(spec)
        invariant |out| <= num && out == Grants(log)
        invariant PollFifo(s0, num) == (PollFifo(spec, num - |out|).0, log + PollFifo(spec, num - |out|).1)
        decreases num - |out|, |spec.fifo|
      {
        FifoHead(View(), height, spec);
        PollFifoStep(spec, num - |out|);
        var idx := TakeNolimit();
        ghost var s := spec;
        var g := TurnQueue(idx);
        out := out + g;
        ghost var t := Turn(s, idx);
        InvInRange(spec);
        GrantsConcat(log, t.1);
        Reassociate(log, t.1, PollFifo(spec, num - |out|).1);
        log := log + t.1;
      }
      FifoHead(View(), height, spec);
      PollFifoStop(spec, num - |out|);
      assert log + [] == log;
    }

    /** Takes the first queue off every level it heads. */
    method PopLevels(idx: nat)
      requires Valid() && spec.timed != [] && idx == spec.timed[0]
      modifies this`head
      ensures Shaped(queues[..]) && Levels(queues[..], head, height, spec.timed[1..])
    {
      hide Represents, Inv, AtLevel, Chain, Shaped;
      ghost var timed := spec.timed;
      InvHasLists(spec);
      TimedNoDup(spec);
      LevelChain(View(), height, spec, 0);
      forall l | 0 <= l < LEVELS ensures Chain(queues[..], l, head[l], AtLevel(timed, height, l)) {
        LevelChain(View(), height, spec, l);
      }
      var l := 0;
      while l < LEVELS && head[l] == idx
        invariant 0 <= l <= LEVELS && |head| == LEVELS
        invariant forall k :: 0 <= k < l ==> Chain(queues[..], k, head[k], AtLevel(timed[1..], height, k))
        invariant forall k :: l <= k < LEVELS ==> Chain(queues[..], k, head[k], AtLevel(timed, height, k))
        invariant l == 0 || height[idx] >= l - 1
      {
        HeadPopped(queues[..], l, head[l], timed, height);
        head := head[l := queues[idx].next[l]];
        l := l + 1;
      }
      forall k | l <= k < LEVELS ensures Chain(queues[..], k, head[k], AtLevel(timed[1..], height, k)) {
        HeadPopped(queues[..], l, head[l], timed, height);
        HeadLevel(timed, height, k);
      }
    }

    /** Takes the first queue off the skip list and moves virtual time to its
        send time. */
    method TakeSkiplist(idx: nat)
      requires Valid() && spec.timed != [] && idx == spec.timed[0]
      modifies this, queues
      ensures spec == PopTimed(old(spec)) && ValidBut(idx) && spec.now >= old(spec.now)
    {
      hide Represents, InvBut, Inv;
      InvInRange(spec);
      RepresentsShape(View(), height, spec);
      PopTimedKeeps(spec);
      ghost var m := View();
      PopLevels(idx);
      SkiplistPopped(m, head, height, spec);
      queues[idx] := queues[idx].(inSkiplist := false);
      tsVirtual := queues[idx].nextTs;
      spec := PopTimed(spec);
    }

    /** Moves virtual time on when a poll stops at its limit. */
    method SettleClock(maxVts: nat, ghost limit: int)
      requires Valid() && InRange(spec)
      requires spec.now <= limit < spec.now + HALF && maxVts == Stamp(limit)
      modifies this`tsVirtual, this`spec
      ensures Valid() && PollTimed(old(spec), limit, 0) == (spec, [])
    {
      hide Represents, Inv, PollTimed, LessEq, Stamp;
      TimedHead(View(), height, spec, limit);
      PollTimedLimit(spec, limit);
      ghost var now := PollTimed(spec, limit, 0).0.now;
      ClockSet(View(), height, spec, now);
      var idx := head[0];
      if idx != NONE && LessEq(tsVirtual, queues[idx].nextTs, maxVts) {
        tsVirtual := queues[idx].nextTs;
      } else {
        tsVirtual := maxVts;
      }
      spec := spec.(now := now);
    }

    /** Takes the first timed queue off the list and gives it its turn. */
    method TimedTurn(idx: nat, ghost num: nat, ghost limit: int) returns (g: seq<Grant>, ghost shots: seq<Shot>)
      requires Valid() && InRange(spec) && num > 0
      requires spec.timed != [] && idx == spec.timed[0] && HeadDueBy(spec, limit) && limit < spec.now + HALF
      modifies this, queues
      ensures Valid() && InRange(old(spec)) && InRange(spec) && g == Grants(shots) && |g| <= 1
      ensures var r := PollTimed(spec, limit, num - |g|); PollTimed(old(spec), limit, num) == (r.0, shots + r.1)
      ensures spec.now <= limit < spec.now + HALF && (g == [] ==> |spec.timed| < |old(spec).timed|)
    {
      hide Represents, InvBut, Inv, PollTimed, Turn;
      PollTimedStep(spec, limit, num);
      TakeSkiplist(idx);
      ghost var s := spec;
      FireClock(s, idx);
      g := TurnQueue(idx);
      shots := Turn(s, idx).1;
      InvInRange(spec);
    }

    /** Serves up to `num` queues of the skip list that are due at real time `cur`,
        and moves virtual time on. */
    method PollSkiplist(curTs: nat, num: nat, ghost cur: int) returns (out: seq<Grant>)
      requires Valid()
      requires curTs == Stamp(cur) && spec.wall <= cur < spec.wall + HALF
      modifies this, queues
      ensures Valid() && spec == PollTimedAt(old(spec), cur, num).0
      ensures out == Grants(PollTimedAt(old(spec), cur, num).1)
    {
      hide Represents, InvBut, Inv, PollTimed, Turn, LessEq, Stamp;
      ghost var s0, limit := spec, spec.now + (cur - spec.wall);
      InvInRange(spec);
      ClockFacts(View(), height, spec);
      var maxVts := (tsVirtual + curTs - tsReal) % TS_MOD;
      LimitStamp(spec.now, spec.wall, cur);
      out := [];
      ghost var log: seq<Shot> := [];
      assert [] + PollTimed(s0, limit, num).1 == PollTimed(s0, limit, num).1;
      while |out| < num
        invariant Valid() && InRange(s0) && InRange(spec)
        invariant |out| <= num && out == Grants(log)
        invariant spec.now <= limit < spec.now + HALF
        invariant PollTimed(s0, limit, num)
               == (PollTimed(spec, limit, num - |out|).0, log + PollTimed(spec, limit, num - |out|).1)
        decreases num - |out|, |spec.timed|
      {
        TimedHead(View(), height, spec, limit);
        var idx := head[0];
        if idx == NONE || !LessEq(tsVirtual, queues[idx].nextTs, maxVts) {
          PollTimedStop(spec, limit, num - |out|);
          ClockSet(View(), height, spec, limit);
          tsVirtual, spec := maxVts, spec.(now := limit);
          assert log + [] == log;
          break;
        }
        ghost var left := num - |out|;
        var g, shots := TimedTurn(idx, left, limit);
        GrantsConcat(log, shots);
        Reassociate(log, shots, PollTimed(spec, limit, left - |g|).1);
        out, log := out + g, log + shots;
      }
      if |out| == num {
        SettleClock(maxVts, limit);
        assert log + [] == log;
      }
      WallSet(View(), height, spec, cur);
      tsReal := curTs;
      spec := spec.(wall := cur);
    }

    /** One poll: both lists, taking turns at going first. */
    method PollBoth(curTs: nat, num: nat, ghost cur: int) returns (out: seq<Grant>)
      requires Valid()
      requires curTs == Stamp(cur) && spec.wall <= cur < spec.wall + HALF
      modifies this, queues
      ensures Valid() && spec == Poll(old(spec), cur, num).0
      ensures out == Grants(Poll(old(spec), cur, num).1)
    {
      hide Represents, Inv, PollTimedAt, PollFifo, Stamp;
      ghost var s0 := spec;
      InvInRange(spec);
      ClockFacts(View(), height, spec);
      if nolimitFirst {
        PollFifoKeeps(spec, num);
        var x := PollNolimit(num);
        InvInRange(spec);
        ghost var r1 := PollFifo(s0, num);
        PollTimedAtKeeps(spec, cur, num - |x|);
        var y := PollSkiplist(curTs, num - |x|, cur);
        out := x + y;
        GrantsConcat(r1.1, PollTimedAt(r1.0, cur, num - |r1.1|).1);
      } else {
        PollTimedAtKeeps(spec, cur, num);
        var x := PollSkiplist(curTs, num, cur);
        PollFifoKeeps(spec, num - |x|);
        InvInRange(spec);
        ghost var r1 := PollTimedAt(s0, cur, num);
        var y := PollNolimit(num - |x|);
        out := x + y;
        GrantsConcat(r1.1, PollFifo(r1.0, num - |r1.1|).1);
      }
      ClockFacts(View(), height, spec);
      TurnSet(View(), height, spec, !nolimitFirst);
      nolimitFirst := !nolimitFirst;
      spec := spec.(fifoFirst := nolimitFirst);
    }
  }

  lemma RepresentsShape(m: Memory, height: seq<nat>, s: Sched)
    requires Represents(m, height, s)
    ensures Shaped(m.queues) && |m.queues| == |s.clients| && InRange(s) && |m.head| == LEVELS
    ensures m.nolimitTail == NONE || m.nolimitTail < |m.queues|
  {
  }

  lemma LevelChain(m: Memory, height: seq<nat>, s: Sched, l: nat)
    requires Represents(m, height, s) && l < LEVELS
    ensures Shaped(m.queues) && |m.head| == LEVELS && |height| == |m.queues| && InRange(s) && |m.queues| == |s.clients|
    ensures Chain(m.queues, l, m.head[l], AtLevel(s.timed, height, l))
    ensures m.tsVirtual == Stamp(s.now)
    ensures forall i :: 0 <= i < |m.queues| ==> m.queues[i].nextTs == Stamp(s.clients[i].due)
  {
  }

  /** Comparing the stored stamp tells whether a waiting queue is due by `d`. */
  lemma StampDecides(m: Memory, height: seq<nat>, s: Sched, x: nat, d: int)
    requires Represents(m, height, s) && x < |s.clients| && Upcoming(s.clients[x], s.now)
    requires s.now <= d < s.now + HALF
    ensures LessEq(m.tsVirtual, m.queues[x].nextTs, Stamp(d)) <==> s.clients[x].due <= d
  {
    hide LessEq, Levels, Nolimit;
    assert FieldsMatch(m.queues[x], s.clients[x], x in s.timed, x in s.fifo);
    LessEqExact(s.now, s.clients[x].due, d);
  }

  lemma TimedNoDup(s: Sched)
    requires ListsOk(s)
    ensures NoDup(s.timed)
  {
  }

  /** Changing the links of level `l` leaves the other levels as they were. */
  lemma OtherLevels(qs: seq<Queue>, qs': seq<Queue>, h: seq<nat>, h': seq<nat>, l: nat,
                    timed: seq<nat>, height: seq<nat>, timed': seq<nat>, height': seq<nat>)
    requires Shaped(qs) && Shaped(qs') && |qs| == |qs'| && |h| == |h'| == LEVELS
    requires Below(timed, |height|) && Below(timed', |height'|)
    requires forall k :: 0 <= k < LEVELS && k != l ==> h'[k] == h[k]
    requires forall i, k :: 0 <= i < |qs| && 0 <= k < LEVELS && k != l ==> qs'[i].next[k] == qs[i].next[k]
    ensures forall k :: 0 <= k < LEVELS && k != l && Chain(qs, k, h[k], AtLevel(timed, height, k)) ==>
              Chain(qs', k, h'[k], AtLevel(timed, height, k))
    ensures forall k :: 0 <= k < LEVELS && k != l && Chain(qs, k, h[k], AtLevel(timed', height', k)) ==>
              Chain(qs', k, h'[k], AtLevel(timed', height', k))
  {
    hide AtLevel;
  }

  lemma LinksOutside(qs: seq<Queue>, qs': seq<Queue>, l: nat, q: nat, timed: seq<nat>, xs: seq<nat>)
    requires Shaped(qs) && Shaped(qs') && |qs| == |qs'|
    requires forall x :: x in xs ==> x in timed
    requires forall i, k :: 0 <= i < |qs| && 0 <= k < LEVELS && (k != l || (i != q && i !in xs)) ==>
               qs'[i].next[k] == qs[i].next[k]
    ensures forall i :: 0 <= i < |qs| && i != q && i !in timed ==> qs'[i].next == qs[i].next
  {
  }

  lemma QueueFields(m: Memory, height: seq<nat>, s: Sched, idx: nat)
    requires Represents(m, height, s) && idx < |s.clients|
    ensures Shaped(m.queues) && |m.queues| == |s.clients| && |m.head| == LEVELS && |height| == |m.queues|
    ensures FieldsMatch(m.queues[idx], s.clients[idx], idx in s.timed, idx in s.fifo)
    ensures Clocks(m, s) && m.tsVirtual < TS_MOD
  {
  }

  /** The fields are what a request asks for, or as they were. */
  predicate Requested(q: Queue, q': Queue, r: Request) {
    && q'.rate == (if r.setRate then r.rate else q.rate)
    && q'.maxChunk == (if r.setChunk then r.chunk else q.maxChunk)
    && (r.setAvail ==> q'.avail == r.avail)
    && (!r.setAvail && r.addAvail ==> q'.avail == (q.avail + r.avail) % TS_MOD)
    && (!r.setAvail && !r.addAvail ==> q'.avail == q.avail)
  }

  predicate SameContent(q: Queue, q': Queue) {
    q'.rate == q.rate && q'.maxChunk == q.maxChunk && q'.avail == q.avail && q'.nextTs == q.nextTs
    && q'.inSkiplist == q.inSkiplist && q'.inNolimit == q.inNolimit
  }

  lemma SameAsItself(q: Queue)
    ensures SameContent(q, q)
  {
  }

  /** What a change does, read off the memory before and after. */
  lemma SetInFields(m: Memory, m': Memory, h: seq<nat>, h': seq<nat>, s: Sched, id: nat, r: Request)
    requires Represents(m, h, s) && Inv(s) && id < |s.clients| && Fits(Updated(s.clients[id], r))
    requires InRange(s) && Represents(m', h', ApplySet(s, id, r))
    ensures |m.queues| == |m'.queues| == |s.clients|
    ensures Requested(m.queues[id], m'.queues[id], r)
    ensures forall x :: 0 <= x < |s.clients| && x != id ==> SameContent(m.queues[x], m'.queues[x])
  {
    hide Represents, Inv, ApplySet, Fits;
    var s' := ApplySet(s, id, r);
    SetExactly(s, id, r);
    SetLists(s, id, r);
    QueueFields(m, h, s, id);
    QueueFields(m', h', s', id);
    forall x | 0 <= x < |s.clients| && x != id ensures SameContent(m.queues[x], m'.queues[x]) {
      QueueFields(m, h, s, x);
      QueueFields(m', h', s', x);
    }
  }

  /** Changing the fields of one queue and its client together. */
  lemma ClientChanged(m: Memory, height: seq<nat>, s: Sched, idx: nat, c: Client)
    requires Represents(m, height, s) && idx < |s.clients|
    ensures var q := m.queues[idx].(nextTs := Stamp(c.due), rate := c.rate, avail := c.avail, maxChunk := c.chunk);
            Represents(m.(queues := m.queues[idx := q]), height, s.(clients := s.clients[idx := c]))
  {
    hide AtLevel;
  }

  lemma ClientChangedInvBut(s: Sched, idx: nat, c: Client)
    requires InvBut(s, idx) && Fits(c)
    ensures InvBut(s.(clients := s.clients[idx := c]), idx)
  {
  }

  lemma ClampIsIdempotent(s: Sched, idx: nat)
    requires InvBut(s, idx) && s.clients[idx].rate > 0
    ensures var c := s.clients[idx];
            var d := Placed(s.now, c.due, Cost(c.chunk, c.rate));
            var s1 := s.(clients := s.clients[idx := c.(due := d)]);
            && s.now <= d < s.now + HALF
            && Placed(s.now, d, Cost(c.chunk, c.rate)) == d
            && Activate(s1, idx) == Activate(s, idx)
            && Activate(s, idx).timed == Insert(s.timed, Rank(s.clients, s.timed, d), idx)
  {
    hide Placed, Cost, Rank;
    var c := s.clients[idx];
    var cost := Cost(c.chunk, c.rate);
    var d := Placed(s.now, c.due, cost);
    assert Fits(c);
    PlacedRange(s.now, c.due, cost);
    PlacedRange(s.now, d, cost);
    RankFrame(s.clients, s.clients[idx := c.(due := d)], s.timed, d);
  }

  lemma LevelsFlag(qs: seq<Queue>, head: seq<nat>, height: seq<nat>, timed: seq<nat>, idx: nat)
    requires Shaped(qs) && idx < |qs| && Levels(qs, head, height, timed)
    ensures var qs' := qs[idx := qs[idx].(inSkiplist := true)];
            Shaped(qs') && Levels(qs', head, height, timed)
  {
    hide AtLevel;
  }

  lemma SetInvBut(s: Sched, id: nat, c: Client)
    requires Inv(s) && id < |s.clients| && !Listed(s, id) && Fits(c)
    ensures InvBut(s.(clients := s.clients[id := c]), id)
  {
  }

  lemma NotReadyInv(s: Sched, id: nat)
    requires InvBut(s, id) && s.clients[id].avail == 0
    ensures Inv(s)
  {
  }

  lemma FifoHead(m: Memory, height: seq<nat>, s: Sched)
    requires Represents(m, height, s)
    ensures m.nolimitHead != NONE <==> s.fifo != []
    ensures s.fifo != [] ==> m.nolimitHead == s.fifo[0] && s.fifo[0] < |m.queues| == |s.clients|
    ensures Shaped(m.queues)
  {
  }

  lemma PollFifoStep(s: Sched, num: nat)
    requires InRange(s) && num > 0 && s.fifo != []
    ensures var t := Turn(PopFifo(s), s.fifo[0]);
            var r := PollFifo(t.0, num - |t.1|);
            PollFifo(s, num) == (r.0, t.1 + r.1)
  {
  }

  lemma PollFifoStop(s: Sched, num: nat)
    requires InRange(s) && (num == 0 || s.fifo == [])
    ensures PollFifo(s, num) == (s, [])
  {
  }

  lemma Reassociate(a: seq<Shot>, b: seq<Shot>, c: seq<Shot>)
    ensures a + (b + c) == (a + b) + c
  {
  }

  /** One round of the loop that takes a queue off the levels it heads. */
  lemma HeadPopped(qs: seq<Queue>, l: nat, head: nat, timed: seq<nat>, height: seq<nat>)
    requires Shaped(qs) && |height| == |qs| && Below(timed, |height|) && NoDup(timed) && timed != []
    requires l < LEVELS ==> Chain(qs, l, head, AtLevel(timed, height, l))
    ensures l < LEVELS ==> (head == timed[0] <==> height[timed[0]] >= l)
    ensures l < LEVELS && head == timed[0] ==> Chain(qs, l, qs[timed[0]].next[l], AtLevel(timed[1..], height, l))
  {
    hide AtLevel;
    if l < LEVELS {
      HeadLevel(timed, height, l);
      if height[timed[0]] >= l {
        ChainPop(qs, l, head, AtLevel(timed, height, l));
      }
    }
  }

  lemma ClockFacts(m: Memory, height: seq<nat>, s: Sched)
    requires Represents(m, height, s)
    ensures Clocks(m, s)
  {
  }

  lemma LimitStamp(now: int, wall: int, cur: int)
    ensures (Stamp(now) + Stamp(cur) - Stamp(wall)) % TS_MOD == Stamp(now + (cur - wall))
  {
    ModAdd(TS_MOD, cur, Stamp(now) - Stamp(wall));
    ModAdd(TS_MOD, now, cur - Stamp(wall));
    assert now + cur - wall == now + cur - Stamp(wall) + (-(wall / TS_MOD)) * TS_MOD;
    ModShift(TS_MOD, now + cur - Stamp(wall), -(wall / TS_MOD));
  }

  lemma TimedHead(m: Memory, height: seq<nat>, s: Sched, limit: int)
    requires Represents(m, height, s) && Inv(s) && s.now <= limit < s.now + HALF
    ensures Shaped(m.queues) && |m.head| == LEVELS && |m.queues| == |s.clients| && InRange(s)
    ensures m.head[0] == NONE <==> s.timed == []
    ensures s.timed != [] ==>
              && m.head[0] == s.timed[0] && s.timed[0] < |m.queues|
              && m.queues[s.timed[0]].nextTs == Stamp(s.clients[s.timed[0]].due)
              && m.tsVirtual < TS_MOD && m.queues[s.timed[0]].nextTs < TS_MOD
              && s.clients[s.timed[0]].due >= s.now
              && (LessEq(m.tsVirtual, m.queues[s.timed[0]].nextTs, Stamp(limit)) <==> HeadDueBy(s, limit))
  {
    hide LessEq, AtLevel;
    AtLevelZero(s.timed, height);
    assert Chain(m.queues, 0, m.head[0], s.timed);
    if s.timed != [] {
      var x := s.timed[0];
      assert Upcoming(s.clients[x], s.now);
      assert FieldsMatch(m.queues[x], s.clients[x], x in s.timed, x in s.fifo);
      StampDecides(m, height, s, x, limit);
    }
  }

  lemma PollTimedStop(s: Sched, limit: int, num: nat)
    requires InRange(s) && !HeadDueBy(s, limit)
    ensures PollTimed(s, limit, num) == (s.(now := limit), [])
  {
  }

  lemma PollTimedLimit(s: Sched, limit: int)
    requires InRange(s)
    ensures PollTimed(s, limit, 0) ==
            (s.(now := if HeadDueBy(s, limit) then s.clients[s.timed[0]].due else limit), [])
  {
  }

  lemma PollTimedStep(s: Sched, limit: int, num: nat)
    requires InRange(s) && num > 0 && HeadDueBy(s, limit)
    ensures var t := Turn(PopTimed(s), s.timed[0]);
            var r := PollTimed(t.0, limit, num - |t.1|);
            PollTimed(s, limit, num) == (r.0, t.1 + r.1)
  {
  }

  lemma FireClock(s: Sched, id: nat)
    requires InvBut(s, id)
    ensures InRange(s) && Turn(s, id).0.now == s.now
  {
    TurnKeeps(s, id);
  }

  lemma ClockSet(m: Memory, height: seq<nat>, s: Sched, t: int)
    requires Represents(m, height, s) && Inv(s) && s.now <= t
    requires s.timed == [] || t <= s.clients[s.timed[0]].due
    ensures Represents(m.(tsVirtual := Stamp(t)), height, s.(now := t)) && Inv(s.(now := t))
  {
    hide Inv, AtLevel;
    ClockKeeps(s, t);
  }

  lemma WallSet(m: Memory, height: seq<nat>, s: Sched, cur: int)
    requires Represents(m, height, s) && Inv(s)
    ensures Represents(m.(tsReal := Stamp(cur)), height, s.(wall := cur)) && Inv(s.(wall := cur))
  {
    hide Inv, AtLevel;
    FlagKeeps(s, cur, s.fifoFirst);
  }

  lemma TurnSet(m: Memory, height: seq<nat>, s: Sched, b: bool)
    requires Represents(m, height, s) && Inv(s)
    ensures Represents(m.(nolimitFirst := b), height, s.(fifoFirst := b)) && Inv(s.(fifoFirst := b))
  {
    hide Inv, AtLevel;
    FlagKeeps(s, s.wall, b);
  }

  lemma ChainAt(qs: seq<Queue>, l: nat, head: nat, xs: seq<nat>, i: nat)
    requires l < LEVELS && Shaped(qs) && Chain(qs, l, head, xs)
    ensures head == FirstOf(xs) && Below(xs, |qs|)
    ensures i < |xs| ==> qs[xs[i]].next[l] == After(xs, i)
  {
  }
}
