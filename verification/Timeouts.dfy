/**
 The timer library as it runs: timers linked in place into two doubly linked lists,
 with 28-bit time stamps. Every operation is proved to do what `TimerSpec` does over
 unbounded time.
 */
module Timeouts {
  import opened Basics
  import opened WrapTime
  import opened TimerSpec

  class Timeout {
    var ts: nat
    var kind: nat
    var next: Timeout?
    var prev: Timeout?

    constructor ()
    {
      ts, kind, next, prev := 0, 0, null, null;
    }
  }

  /** `first`, `last` and the links of the nodes spell the list `xs`. */
  ghost predicate Dll(first: Timeout?, last: Timeout?, xs: seq<Timeout>)
    reads xs`next, xs`prev
  {
    first == NodeAt(xs, 0) && last == NodeAt(xs, |xs| - 1) && Nexts(xs) && Prevs(xs)
  }

  ghost predicate Nexts(xs: seq<Timeout>)
    reads xs`next
  {
    forall i {:trigger xs[i].next} :: 0 <= i < |xs| ==> xs[i].next == NodeAt(xs, i + 1)
  }

  ghost predicate Prevs(xs: seq<Timeout>)
    reads xs`prev
  {
    forall i {:trigger xs[i].prev} :: 0 <= i < |xs| ==> xs[i].prev == NodeAt(xs, i - 1)
  }

  /** The same links, but leading past the node at `k`. */
  ghost predicate NextsPast(xs: seq<Timeout>, k: nat)
    reads xs`next
  {
    forall i {:trigger xs[i].next} :: 0 <= i < |xs| ==> xs[i].next == NodeAt(xs, if i == k - 1 then k + 1 else i + 1)
  }

  ghost predicate PrevsPast(xs: seq<Timeout>, k: nat)
    reads xs`prev
  {
    forall i {:trigger xs[i].prev} :: 0 <= i < |xs| ==> xs[i].prev == NodeAt(xs, if i == k + 1 then k - 1 else i - 1)
  }

  function NodeAt(xs: seq<Timeout>, i: int): Timeout? {
    if 0 <= i < |xs| then xs[i] else null
  }

  class TimeoutManager {
    var first: Timeout?
    var last: Timeout?
    var dueFirst: Timeout?
    var dueLast: Timeout?

    /** The timers waiting and due, in list order. */
    ghost var pending: seq<Timeout>
    ghost var due: seq<Timeout>
    /** All timers that have been on a list. */
    ghost var repr: set<Timeout>
    /** The timers this memory stands for. */
    ghost var spec: Timers<Timeout>

    ghost predicate Valid()
      reads this, pending, due
    {
      Shape() && Inv(spec) && Match(pending, spec.pending) && Match(due, spec.due)
    }

    ghost predicate Shape()
      reads this`first, this`last, this`dueFirst, this`dueLast, this`pending, this`due, this`repr
      reads pending`next, pending`prev, due`next, due`prev
    {
      && Dll(first, last, pending) && Dll(dueFirst, dueLast, due)
      && NoDup(pending) && NoDup(due) && Apart(due, pending)
      && AllIn(pending, repr) && AllIn(due, repr)
    }

    constructor (ghost now: int)
      ensures Valid() && spec == Timers(now, [], [], 0)
    {
      first, last, dueFirst, dueLast := null, null, null, null;
      pending, due, repr := [], [], {};
      spec := Timers(now, [], [], 0);
    }

    /** Takes the first timer off the list of waiting ones. */
    method PopPending() returns (to: Timeout)
      requires Shape() && pending != []
      modifies this`first, this`last, this`dueFirst, this`dueLast, this`pending, this`due
      modifies repr`next, repr`prev
      ensures Shape() && to == old(pending)[0]
      ensures pending == old(pending)[1..] && due == old(due)
      ensures dueFirst == old(dueFirst) && dueLast == old(dueLast)
    {
      to := first;
      ghost var xs := pending;
      first := to.next;
      if first != null {
        first.prev := null;
      } else {
        last := null;
      }
      pending := xs[1..];
      assert forall i :: 0 <= i < |pending| ==> pending[i] == xs[i + 1];
    }

    /** Puts a timer that is on no list at the end of the due list. */
    method AppendDue(to: Timeout)
      requires Shape() && to in repr && to !in pending && to !in due
      modifies this`first, this`last, this`dueFirst, this`dueLast, this`pending, this`due
      modifies repr`next, repr`prev
      ensures Shape() && pending == old(pending) && due == old(due) + [to]
      ensures first == old(first) && last == old(last)
    {
      ghost var ys := due;
      to.next := null;
      to.prev := dueLast;
      if dueLast == null {
        dueFirst := to;
      } else {
        dueLast.next := to;
      }
      dueLast := to;
      due := ys + [to];
    }

    /** Takes the first timer off the due list. */
    method PopDue() returns (to: Timeout)
      requires Shape() && due != []
      modifies this`first, this`last, this`dueFirst, this`dueLast, this`pending, this`due
      modifies repr`next, repr`prev
      ensures Shape() && to == old(due)[0]
      ensures due == old(due)[1..] && pending == old(pending)
      ensures first == old(first) && last == old(last)
    {
      to := dueFirst;
      ghost var ys := due;
      dueFirst := to.next;
      if dueFirst != null {
        dueFirst.prev := null;
      } else {
        dueLast := null;
      }
      due := ys[1..];
      assert forall i :: 0 <= i < |due| ==> due[i] == ys[i + 1];
    }

    /** Links a timer that is on no list behind `tp` in the waiting list. */
    method InsertAfter(to: Timeout, tp: Timeout?, ghost k: nat)
      requires Shape() && to in repr && to !in pending && to !in due && k <= |pending|
      requires tp == if k == 0 then null else pending[k - 1]
      modifies this`first, this`last, this`dueFirst, this`dueLast, this`pending, this`due
      modifies repr`next, repr`prev
      ensures Shape() && pending == Spliced(old(pending), k, to) && due == old(due)
      ensures dueFirst == old(dueFirst) && dueLast == old(dueLast)
    {
      ghost var xs := pending;
      var tn := if tp != null then tp.next else first;
      to.next := tn;
      to.prev := tp;
      if tp == null {
        first := to;
      } else {
        tp.next := to;
      }
      if tn == null {
        last := to;
      } else {
        tn.prev := to;
      }
      pending := Spliced(xs, k, to);
      LinkedIn(xs, k, to, first, last);
      InsertedApart(xs, due, k, to, repr);
    }

    /** Timer `to` is at `k` of the waiting list, or else of the due list. */
    ghost predicate On(to: Timeout, k: nat, waits: bool)
      reads this`pending, this`due
    {
      if waits then k < |pending| && pending[k] == to else k < |due| && due[k] == to
    }

    /** Leads the forward links past a timer. */
    method UnlinkNext(to: Timeout, ghost k: nat, ghost waits: bool)
      requires Shape() && On(to, k, waits)
      modifies this`first, this`dueFirst, repr`next
      ensures if waits
              then && NextsPast(pending, k) && first == NodeAt(pending, if k == 0 then 1 else 0)
                   && Nexts(due) && dueFirst == old(dueFirst)
              else && NextsPast(due, k) && dueFirst == NodeAt(due, if k == 0 then 1 else 0)
                   && Nexts(pending) && first == old(first)
    {
      hide InOrder;
      var prev := to.prev;
      if prev == null {
        if first == to {
          first := to.next;
        } else if dueFirst == to {
          dueFirst := to.next;
        } else {
          assert false;
        }
      } else {
        prev.next := to.next;
      }
    }

    /** Leads the backward links past a timer. */
    method UnlinkPrev(to: Timeout, ghost k: nat, ghost waits: bool)
      requires On(to, k, waits) && NoDup(pending) && NoDup(due) && Apart(due, pending)
      requires AllIn(pending, repr) && AllIn(due, repr) && Prevs(pending) && Prevs(due)
      requires last == NodeAt(pending, |pending| - 1) && dueLast == NodeAt(due, |due| - 1)
      requires to.next == NodeAt(if waits then pending else due, k + 1)
      modifies this`last, this`dueLast, repr`prev
      ensures if waits
              then && PrevsPast(pending, k)
                   && last == NodeAt(pending, if k == |pending| - 1 then k - 1 else |pending| - 1)
                   && Prevs(due) && dueLast == old(dueLast)
              else && PrevsPast(due, k) && dueLast == NodeAt(due, if k == |due| - 1 then k - 1 else |due| - 1)
                   && Prevs(pending) && last == old(last)
    {
      hide InOrder;
      var next := to.next;
      if next == null {
        if last == to {
          last := to.prev;
        } else if dueLast == to {
          dueLast := to.prev;
        } else {
          assert false;
        }
      } else {
        next.prev := to.prev;
      }
    }

    /** Unlinks a timer from whichever list it is on. */
    method Unlink(to: Timeout, ghost k: nat, ghost waits: bool)
      requires Shape() && On(to, k, waits)
      modifies this`first, this`last, this`dueFirst, this`dueLast, this`pending, this`due
      modifies repr`next, repr`prev
      ensures Shape()
      ensures if waits then pending == old(pending)[..k] + old(pending)[k + 1..] && due == old(due)
              else due == old(due)[..k] + old(due)[k + 1..] && pending == old(pending)
    {
      hide Nexts, Prevs, PrevsPast, NoDup, Apart, AllIn;
      ghost var xs, ys := pending, due;
      UnlinkNext(to, k, waits);
      PastNext(if waits then xs else ys, k);
      UnlinkPrev(to, k, waits);
      if waits {
        Unlinked(xs, k, first, last);
        pending := xs[..k] + xs[k + 1..];
        RemovedApart(xs, ys, k, repr);
      } else {
        Unlinked(ys, k, dueFirst, dueLast);
        due := ys[..k] + ys[k + 1..];
        RemovedApart(ys, xs, k, repr);
      }
    }

    /** Moves the first waiting timer to the end of the due list. */
    method MoveFirst()
      requires Shape() && pending != []
      modifies this`first, this`last, this`dueFirst, this`dueLast, this`pending, this`due
      modifies repr`next, repr`prev
      ensures Shape() && pending == old(pending)[1..] && due == old(due) + [old(pending)[0]]
    {
      ShapeFirst(pending, due);
      var to := PopPending();
      AppendDue(to);
    }

    lemma NotArmed(to: Timeout)
      requires Valid() && to !in pending && to !in due
      ensures !IsArmed(spec, to)
    {
      forall i | 0 <= i < |spec.due + spec.pending| ensures (spec.due + spec.pending)[i].to != to {
        assert i < |due| ==> due[i] in due;
        assert i >= |due| ==> pending[i - |due|] in pending;
      }
    }

    lemma FirstTells(xs: seq<Timeout>, k: nat, t: int)
      requires Shape() && k <= |xs| && pending == xs[k..]
      requires Match(xs, spec.pending) && Inv(spec) && spec.now <= t < spec.now + HALF
      ensures |xs| == |spec.pending| && first == (if k < |xs| then xs[k] else null)
      ensures k < |xs| ==> xs[k].ts < CLOCK && RelTime(CLOCK, t % CLOCK, xs[k].ts) == spec.pending[k].expiry - t
    {
      hide Inv, RelTime, NoDup, Apart, AllIn;
      if k < |xs| {
        StampTells(xs, spec, t, k);
      }
    }

    /** Moves all timers that have expired at time `t` to the due list. */
    method MoveDueTimeouts(curTs: nat, ghost t: int)
      requires Valid() && curTs == t % CLOCK && spec.now <= t < spec.now + HALF
      modifies this`first, this`last, this`dueFirst, this`dueLast, this`pending, this`due
      modifies this`spec, repr`next, repr`prev
      ensures Valid() && spec == MoveDue(old(spec), t)
      ensures due + pending == old(due + pending)
    {
      hide Inv, RelTime, Shape, Match, Expired;
      ghost var xs, ys, es, k := pending, due, spec.pending, 0;
      assert xs[0..] == xs && ys + xs[..0] == ys;
      FirstTells(xs, 0, t);
      while first != null && RelTime(CLOCK, curTs, first.ts) <= 0
        invariant k <= |xs| && Shape() && pending == xs[k..] && due == ys + xs[..k]
        invariant first == if k < |xs| then xs[k] else null
        invariant k < |xs| ==> xs[k].ts < CLOCK && RelTime(CLOCK, curTs, xs[k].ts) == es[k].expiry - t
        invariant spec == old(spec) && Match(xs, es) && Match(ys, spec.due)
        invariant forall i :: 0 <= i < k ==> es[i].expiry <= t
        decreases |xs| - k
      {
        FirstTells(xs, k, t);
        MoveFirst();
        k := k + 1;
        MovedOne(xs, ys, k - 1);
        FirstTells(xs, k, t);
      }
      ExpiredIs(es, t, k);
      MoveDueKeeps(spec, t);
      MatchSplit(xs, ys, es, spec.due, k);
      Rejoin(ys, xs, k);
      spec := MoveDue(spec, t);
    }

    /** Arms a timer that is on no list to expire `us` from now. */
    method ArmTs(to: Timeout, us: nat, kind: nat, curTs: nat, ghost t: int)
      requires Valid() && curTs == t % CLOCK && spec.now <= t < spec.now + HALF
      requires us < HALF && to !in pending && to !in due
      modifies this, to, repr`next, repr`prev
      ensures Valid() && spec == Arm(old(spec), t, to, us)
      ensures to.kind == kind % 16 && repr == old(repr) + {to}
    {
      hide Inv, RelTime, Shape, Match, Inserted, Expired;
      NotArmed(to);
      ArmKeeps(spec, t, to, us);
      MoveDueKeeps(spec, t);
      MoveDueTimeouts(curTs, t);
      assert to !in due + pending;
      InsertSorted(to, us, kind, curTs, t);
    }

    /** Links a timer in behind all waiting ones that expire no later. */
    method InsertSorted(to: Timeout, us: nat, kind: nat, curTs: nat, ghost t: int)
      requires Valid() && curTs == t % CLOCK && spec.now == t && us < HALF && to !in pending && to !in due
      requires forall i :: 0 <= i < |spec.pending| ==> spec.pending[i].expiry > t
      requires var a := Armed(to, t + us, spec.orders);
               Inv(spec.(pending := Inserted(spec.pending, a), orders := spec.orders + 1))
      modifies this, to, repr`next, repr`prev
      ensures Valid()
      ensures var a := Armed(to, t + us, old(spec).orders);
              spec == old(spec).(pending := Inserted(old(spec).pending, a), orders := old(spec).orders + 1)
      ensures to.kind == kind % 16 && repr == old(repr) + {to}
    {
      hide Inv, RelTime, Shape, Match, Inserted, Expired;
      var tp := FindSlot(curTs, us, t);
      ghost var k := Expired(spec.pending, t + us);
      to.kind := kind % 16;
      to.ts := (curTs + us) % CLOCK;
      Enroll(to);
      ghost var xs := pending;
      InsertAfter(to, tp, k);
      ModAdd(CLOCK, t, us);
      MatchInserted(xs, spec.pending, Armed(to, t + us, spec.orders));
      spec := spec.(pending := Inserted(spec.pending, Armed(to, t + us, spec.orders)), orders := spec.orders + 1);
    }

    ghost method Enroll(to: Timeout)
      requires Shape()
      modifies this`repr
      ensures Shape() && repr == old(repr) + {to}
    {
      repr := repr + {to};
    }

    /** The last waiting timer that expires no later than `us` from now, searching
        from the end. The distance of a waiting timer is compared as an unsigned
        number, which is right because it is never negative here. */
    method FindSlot(curTs: nat, us: nat, ghost t: int) returns (tp: Timeout?)
      requires Valid() && curTs == t % CLOCK && spec.now == t && us < HALF
      requires forall i :: 0 <= i < |spec.pending| ==> spec.pending[i].expiry > t
      ensures var k := Expired(spec.pending, t + us);
              && k <= |pending| == |spec.pending|
              && tp == if k == 0 then null else pending[k - 1]
    {
      hide Inv, RelTime, Expired;
      ghost var k := |pending|;
      tp := last;
      while tp != null && AsUnsigned(RelTime(CLOCK, curTs, tp.ts)) > us
        invariant 0 <= k <= |pending| && tp == if k == 0 then null else pending[k - 1]
        invariant tp != null ==> tp.ts < CLOCK
        invariant forall i :: k <= i < |pending| ==> spec.pending[i].expiry > t + us
        decreases k
      {
        StampTells(pending, spec, t, k - 1);
        tp := tp.prev;
        k := k - 1;
      }
      if k > 0 {
        StampTells(pending, spec, t, k - 1);
        FrontExpired(spec, k, t + us);
      }
      ExpiredIs(spec.pending, t + us, k);
    }

    /** Disarms a timer that is on one of the lists. */
    method DisarmTimer(to: Timeout)
      requires Valid() && (to in pending || to in due)
      modifies this, repr`next, repr`prev
      ensures Valid() && spec == Disarm(old(spec), to) && repr == old(repr)
    {
      hide Inv, Shape, Match, Disarm, Without;
      ghost var waits := to in pending;
      ghost var xs := if waits then pending else due;
      ghost var k :| 0 <= k < |xs| && xs[k] == to;
      ListedAt(to, k, waits);
      DisarmKeeps(spec, to);
      ghost var ps, ds := pending, due;
      Unlink(to, k, waits);
      if waits {
        MatchRemoved(ps, spec.pending, k);
      } else {
        MatchRemoved(ds, spec.due, k);
      }
      spec := Disarm(spec, to);
    }

    /** Takes the first due timer off its list, if there is one; its handler is
        called next. */
    method FireNext() returns (to: Timeout?)
      requires Valid()
      modifies this, repr`next, repr`prev
      ensures Valid()
      ensures if old(spec).due == [] then to == null && spec == old(spec)
              else to == old(spec).due[0].to && spec == Fire(old(spec))
      ensures repr == old(repr)
    {
      to := dueFirst;
      if to == null {
        return;
      }
      FireKeeps(spec);
      ghost var ds := due;
      var _ := PopDue();
      MatchTail(ds, spec.due);
      spec := Fire(spec);
    }

    /** Fires up to 64 timers that are due at time `t`. */
    method PollTs(curTs: nat, ghost t: int) returns (fired: seq<Timeout>)
      requires Valid() && curTs == t % CLOCK && spec.now <= t < spec.now + HALF
      modifies this, repr`next, repr`prev
      ensures Valid()
      ensures var s := MoveDue(old(spec), t);
              var n := if |s.due| < MAX_TIMEOUTS then |s.due| else MAX_TIMEOUTS;
              && spec == s.(due := s.due[n..])
              && |fired| == n && forall i :: 0 <= i < n ==> fired[i] == s.due[i].to
    {
      hide Inv, Shape, Match, Expired;
      MoveDueTimeouts(curTs, t);
      ghost var s := spec;
      fired := [];
      assert s.due[0..] == s.due;
      while |fired| < MAX_TIMEOUTS
        invariant Valid() && |fired| <= |s.due| && |fired| <= MAX_TIMEOUTS && repr == old(repr)
        invariant spec == s.(due := s.due[|fired|..])
        invariant forall i :: 0 <= i < |fired| ==> fired[i] == s.due[i].to
      {
        ghost var before := spec.due;
        var to := FireNext();
        if to == null {
          break;
        }
        assert before[0] == s.due[|fired|] && before[1..] == s.due[|fired| + 1..];
        fired := fired + [to];
      }
    }

    /** Time until the next timer is due: 0 if one is, the largest 32-bit number if
        none is armed. */
    method NextTimeout(curTs: nat, ghost t: int) returns (us: nat)
      requires Valid() && curTs == t % CLOCK && spec.now <= t < spec.now + HALF
      ensures us == if spec.due != [] then 0
                    else if spec.pending == [] then 0xFFFF_FFFF
                    else if spec.pending[0].expiry <= t then 0 else spec.pending[0].expiry - t
    {
      hide Inv, RelTime;
      if dueFirst != null {
        return 0;
      }
      if first == null {
        return 0xFFFF_FFFF;
      }
      StampTells(pending, spec, t, 0);
      var next := RelTime(CLOCK, curTs, first.ts);
      return if next < 0 then 0 else next;
    }

    lemma ListedAt(to: Timeout, k: nat, waits: bool)
      requires Valid()
      requires if waits then k < |pending| && pending[k] == to else k < |due| && due[k] == to
      ensures IsArmed(spec, to)
      ensures if waits
              then k < |spec.pending| && Disarm(spec, to) == spec.(pending := spec.pending[..k] + spec.pending[k + 1..])
              else k < |spec.due| && Disarm(spec, to) == spec.(due := spec.due[..k] + spec.due[k + 1..])
    {
      hide Shape, Disarm, InOrder, Timely, Numbered, Distinct;
      var i := if waits then |spec.due| + k else k;
      assert (spec.due + spec.pending)[i].to == to;
      DisarmRemoves(spec, to, i);
    }
  }

  /** The most timers one poll handles. */
  const MAX_TIMEOUTS: nat := 64

  lemma MatchRemoved(xs: seq<Timeout>, es: seq<Armed<Timeout>>, k: nat)
    requires Match(xs, es) && k < |xs|
    ensures Match(xs[..k] + xs[k + 1..], es[..k] + es[k + 1..])
  {
  }

  lemma MatchTail(xs: seq<Timeout>, es: seq<Armed<Timeout>>)
    requires Match(xs, es) && xs != []
    ensures Match(xs[1..], es[1..])
  {
  }

  /** A signed 32-bit number compared with an unsigned one. */
  function AsUnsigned(x: int): int {
    if x < 0 then x + 0x1_0000_0000 else x
  }

  lemma FrontExpired(s: Timers<Timeout>, k: nat, t: int)
    requires Inv(s) && 0 < k <= |s.pending| && s.pending[k - 1].expiry <= t
    ensures forall i :: 0 <= i < k ==> s.pending[i].expiry <= t
  {
    forall i | 0 <= i < k ensures s.pending[i].expiry <= t {
      assert (s.due + s.pending)[|s.due| + i] == s.pending[i];
      assert (s.due + s.pending)[|s.due| + k - 1] == s.pending[k - 1];
    }
  }

  lemma MatchInserted(xs: seq<Timeout>, es: seq<Armed<Timeout>>, a: Armed<Timeout>)
    requires Match(xs, es) && a.to.ts == a.expiry % CLOCK
    ensures var k := Expired(es, a.expiry); Match(xs[..k] + [a.to] + xs[k..], Inserted(es, a))
  {
    hide Expired;
  }

  /** The timers on a list are those of the entries `es`, with the low-order bits of
      their expiry. */
  ghost predicate Match(xs: seq<Timeout>, es: seq<Armed<Timeout>>)
    reads xs`ts
  {
    |xs| == |es| && forall i :: 0 <= i < |xs| ==> xs[i] == es[i].to && xs[i].ts == es[i].expiry % CLOCK
  }

  lemma MatchSplit(xs: seq<Timeout>, ys: seq<Timeout>, es: seq<Armed<Timeout>>, fs: seq<Armed<Timeout>>, k: nat)
    requires k <= |xs| && Match(xs, es) && Match(ys, fs)
    ensures Match(xs[k..], es[k..]) && Match(ys + xs[..k], fs + es[..k])
  {
  }

  lemma MovedOne(xs: seq<Timeout>, ys: seq<Timeout>, k: nat)
    requires k < |xs|
    ensures xs[k..][1..] == xs[k + 1..] && (ys + xs[..k]) + [xs[k..][0]] == ys + xs[..k + 1]
  {
  }

  lemma ShapeFirst(xs: seq<Timeout>, ys: seq<Timeout>)
    requires NoDup(xs) && Apart(ys, xs) && xs != []
    ensures xs[0] !in xs[1..] && xs[0] !in ys
  {
  }

  /** The stored stamp of a waiting timer gives its distance from time `t`, as long
      as `t` is less than half the clock after the last operation. */
  lemma StampTells(xs: seq<Timeout>, s: Timers<Timeout>, t: int, i: nat)
    requires Match(xs, s.pending) && Inv(s) && i < |xs| && s.now <= t < s.now + HALF
    ensures xs[i].ts < CLOCK && RelTime(CLOCK, t % CLOCK, xs[i].ts) == s.pending[i].expiry - t
  {
    RelTimeNear(CLOCK, t, s.pending[i].expiry);
  }

  lemma ExpiredIs(es: seq<Armed<Timeout>>, t: int, k: nat)
    requires k <= |es|
    requires forall i :: 0 <= i < k ==> es[i].expiry <= t
    requires k < |es| ==> es[k].expiry > t
    ensures Expired(es, t) == k
  {
    hide Expired;
    var e := Expired(es, t);
    assert !(e < k);
    assert !(k < e);
  }

  lemma InsertedApart(xs: seq<Timeout>, due: seq<Timeout>, k: nat, to: Timeout, repr: set<Timeout>)
    requires k <= |xs| && NoDup(xs) && Apart(due, xs) && to !in xs && to !in due && AllIn(xs, repr) && to in repr
    ensures var ys := Spliced(xs, k, to);
            NoDup(ys) && Apart(due, ys) && AllIn(ys, repr)
  {
    var ys := Spliced(xs, k, to);
    assert forall i :: 0 <= i < |ys| ==> ys[i] == if i < k then xs[i] else if i == k then to else xs[i - 1];
  }

  lemma RemovedApart(xs: seq<Timeout>, ys: seq<Timeout>, k: nat, repr: set<Timeout>)
    requires k < |xs| && NoDup(xs) && AllIn(xs, repr)
    ensures var zs := xs[..k] + xs[k + 1..];
            NoDup(zs) && AllIn(zs, repr) && (Apart(ys, xs) ==> Apart(ys, zs)) && (Apart(xs, ys) ==> Apart(zs, ys))
  {
    var zs := xs[..k] + xs[k + 1..];
    assert forall i :: 0 <= i < |zs| ==> zs[i] == if i < k then xs[i] else xs[i + 1];
  }

  lemma PastNext(xs: seq<Timeout>, k: nat)
    requires k < |xs| && NextsPast(xs, k)
    ensures xs[k].next == NodeAt(xs, k + 1)
  {
  }

  /** Bridging the two neighbours of a node takes it out of its list. */
  lemma Unlinked(xs: seq<Timeout>, k: nat, first: Timeout?, last: Timeout?)
    requires k < |xs|
    requires NextsPast(xs, k) && PrevsPast(xs, k)
    requires first == NodeAt(xs, if k == 0 then 1 else 0)
    requires last == NodeAt(xs, if k == |xs| - 1 then k - 1 else |xs| - 1)
    ensures Dll(first, last, xs[..k] + xs[k + 1..])
  {
    var ys := xs[..k] + xs[k + 1..];
    assert forall i :: 0 <= i < |ys| ==> ys[i] == if i < k then xs[i] else xs[i + 1];
  }

  ghost function Spliced(xs: seq<Timeout>, k: nat, to: Timeout): seq<Timeout>
    requires k <= |xs|
  {
    xs[..k] + [to] + xs[k..]
  }

  /** Linking a node between two neighbours puts it into their list. */
  lemma LinkedIn(xs: seq<Timeout>, k: nat, to: Timeout, first: Timeout?, last: Timeout?)
    requires k <= |xs|
    requires forall i {:trigger xs[i].next} :: 0 <= i < |xs| ==>
               xs[i].next == if i == k - 1 then to else NodeAt(xs, i + 1)
    requires forall i {:trigger xs[i].prev} :: 0 <= i < |xs| ==>
               xs[i].prev == if i == k then to else NodeAt(xs, i - 1)
    requires to.prev == NodeAt(xs, k - 1) && to.next == NodeAt(xs, k)
    requires first == (if k == 0 then to else NodeAt(xs, 0))
    requires last == (if k == |xs| then to else NodeAt(xs, |xs| - 1))
    ensures Dll(first, last, Spliced(xs, k, to))
  {
    var ys := Spliced(xs, k, to);
    assert forall i :: 0 <= i < |ys| ==> ys[i] == if i < k then xs[i] else if i == k then to else xs[i - 1];
  }
}
