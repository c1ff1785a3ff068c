/**
 One epoll: its bindings, each to one socket, split into a queue of active and a
 list of inactive ones, with the socket's pending events and the events asked
 for. Bindings are identified by values of type `T`.
 */
module EpollSpec {
  import opened Basics

  /** Event masks are sets of flags. */
  datatype Flag = In | Out | Err | Hup | RdHup | EdgeTriggered | Other(bit: nat)
  type Events = set<Flag>

  const SUPPORTED: Events := {In, Out, Err, Hup, RdHup}

  datatype Epoll<!T> = Epoll(active: seq<T>, inactive: seq<T>, mask: map<T, Events>, pending: map<T, Events>)

  datatype Report<T> = Report(t: T, events: Events)

  /** Some of the pending events are asked for. */
  predicate Meets(events: Events, mask: Events) {
    events * mask != {}
  }

  predicate Ready<T(==)>(e: Epoll<T>, t: T)
    requires t in e.mask && t in e.pending
  {
    Meets(e.pending[t], e.mask[t])
  }

  /** The two lists partition the bindings. */
  predicate Partition<T(==)>(e: Epoll<T>) {
    && NoDup(e.active) && NoDup(e.inactive) && (forall i :: 0 <= i < |e.active| ==> e.active[i] !in e.inactive)
    && (forall t :: t in e.mask ==> t in e.active || t in e.inactive)
    && (forall i :: 0 <= i < |e.active| ==> e.active[i] in e.mask)
    && (forall i :: 0 <= i < |e.inactive| ==> e.inactive[i] in e.mask)
    && e.mask.Keys == e.pending.Keys
  }

  /** ... and every binding with events to report is active. */
  predicate Inv<T(==)>(e: Epoll<T>) {
    Partition(e) && forall t :: t in e.mask && Ready(e, t) ==> t in e.active
  }

  /* ---------- the operations ---------- */

  function Index<T(==)>(xs: seq<T>, t: T): (i: nat)
    requires t in xs
    ensures i < |xs| && xs[i] == t && forall j :: 0 <= j < i ==> xs[j] != t
  {
    if xs[0] == t then 0 else 1 + Index(xs[1..], t)
  }

  function Without<T(==)>(xs: seq<T>, t: T): seq<T> {
    if t in xs then xs[..Index(xs, t)] + xs[Index(xs, t) + 1..] else xs
  }

  function Activate<T(==)>(e: Epoll<T>, t: T): Epoll<T> {
    if t in e.active then e else e.(inactive := Without(e.inactive, t), active := e.active + [t])
  }

  function ActivateIf<T(==)>(e: Epoll<T>, t: T): Epoll<T>
    requires t in e.mask && t in e.pending
  {
    if Ready(e, t) then Activate(e, t) else e
  }

  function Add<T(==)>(e: Epoll<T>, t: T, mask: Events, pending: Events): Epoll<T> {
    ActivateIf(e.(inactive := [t] + e.inactive, mask := e.mask[t := mask + {Err}],
                  pending := e.pending[t := pending]), t)
  }

  function Mod<T(==)>(e: Epoll<T>, t: T, mask: Events): Epoll<T>
    requires t in e.mask && t in e.pending
  {
    ActivateIf(e.(mask := e.mask[t := mask + {Err}]), t)
  }

  function Del<T(==)>(e: Epoll<T>, t: T): Epoll<T> {
    Epoll(Without(e.active, t), Without(e.inactive, t), e.mask - {t}, e.pending - {t})
  }

  /** New events wake the binding up only if some of them are asked for. */
  function Raise<T(==)>(e: Epoll<T>, t: T, events: Events): Epoll<T>
    requires t in e.mask && t in e.pending
  {
    var news := events - e.pending[t];
    var e' := e.(pending := e.pending[t := e.pending[t] + events]);
    if Meets(news, e.mask[t]) then Activate(e', t) else e'
  }

  function Lower<T(==)>(e: Epoll<T>, t: T, events: Events): Epoll<T>
    requires t in e.pending
  {
    e.(pending := e.pending[t := e.pending[t] - events])
  }

  /** The first active binding goes to the end of the queue if it is ready, else
      to the front of the inactive list. */
  function Turn<T(==)>(e: Epoll<T>): Epoll<T>
    requires e.active != [] && e.active[0] in e.mask && e.active[0] in e.pending
  {
    var t := e.active[0];
    if Ready(e, t) then e.(active := e.active[1..] + [t])
    else e.(active := e.active[1..], inactive := [t] + e.inactive)
  }

  predicate Bound<T(==)>(e: Epoll<T>) {
    forall i :: 0 <= i < |e.active| ==> e.active[i] in e.mask && e.active[i] in e.pending
  }

  /** At most `left` turns and `room` reports. */
  function Poll<T(==)>(e: Epoll<T>, left: nat, room: nat): (r: (Epoll<T>, seq<Report<T>>))
    requires Bound(e) && left <= |e.active|
    ensures |r.1| <= room
    decreases left
  {
    if left == 0 || room == 0 then (e, []) else
      var t := e.active[0];
      if Ready(e, t) then
        var r := Poll(Turn(e), left - 1, room - 1);
        (r.0, [Report(t, e.pending[t] * e.mask[t])] + r.1)
      else Poll(Turn(e), left - 1, room)
  }

  function Wait<T(==)>(e: Epoll<T>, maxEvents: nat): (r: (Epoll<T>, seq<Report<T>>))
    requires Bound(e)
    ensures |r.1| <= maxEvents
  {
    Poll(e, |e.active|, maxEvents)
  }

  /* ---------- what every operation keeps ---------- */

  /** Leaving out the element at `k`. */
  lemma LeftOut<T>(xs: seq<T>, ys: seq<T>, k: nat)
    requires NoDup(xs) && k < |xs| && ys == xs[..k] + xs[k + 1..]
    ensures NoDup(ys) && xs[k] !in ys
    ensures forall i :: 0 <= i < |ys| ==> ys[i] in xs
    ensures forall i :: 0 <= i < |xs| && i != k ==> xs[i] in ys
  {
    assert forall i :: 0 <= i < |ys| ==> ys[i] == if i < k then xs[i] else xs[i + 1];
    forall i | 0 <= i < |xs| && i != k ensures xs[i] in ys {
      assert xs[i] == ys[if i < k then i else i - 1];
    }
  }

  lemma WithoutKeeps<T>(xs: seq<T>, t: T)
    requires NoDup(xs)
    ensures NoDup(Without(xs, t)) && t !in Without(xs, t)
    ensures forall i :: 0 <= i < |Without(xs, t)| ==> Without(xs, t)[i] in xs
    ensures forall i :: 0 <= i < |xs| && xs[i] != t ==> xs[i] in Without(xs, t)
  {
    hide NoDup;
    if t in xs {
      LeftOut(xs, Without(xs, t), Index(xs, t));
    }
  }

  lemma WithoutNone<T>(xs: seq<T>, t: T)
    requires t !in xs
    ensures Without(xs, t) == xs
  {
  }

  lemma ActivateKeeps<T>(e: Epoll<T>, t: T)
    requires Partition(e) && t in e.mask
    ensures Partition(Activate(e, t)) && t in Activate(e, t).active
    ensures forall i :: 0 <= i < |e.active| ==> e.active[i] in Activate(e, t).active
  {
    hide Without;
    if t !in e.active {
      WithoutKeeps(e.inactive, t);
    }
  }

  /** Making one binding active if it is ready is enough when the others are
      right already. */
  lemma ActivateIfKeeps<T>(e: Epoll<T>, t: T)
    requires Partition(e) && t in e.mask
    requires forall u :: u in e.mask && u != t && Ready(e, u) ==> u in e.active
    ensures Inv(ActivateIf(e, t))
  {
    hide Activate, Meets;
    ActivateKeeps(e, t);
    ActivateFrame(e, t);
  }

  lemma ActivateFrame<T>(e: Epoll<T>, t: T)
    ensures Activate(e, t).mask == e.mask && Activate(e, t).pending == e.pending
  {
  }

  lemma AddKeeps<T>(e: Epoll<T>, t: T, mask: Events, pending: Events)
    requires Inv(e) && t !in e.mask
    ensures Inv(Add(e, t, mask, pending))
  {
    hide ActivateIf, Meets;
    var e' := e.(inactive := [t] + e.inactive, mask := e.mask[t := mask + {Err}], pending := e.pending[t := pending]);
    forall u | u in e'.mask && u != t && Ready(e', u) ensures u in e'.active {
      assert Ready(e, u);
    }
    assert Partition(e');
    ActivateIfKeeps(e', t);
  }

  lemma ModKeeps<T>(e: Epoll<T>, t: T, mask: Events)
    requires Inv(e) && t in e.mask
    ensures Inv(Mod(e, t, mask))
  {
    hide ActivateIf, Meets;
    var e' := e.(mask := e.mask[t := mask + {Err}]);
    forall u | u in e'.mask && u != t && Ready(e', u) ensures u in e'.active {
      assert Ready(e, u);
    }
    assert Partition(e');
    ActivateIfKeeps(e', t);
  }

  lemma DelKeeps<T>(e: Epoll<T>, t: T)
    requires Inv(e) && t in e.mask
    ensures Inv(Del(e, t)) && t !in Del(e, t).mask
  {
    hide Without, Meets;
    WithoutKeeps(e.active, t);
    WithoutKeeps(e.inactive, t);
    var e' := Del(e, t);
    forall u | u in e'.mask && Ready(e', u) ensures u in e'.active {
      assert Ready(e, u);
    }
  }

  lemma RaisedBits(pending: Events, events: Events, mask: Events)
    ensures Meets(pending + events, mask) <==> Meets(pending, mask) || Meets(events - pending, mask)
  {
    assert (pending + events) * mask == pending * mask + (events - pending) * mask;
  }

  lemma LoweredBits(pending: Events, events: Events, mask: Events)
    ensures Meets(pending - events, mask) ==> Meets(pending, mask)
  {
    assert (pending - events) * mask <= pending * mask;
  }

  /** Looking at the new events only is enough: a binding that was ready before is
      active before. */
  lemma RaiseKeeps<T>(e: Epoll<T>, t: T, events: Events)
    requires Inv(e) && t in e.mask
    ensures Inv(Raise(e, t, events))
  {
    hide Activate, Meets;
    var e' := e.(pending := e.pending[t := e.pending[t] + events]);
    RaisedBits(e.pending[t], events, e.mask[t]);
    assert Meets(e.pending[t], e.mask[t]) ==> Ready(e, t);
    forall u | u in e'.mask && u != t && Ready(e', u) ensures u in e'.active {
      assert Ready(e, u);
    }
    assert Partition(e');
    if Meets(events - e.pending[t], e.mask[t]) {
      ActivateIfKeeps(e', t);
    }
  }

  lemma LowerKeeps<T>(e: Epoll<T>, t: T, events: Events)
    requires Inv(e) && t in e.mask
    ensures Inv(Lower(e, t, events))
  {
    hide Meets;
    LoweredBits(e.pending[t], events, e.mask[t]);
    var e' := Lower(e, t, events);
    forall u | u in e'.mask && Ready(e', u) ensures u in e'.active {
      assert Ready(e, u);
    }
  }

  lemma Rotated<T>(xs: seq<T>)
    requires NoDup(xs) && xs != []
    ensures NoDup(xs[1..] + [xs[0]]) && NoDup(xs[1..]) && xs[0] !in xs[1..]
    ensures forall i :: 0 < i < |xs| ==> xs[i] in xs[1..]
  {
    var ys := xs[1..];
    assert forall i :: 0 <= i < |ys| ==> ys[i] == xs[i + 1];
    forall i | 0 < i < |xs| ensures xs[i] in ys {
      assert xs[i] == ys[i - 1];
    }
  }

  lemma Fronted<T>(xs: seq<T>, t: T)
    requires NoDup(xs) && t !in xs
    ensures NoDup([t] + xs)
  {
  }

  lemma TurnPartition<T>(e: Epoll<T>)
    requires Partition(e) && e.active != []
    ensures Partition(Turn(e)) && Turn(e).mask == e.mask && Turn(e).pending == e.pending
    ensures forall i :: 0 < i < |e.active| ==> e.active[i] in Turn(e).active
  {
    hide Meets, NoDup;
    Rotated(e.active);
    Fronted(e.inactive, e.active[0]);
  }

  lemma TurnKeeps<T>(e: Epoll<T>)
    requires Inv(e) && e.active != []
    ensures Inv(Turn(e)) && Turn(e).mask == e.mask && Turn(e).pending == e.pending
    ensures |Turn(e).active| >= |e.active| - 1
    ensures forall i :: 0 <= i < |e.active| - 1 ==> Turn(e).active[i] == e.active[i + 1]
  {
    hide Partition, Meets;
    TurnPartition(e);
    InvBound(e);
    var e' := Turn(e);
    forall u | u in e'.mask && Ready(e', u) ensures u in e'.active {
      assert Ready(e, u);
    }
  }

  lemma InvBound<T>(e: Epoll<T>)
    requires Inv(e)
    ensures Bound(e) && e.mask.Keys == e.pending.Keys
  {
  }

  lemma {:induction false} PollKeeps<T>(e: Epoll<T>, left: nat, room: nat)
    requires Inv(e) && left <= |e.active|
    ensures Inv(Poll(e, left, room).0)
    ensures Poll(e, left, room).0.mask == e.mask && Poll(e, left, room).0.pending == e.pending
    decreases left
  {
    hide Turn, Meets;
    if left > 0 && room > 0 {
      TurnKeeps(e);
      PollKeeps(Turn(e), left - 1, if Ready(e, e.active[0]) then room - 1 else room);
    }
  }

  /* ---------- reports ---------- */

  /** The reports are about some of `xs`, none of them twice, each with exactly the
      pending events that are asked for, and some. */
  predicate Truthful<T(==)>(out: seq<Report<T>>, xs: seq<T>, mask: map<T, Events>, pending: map<T, Events>) {
    && (forall i :: 0 <= i < |out| ==> out[i].t in xs)
    && (forall i :: 0 <= i < |out| ==> out[i].t in mask && out[i].t in pending)
    && (forall i :: 0 <= i < |out| ==> out[i].events == pending[out[i].t] * mask[out[i].t] != {})
    && forall i, j :: 0 <= i < j < |out| ==> out[i].t != out[j].t
  }

  lemma TruthfulMore<T>(out: seq<Report<T>>, xs: seq<T>, mask: map<T, Events>, pending: map<T, Events>)
    requires xs != [] && xs[0] !in xs[1..] && Truthful(out, xs[1..], mask, pending)
    ensures Truthful(out, xs, mask, pending)
    ensures xs[0] in mask && xs[0] in pending && Meets(pending[xs[0]], mask[xs[0]]) ==>
              Truthful([Report(xs[0], pending[xs[0]] * mask[xs[0]])] + out, xs, mask, pending)
  {
    forall i | 0 <= i < |out| ensures out[i].t in xs && out[i].t != xs[0] {
      assert out[i].t in xs[1..];
    }
  }

  lemma {:induction false} ReportsOnce<T>(e: Epoll<T>, left: nat, room: nat)
    requires Inv(e) && left <= |e.active|
    ensures Bound(e) && Truthful(Poll(e, left, room).1, e.active[..left], e.mask, e.pending)
    decreases left
  {
    hide Turn, Inv, Truthful, Meets;
    InvBound(e);
    NothingTruthful(e.active[..left], e.mask, e.pending);
    if left > 0 && room > 0 {
      var room' := if Ready(e, e.active[0]) then room - 1 else room;
      TurnKeeps(e);
      InvBound(Turn(e));
      ReportsOnce(Turn(e), left - 1, room');
      var xs := e.active[..left];
      assert xs[1..] == Turn(e).active[..left - 1];
      FirstApart(e, left);
      TruthfulMore(Poll(Turn(e), left - 1, room').1, xs, e.mask, e.pending);
    }
  }

  lemma NothingTruthful<T>(xs: seq<T>, mask: map<T, Events>, pending: map<T, Events>)
    ensures Truthful([], xs, mask, pending)
  {
  }

  lemma FirstApart<T>(e: Epoll<T>, left: nat)
    requires Inv(e) && 0 < left <= |e.active|
    ensures e.active[..left][0] !in e.active[..left][1..]
  {
    var xs := e.active[..left];
    assert forall i :: 0 <= i < left ==> xs[i] == e.active[i];
    assert forall i :: 0 <= i < |xs[1..]| ==> xs[1..][i] == xs[i + 1];
  }

  predicate Mentions<T(==)>(out: seq<Report<T>>, t: T) {
    exists i :: 0 <= i < |out| && out[i].t == t
  }

  /** A ready binding is reported, or moves up by at least the room there was. */
  lemma {:induction false} PollProgress<T>(e: Epoll<T>, left: nat, room: nat, p: nat)
    requires Inv(e) && p < left <= |e.active| && e.active[p] in e.pending && Ready(e, e.active[p])
    ensures Bound(e)
    ensures var r := Poll(e, left, room);
            || Mentions(r.1, e.active[p])
            || (p >= room && exists q :: 0 <= q <= p - room && q < |r.0.active| && r.0.active[q] == e.active[p])
    decreases left
  {
    hide Turn, Inv, Meets;
    InvBound(e);
    if room > 0 {
      var t := e.active[p];
      var ready := Ready(e, e.active[0]);
      var r := Poll(e, left, room);
      if p == 0 {
        assert r.1[0].t == t;
      } else {
        TurnKeeps(e);
        InvBound(Turn(e));
        var r1 := Poll(Turn(e), left - 1, if ready then room - 1 else room);
        PollProgress(Turn(e), left - 1, if ready then room - 1 else room, p - 1);
        if Mentions(r1.1, t) {
          var i :| 0 <= i < |r1.1| && r1.1[i].t == t;
          assert r.1[if ready then i + 1 else i].t == t;
        }
      }
    }
  }

  /* ---------- runs ---------- */

  datatype Step<T> =
    | AddStep(t: T, mask: Events, pending: Events)
    | ModStep(t: T, mask: Events)
    | DelStep(t: T)
    | RaiseStep(t: T, events: Events)
    | LowerStep(t: T, events: Events)
    | WaitStep(maxEvents: nat)

  predicate StepOk<T(==)>(e: Epoll<T>, s: Step<T>) {
    match s
    case AddStep(t, _, _) => t !in e.mask
    case WaitStep(_) => true
    case _ => s.t in e.mask
  }

  ghost function Do<T>(e: Epoll<T>, s: Step<T>): (r: (Epoll<T>, seq<Report<T>>))
    requires Inv(e) && StepOk(e, s)
    ensures Inv(r.0)
  {
    DoKeeps(e, s);
    match s
    case AddStep(t, mask, pending) => (Add(e, t, mask, pending), [])
    case ModStep(t, mask) => (Mod(e, t, mask), [])
    case DelStep(t) => (Del(e, t), [])
    case RaiseStep(t, events) => (Raise(e, t, events), [])
    case LowerStep(t, events) => (Lower(e, t, events), [])
    case WaitStep(maxEvents) => Wait(e, maxEvents)
  }

  lemma DoKeeps<T>(e: Epoll<T>, s: Step<T>)
    requires Inv(e) && StepOk(e, s)
    ensures match s
            case AddStep(t, mask, pending) => Inv(Add(e, t, mask, pending))
            case ModStep(t, mask) => Inv(Mod(e, t, mask))
            case DelStep(t) => Inv(Del(e, t))
            case RaiseStep(t, events) => Inv(Raise(e, t, events))
            case LowerStep(t, events) => Inv(Lower(e, t, events))
            case WaitStep(maxEvents) => Inv(Wait(e, maxEvents).0)
  {
    hide Inv, Add, Mod, Del, Raise, Lower, Poll;
    InvBound(e);
    match s
    case AddStep(t, mask, pending) => AddKeeps(e, t, mask, pending);
    case ModStep(t, mask) => ModKeeps(e, t, mask);
    case DelStep(t) => DelKeeps(e, t);
    case RaiseStep(t, events) => RaiseKeeps(e, t, events);
    case LowerStep(t, events) => LowerKeeps(e, t, events);
    case WaitStep(maxEvents) => PollKeeps(e, |e.active|, maxEvents);
  }

  ghost predicate RunOk<T>(e: Epoll<T>, steps: seq<Step<T>>)
    requires Inv(e)
    decreases |steps|
  {
    steps == [] || (StepOk(e, steps[0]) && RunOk(Do(e, steps[0]).0, steps[1..]))
  }

  ghost function Run<T>(e: Epoll<T>, steps: seq<Step<T>>): (r: (Epoll<T>, seq<Report<T>>))
    requires Inv(e) && RunOk(e, steps)
    ensures Inv(r.0)
    decreases |steps|
  {
    if steps == [] then (e, []) else
      var first := Do(e, steps[0]);
      var rest := Run(first.0, steps[1..]);
      (rest.0, first.1 + rest.1)
  }

  /** The binding is there and ready before and after every step. */
  ghost predicate StaysReady<T>(e: Epoll<T>, steps: seq<Step<T>>, t: T)
    requires Inv(e) && RunOk(e, steps)
    decreases |steps|
  {
    && t in e.mask && Ready(e, t)
    && (steps == [] || StaysReady(Do(e, steps[0]).0, steps[1..], t))
  }

  /** How many events all polls of a run together can report. */
  function Offered<T>(steps: seq<Step<T>>): nat {
    if steps == [] then 0 else (if steps[0].WaitStep? then steps[0].maxEvents else 0) + Offered(steps[1..])
  }

  lemma ActivatePosition<T>(e: Epoll<T>, u: T, p: nat)
    requires p < |e.active|
    ensures p < |Activate(e, u).active| && Activate(e, u).active[p] == e.active[p]
  {
  }

  lemma DelPosition<T>(e: Epoll<T>, u: T, p: nat) returns (q: nat)
    requires p < |e.active| && e.active[p] != u
    ensures q <= p && q < |Del(e, u).active| && Del(e, u).active[q] == e.active[p]
  {
    q := if u in e.active && Index(e.active, u) < p then p - 1 else p;
  }

  /** No step but a poll that reports it moves a ready binding back in the queue. */
  lemma DoPosition<T>(e: Epoll<T>, s: Step<T>, p: nat) returns (q: nat)
    requires Inv(e) && StepOk(e, s) && p < |e.active| && e.active[p] in e.mask && Ready(e, e.active[p])
    requires e.active[p] in Do(e, s).0.mask
    ensures var r := Do(e, s);
            || Mentions(r.1, e.active[p])
            || (&& q + (if s.WaitStep? then s.maxEvents else 0) <= p
                && q < |r.0.active| && r.0.active[q] == e.active[p])
  {
    hide Inv, Activate, Poll, Meets;
    InvBound(e);
    q := p;
    match s
    case AddStep(u, mask, pending) =>
      ActivatePosition(e.(inactive := [u] + e.inactive, mask := e.mask[u := mask + {Err}],
                          pending := e.pending[u := pending]), u, p);
    case ModStep(u, mask) =>
      ActivatePosition(e.(mask := e.mask[u := mask + {Err}]), u, p);
    case DelStep(u) =>
      q := DelPosition(e, u, p);
    case RaiseStep(u, events) =>
      ActivatePosition(e.(pending := e.pending[u := e.pending[u] + events]), u, p);
    case LowerStep(u, events) =>
    case WaitStep(maxEvents) =>
      PollProgress(e, |e.active|, maxEvents, p);
      if !Mentions(Do(e, s).1, e.active[p]) {
        q :| 0 <= q <= p - maxEvents && q < |Do(e, s).0.active| && Do(e, s).0.active[q] == e.active[p];
      }
  }

  /** Whatever happens to other bindings meanwhile, a binding at position `p` of the
      queue that stays ready is reported before the polls have offered room for
      more than `p` events; with `m` events a poll, by poll number p / m + 1. */
  lemma {:induction false} Fairness<T>(e: Epoll<T>, steps: seq<Step<T>>, p: nat)
    requires Inv(e) && RunOk(e, steps) && p < |e.active| && StaysReady(e, steps, e.active[p])
    requires Offered(steps) > p
    ensures Mentions(Run(e, steps).1, e.active[p])
    decreases |steps|
  {
    hide Inv, Do, Meets;
    var t, first := e.active[p], Do(e, steps[0]);
    var rest := Run(first.0, steps[1..]);
    var q := DoPosition(e, steps[0], p);
    if Mentions(first.1, t) {
      var i :| 0 <= i < |first.1| && first.1[i].t == t;
      assert (first.1 + rest.1)[i].t == t;
    } else {
      Fairness(first.0, steps[1..], q);
      var i :| 0 <= i < |rest.1| && rest.1[i].t == t;
      assert (first.1 + rest.1)[|first.1| + i].t == t;
    }
  }
}
