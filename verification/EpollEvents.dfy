/**
 What happens to the events of an epoll: which are pending and which are asked for
 after any run, by the calls alone, and that an event that is raised and asked for is
 reported.
 */
module EpollEvents {
  import opened Basics
  import opened EpollSpec

  /** The events asked for after a call; errors always are. */
  function MaskAfter<T(==)>(mask: map<T, Events>, s: Step<T>): map<T, Events> {
    match s
    case AddStep(t, m, _) => mask[t := m + {Err}]
    case ModStep(t, m) => mask[t := m + {Err}]
    case DelStep(t) => mask - {t}
    case _ => mask
  }

  /** The events pending after a call. */
  function PendingAfter<T(==)>(pending: map<T, Events>, s: Step<T>): map<T, Events>
    requires s.RaiseStep? || s.LowerStep? ==> s.t in pending
  {
    match s
    case AddStep(t, _, p) => pending[t := p]
    case DelStep(t) => pending - {t}
    case RaiseStep(t, events) => pending[t := pending[t] + events]
    case LowerStep(t, events) => pending[t := pending[t] - events]
    case _ => pending
  }

  lemma ActivateIfFrame<T>(e: Epoll<T>, t: T)
    requires t in e.mask && t in e.pending
    ensures ActivateIf(e, t).mask == e.mask && ActivateIf(e, t).pending == e.pending
  {
  }

  /** Every call has exactly this effect on what is asked for and what is pending, of its
      binding and of all the others, and every binding with events to report is in the
      queue afterwards. */
  lemma CallAccount<T>(e: Epoll<T>, s: Step<T>)
    requires Inv(e) && StepOk(e, s)
    ensures e.mask.Keys == e.pending.Keys
    ensures var e' := Do(e, s).0;
            && e'.mask == MaskAfter(e.mask, s) && e'.pending == PendingAfter(e.pending, s)
            && e'.mask.Keys == e'.pending.Keys
            && forall t :: t in e'.mask && Meets(e'.pending[t], e'.mask[t]) ==> t in e'.active
  {
    hide Activate, Poll, Without, Meets;
    InvBound(e);
    match s {
      case AddStep(t, mask, pending) =>
        ActivateIfFrame(e.(inactive := [t] + e.inactive, mask := e.mask[t := mask + {Err}],
                           pending := e.pending[t := pending]), t);
      case ModStep(t, mask) =>
        ActivateIfFrame(e.(mask := e.mask[t := mask + {Err}]), t);
      case RaiseStep(t, events) =>
        ActivateFrame(e.(pending := e.pending[t := e.pending[t] + events]), t);
      case WaitStep(maxEvents) =>
        PollKeeps(e, |e.active|, maxEvents);
      case _ =>
    }
    var e' := Do(e, s).0;
    assert Inv(e');
    forall t | t in e'.mask && Meets(e'.pending[t], e'.mask[t]) ensures t in e'.active {
      assert Ready(e', t);
    }
  }

  /** What is asked for and pending after a run, by its calls. */
  function AfterAll<T(==)>(mask: map<T, Events>, pending: map<T, Events>, steps: seq<Step<T>>)
    : (r: (map<T, Events>, map<T, Events>))
    decreases |steps|
  {
    if steps == [] then (mask, pending)
    else if (steps[0].RaiseStep? || steps[0].LowerStep?) && steps[0].t !in pending then (mask, pending)
    else AfterAll(MaskAfter(mask, steps[0]), PendingAfter(pending, steps[0]), steps[1..])
  }

  /** Over every run nothing else changes what is asked for and what is pending. */
  lemma {:induction false} RunAccount<T>(e: Epoll<T>, steps: seq<Step<T>>)
    requires Inv(e) && RunOk(e, steps)
    ensures var e' := Run(e, steps).0; (e'.mask, e'.pending) == AfterAll(e.mask, e.pending, steps)
    decreases |steps|
  {
    hide Inv, Do, MaskAfter, PendingAfter;
    if steps != [] {
      CallAccount(e, steps[0]);
      RunAccount(Do(e, steps[0]).0, steps[1..]);
    }
  }

  /* ---------- an event that is raised is reported ---------- */

  /** The call does not remove the binding, stop asking for the event or clear it. */
  predicate LeavesEvent<T(==)>(s: Step<T>, t: T, f: Flag) {
    match s
    case ModStep(u, m) => u == t ==> f in m + {Err}
    case DelStep(u) => u != t
    case LowerStep(u, events) => u == t ==> f !in events
    case _ => true
  }

  /** Event `f` of binding `t` is pending and asked for. */
  predicate Due<T(==)>(e: Epoll<T>, t: T, f: Flag) {
    t in e.mask && t in e.pending && f in e.mask[t] && f in e.pending[t]
  }

  lemma DueIsReady<T>(e: Epoll<T>, t: T, f: Flag)
    requires Due(e, t, f)
    ensures Ready(e, t)
  {
    assert f in e.pending[t] * e.mask[t];
  }

  lemma StaysDue<T>(e: Epoll<T>, s: Step<T>, t: T, f: Flag)
    requires Inv(e) && StepOk(e, s) && Due(e, t, f) && LeavesEvent(s, t, f)
    ensures Due(Do(e, s).0, t, f)
  {
    hide Inv, Do;
    CallAccount(e, s);
  }

  predicate Reports<T(==)>(out: seq<Report<T>>, t: T, f: Flag) {
    exists i :: 0 <= i < |out| && out[i].t == t && f in out[i].events
  }

  /** A report of the binding tells of the event. */
  lemma ReportTells<T>(e: Epoll<T>, s: Step<T>, t: T, f: Flag)
    requires Inv(e) && StepOk(e, s) && Due(e, t, f) && Mentions(Do(e, s).1, t)
    ensures Reports(Do(e, s).1, t, f)
  {
    hide Inv, Poll;
    var out := Do(e, s).1;
    var i :| 0 <= i < |out| && out[i].t == t;
    assert s.WaitStep?;
    ReportsOnce(e, |e.active|, s.maxEvents);
    assert out[i].events == e.pending[t] * e.mask[t];
  }

  lemma {:induction false} DueReported<T>(e: Epoll<T>, steps: seq<Step<T>>, p: nat, f: Flag)
    requires Inv(e) && RunOk(e, steps) && p < |e.active| && Due(e, e.active[p], f)
    requires forall i :: 0 <= i < |steps| ==> LeavesEvent(steps[i], e.active[p], f)
    requires Offered(steps) > p
    ensures Reports(Run(e, steps).1, e.active[p], f)
    decreases |steps|
  {
    hide Inv, Do, Due, LeavesEvent;
    var t, first := e.active[p], Do(e, steps[0]);
    var rest := Run(first.0, steps[1..]);
    DueBound(e, t, f);
    DueIsReady(e, t, f);
    StaysDue(e, steps[0], t, f);
    DueBound(first.0, t, f);
    var q := DoPosition(e, steps[0], p);
    if Mentions(first.1, t) {
      ReportTells(e, steps[0], t, f);
      var i :| 0 <= i < |first.1| && first.1[i].t == t && f in first.1[i].events;
      assert (first.1 + rest.1)[i] == first.1[i];
    } else {
      DueReported(first.0, steps[1..], q, f);
      var i :| 0 <= i < |rest.1| && rest.1[i].t == t && f in rest.1[i].events;
      assert (first.1 + rest.1)[|first.1| + i] == rest.1[i];
    }
  }

  lemma DueBound<T>(e: Epoll<T>, t: T, f: Flag)
    requires Due(e, t, f)
    ensures t in e.mask && t in e.pending
  {
  }

  /** An event that is raised and asked for, and then neither cleared nor unasked, is
      reported before the polls have offered more room than there are active bindings,
      whatever happens to the others. */
  lemma RaisedIsReported<T>(e: Epoll<T>, t: T, events: Events, f: Flag, steps: seq<Step<T>>)
    requires Inv(e) && t in e.mask && f in events && f in e.mask[t]
    requires RunOk(e, [RaiseStep(t, events)] + steps)
    requires forall i :: 0 <= i < |steps| ==> LeavesEvent(steps[i], t, f)
    requires Offered(steps) >= |Do(e, RaiseStep(t, events)).0.active|
    ensures Reports(Run(e, [RaiseStep(t, events)] + steps).1, t, f)
  {
    hide Inv, Do, LeavesEvent, Run, RunOk, Offered;
    var s := RaiseStep(t, events);
    RunFirst(e, s, steps);
    var e' := Do(e, s).0;
    var p := RaisedWaits(e, t, events, f);
    DueReported(e', steps, p, f);
    ReportsLater(Do(e, s).1, Run(e', steps).1, t, f);
  }

  lemma RunFirst<T>(e: Epoll<T>, s: Step<T>, steps: seq<Step<T>>)
    requires Inv(e) && RunOk(e, [s] + steps)
    ensures StepOk(e, s) && RunOk(Do(e, s).0, steps)
    ensures Run(e, [s] + steps).1 == Do(e, s).1 + Run(Do(e, s).0, steps).1
  {
    hide Inv, Do;
    assert ([s] + steps)[1..] == steps && ([s] + steps)[0] == s;
  }

  lemma ReportsLater<T>(a: seq<Report<T>>, b: seq<Report<T>>, t: T, f: Flag)
    requires Reports(b, t, f)
    ensures Reports(a + b, t, f)
  {
    var i :| 0 <= i < |b| && b[i].t == t && f in b[i].events;
    assert (a + b)[|a| + i] == b[i];
  }

  /** A raised event that is asked for is due, and its binding is in the queue. */
  lemma RaisedWaits<T>(e: Epoll<T>, t: T, events: Events, f: Flag) returns (p: nat)
    requires Inv(e) && t in e.mask && f in events && f in e.mask[t]
    ensures var e' := Do(e, RaiseStep(t, events)).0; p < |e'.active| && e'.active[p] == t && Due(e', t, f)
  {
    hide Inv, Do;
    CallAccount(e, RaiseStep(t, events));
    var e' := Do(e, RaiseStep(t, events)).0;
    assert Due(e', t, f);
    DueIsReady(e', t, f);
    p :| 0 <= p < |e'.active| && e'.active[p] == t;
  }
}
