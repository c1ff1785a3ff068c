/**
 Fairness of the FIFO over whole runs: a queue that has bytes moves up with every
 poll that takes the FIFO first, whatever is set, added or sent by rate meanwhile.
 */
module SchedulerFairness {
  import opened Scheduler
  import opened SchedulerRuns

  predicate Serves(log: seq<Shot>, q: nat) {
    exists i :: 0 <= i < |log| && log[i].id == q
  }

  /** Queue `q` is at position `p` of the FIFO with bytes to send. */
  predicate Standing(s: Sched, q: nat, p: nat) {
    p < |s.fifo| && s.fifo[p] == q && q < |s.clients| && s.clients[q].avail > 0
  }

  predicate Prefix(xs: seq<nat>, ys: seq<nat>) {
    |xs| <= |ys| && forall i :: 0 <= i < |xs| ==> ys[i] == xs[i]
  }

  lemma ServesConcat(a: seq<Shot>, b: seq<Shot>, q: nat)
    requires Serves(a, q) || Serves(b, q)
    ensures Serves(a + b, q)
  {
    if Serves(a, q) {
      var i :| 0 <= i < |a| && a[i].id == q;
      assert (a + b)[i].id == q;
    } else {
      var i :| 0 <= i < |b| && b[i].id == q;
      assert (a + b)[|a| + i].id == q;
    }
  }

  lemma FirstServed(s: Sched, q: nat)
    requires Inv(s) && Standing(s, q, 0)
    ensures Serves(Turn(PopFifo(s), q).1, q)
  {
    assert Turn(PopFifo(s), q).1[0].id == q;
  }

  /** Polling the FIFO serves a queue that stands in it, or moves it up by at least
      the number of shots asked for. */
  lemma {:induction false} FifoProgress(s: Sched, num: nat, q: nat, p: nat) returns (p': nat)
    requires Inv(s) && Standing(s, q, p)
    ensures InRange(s)
    ensures var r := PollFifo(s, num);
            Serves(r.1, q) || (p' + num <= p && Standing(r.0, q, p') && r.0.clients[q] == s.clients[q])
    decreases num, |s.fifo|
  {
    hide Inv, Turn, Serves;
    InvInRange(s);
    p' := p;
    if num > 0 {
      var id := s.fifo[0];
      var t := Turn(PopFifo(s), id);
      FifoTurn(s);
      if p == 0 {
        FirstServed(s, q);
        ServesConcat(t.1, PollFifo(t.0, num - |t.1|).1, q);
      } else {
        FifoApart(s, p);
        PopFifoKeeps(s);
        TurnKeeps(PopFifo(s), id);
        p' := FifoProgress(t.0, num - |t.1|, q, p - 1);
        if Serves(PollFifo(t.0, num - |t.1|).1, q) {
          ServesConcat(t.1, PollFifo(t.0, num - |t.1|).1, q);
        }
      }
    }
  }

  lemma FifoApart(s: Sched, p: nat)
    requires Inv(s) && 0 < p < |s.fifo|
    ensures s.fifo[p] != s.fifo[0]
  {
  }

  /** A turn of another queue leaves this one alone and only appends to the FIFO. */
  lemma TurnFrame(s: Sched, id: nat, q: nat)
    requires InvBut(s, id) && q != id && q < |s.clients|
    ensures InRange(s) && Turn(s, id).0.clients[q] == s.clients[q] && Prefix(s.fifo, Turn(s, id).0.fifo)
  {
    hide Cost, Placed, Rank;
  }

  lemma {:induction false} TimedFrame(s: Sched, limit: int, num: nat, q: nat, p: nat)
    requires Inv(s) && Standing(s, q, p)
    ensures InRange(s)
    ensures var r := PollTimed(s, limit, num).0; Standing(r, q, p) && r.clients[q] == s.clients[q]
    decreases num, |s.timed|
  {
    hide Inv, InvBut, Turn;
    InvInRange(s);
    if HeadDueBy(s, limit) && num > 0 {
      var id := s.timed[0];
      var t := Turn(PopTimed(s), id);
      TimedApart(s, p);
      PopTimedKeeps(s);
      TurnKeeps(PopTimed(s), id);
      TurnFrame(PopTimed(s), id, q);
      TimedFrame(t.0, limit, num - |t.1|, q, p);
    }
  }

  lemma TimedApart(s: Sched, p: nat)
    requires Inv(s) && s.timed != [] && p < |s.fifo|
    ensures s.fifo[p] != s.timed[0]
  {
  }

  lemma TimedAtFrame(s: Sched, cur: int, num: nat, q: nat, p: nat)
    requires Inv(s) && Standing(s, q, p) && s.wall <= cur
    ensures InRange(s)
    ensures var r := PollTimedAt(s, cur, num).0;
            Inv(r) && Standing(r, q, p) && r.clients[q] == s.clients[q]
  {
    hide Inv, PollTimed;
    TimedFrame(s, s.now + (cur - s.wall), num, q, p);
    PollTimedAtKeeps(s, cur, num);
  }

  /** A poll serves a standing queue or does not move it back, and moves it up by the
      shots asked for if it takes the FIFO first. */
  lemma PollProgress(s: Sched, cur: int, num: nat, q: nat, p: nat) returns (p': nat)
    requires Inv(s) && Standing(s, q, p) && s.wall <= cur
    ensures InRange(s)
    ensures var r := Poll(s, cur, num);
            && r.0.fifoFirst == !s.fifoFirst
            && (Serves(r.1, q) || (p' + (if s.fifoFirst then num else 0) <= p && Standing(r.0, q, p')))
  {
    hide Inv, PollFifo, PollTimedAt, Serves;
    InvInRange(s);
    if s.fifoFirst {
      var r1 := PollFifo(s, num);
      p' := FifoProgress(s, num, q, p);
      var r2 := PollTimedAt(r1.0, cur, num - |r1.1|);
      if Serves(r1.1, q) {
        ServesConcat(r1.1, r2.1, q);
      } else {
        PollFifoKeeps(s, num);
        TimedAtFrame(r1.0, cur, num - |r1.1|, q, p');
      }
    } else {
      var r1 := PollTimedAt(s, cur, num);
      TimedAtFrame(s, cur, num, q, p);
      var r2 := PollFifo(r1.0, num - |r1.1|);
      p' := FifoProgress(r1.0, num - |r1.1|, q, p);
      if Serves(r2.1, q) {
        ServesConcat(r1.1, r2.1, q);
      }
    }
  }

  /** No set takes the queue's bytes away. */
  predicate KeepsBytes(s: Sched, steps: seq<Step>, q: nat)
    requires InRange(s) && q < |s.clients|
    decreases steps
  {
    steps == [] ||
    (&& (steps[0].SetStep? && steps[0].id == q ==> Updated(s.clients[q], steps[0].req).avail > 0)
     && KeepsBytes(Do(s, steps[0]).0, steps[1..], q))
  }

  lemma SetStays(s: Sched, id: nat, req: Request, q: nat, p: nat)
    requires Inv(s) && Standing(s, q, p)
    requires id == q ==> Updated(s.clients[q], req).avail > 0
    ensures InRange(s)
    ensures var r := Do(s, SetStep(id, req)).0; Standing(r, q, p) && r.fifoFirst == s.fifoFirst
  {
    hide Cost, Placed, Rank, Updated;
    InvInRange(s);
  }

  /** The shots offered by the polls that take the FIFO first, which is every second
      poll. */
  function Offered(fifoFirst: bool, steps: seq<Step>): nat
    decreases |steps|
  {
    if steps == [] then 0
    else if steps[0].SetStep? then Offered(fifoFirst, steps[1..])
    else (if fifoFirst then steps[0].num else 0) + Offered(!fifoFirst, steps[1..])
  }

  /** Over every run of sets and polls: a queue at position `p` of the FIFO whose bytes
      are not taken away is served before the polls that take the FIFO first have
      offered more than `p` shots, whatever the rate-limited queues take. */
  lemma {:induction false} FifoFairness(s: Sched, steps: seq<Step>, q: nat, p: nat)
    requires Inv(s) && ValidRun(s, steps) && Standing(s, q, p) && KeepsBytes(s, steps, q)
    requires Offered(s.fifoFirst, steps) > p
    ensures Serves(Run(s, steps).1, q)
    decreases |steps|
  {
    hide Inv, Poll, ApplySet, Serves, Updated;
    InvInRange(s);
    var d := Do(s, steps[0]);
    DoKeeps(s, steps[0]);
    var rest := Run(d.0, steps[1..]).1;
    match steps[0]
    case SetStep(id, req) =>
      SetStays(s, id, req, q, p);
      FifoFairness(d.0, steps[1..], q, p);
      assert d.1 + rest == rest;
    case PollStep(cur, num) =>
      var p' := PollProgress(s, cur, num, q, p);
      if !Serves(d.1, q) {
        FifoFairness(d.0, steps[1..], q, p');
      }
      ServesConcat(d.1, rest, q);
  }
}
