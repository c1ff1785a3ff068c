/**
 Whole runs of the scheduler: the order, pacing and conservation of what it
 serves over any sequence of queue changes and polls.
 */
module SchedulerRuns {
  import opened Scheduler

  datatype Step = SetStep(id: nat, req: Request) | PollStep(cur: int, num: nat)

  /** One call from outside; a change to a queue that does not exist is refused. */
  function Do(s: Sched, e: Step): (r: (Sched, seq<Shot>))
    requires InRange(s)
    ensures InRange(r.0) && |r.0.clients| == |s.clients|
  {
    match e
    case SetStep(id, req) => (if id < |s.clients| then ApplySet(s, id, req) else s, [])
    case PollStep(cur, num) => Poll(s, cur, num)
  }

  function Run(s: Sched, steps: seq<Step>): (r: (Sched, seq<Shot>))
    requires InRange(s)
    ensures InRange(r.0) && |r.0.clients| == |s.clients|
    decreases steps
  {
    if steps == [] then (s, [])
    else
      var d := Do(s, steps[0]);
      var r := Run(d.0, steps[1..]);
      (r.0, d.1 + r.1)
  }

  /** What callers must respect: fields fit their widths, a maximum chunk spans
      less than half the clock, and real time does not go back. */
  predicate ValidStep(s: Sched, e: Step) {
    match e
    case SetStep(id, req) => id < |s.clients| ==> Fits(Updated(s.clients[id], req))
    case PollStep(cur, _) => s.wall <= cur
  }

  predicate ValidRun(s: Sched, steps: seq<Step>)
    requires InRange(s)
    decreases steps
  {
    steps == [] || (ValidStep(s, steps[0]) && ValidRun(Do(s, steps[0]).0, steps[1..]))
  }

  lemma DoKeeps(s: Sched, e: Step)
    requires Inv(s) && ValidStep(s, e)
    ensures Inv(Do(s, e).0)
    ensures 0 <= Do(s, e).0.now - s.now <= Do(s, e).0.wall - s.wall
  {
    hide Inv, Poll, Activate;
    match e
    case SetStep(id, req) =>
      InvInRange(s);
      if id < |s.clients| {
        ApplySetKeeps(s, id, req);
        ApplySetClock(s, id, req);
      }
    case PollStep(cur, num) =>
      InvInRange(s);
      PollKeeps(s, cur, num);
  }

  lemma ApplySetClock(s: Sched, id: nat, r: Request)
    requires InRange(s) && id < |s.clients|
    ensures ApplySet(s, id, r).now == s.now && ApplySet(s, id, r).wall == s.wall
  {
  }

  /** Every reachable state satisfies the invariant, and virtual time never
      advances more than real time. */
  lemma {:induction false} RunKeeps(s: Sched, steps: seq<Step>)
    requires Inv(s) && ValidRun(s, steps)
    ensures Inv(Run(s, steps).0)
    ensures 0 <= Run(s, steps).0.now - s.now <= Run(s, steps).0.wall - s.wall
    decreases steps
  {
    hide Inv, Do, ValidStep;
    InvInRange(s);
    if steps != [] {
      DoKeeps(s, steps[0]);
      RunKeeps(Do(s, steps[0]).0, steps[1..]);
    }
  }

  /* ---------- pacing ---------- */

  /** Queue `q` is limited to `rate`, sends at most `chunk` at once, and will not
      be served before virtual time `b`. */
  predicate Paces(s: Sched, q: nat, rate: nat, chunk: nat, b: int) {
    && Limited(s, q, rate, chunk)
    && var due := s.clients[q].due;
       && b <= s.now + Cost(chunk, rate)
       && if q in s.timed then due >= b else s.now >= b || due == b
  }

  predicate Limited(s: Sched, q: nat, rate: nat, chunk: nat) {
    && q < |s.clients| && q !in s.fifo && rate > 0
    && s.clients[q].rate == rate && s.clients[q].chunk == chunk
  }

  /** The shots of `q` are no earlier than `b`, and each is no earlier than the
      bytes of the one before it take at `rate`. */
  predicate Paced(log: seq<Shot>, q: nat, rate: nat, b: int)
    requires rate > 0
  {
    log == [] ||
    (if log[0].id == q
     then log[0].at >= b && Paced(log[1..], q, rate, log[0].at + Cost(log[0].bytes, rate))
     else Paced(log[1..], q, rate, b))
  }

  function NextBound(log: seq<Shot>, q: nat, rate: nat, b: int): int
    requires rate > 0
  {
    if log == [] then b
    else if log[0].id == q then NextBound(log[1..], q, rate, log[0].at + Cost(log[0].bytes, rate))
    else NextBound(log[1..], q, rate, b)
  }

  lemma {:induction false} PacedConcat(l1: seq<Shot>, l2: seq<Shot>, q: nat, rate: nat, b: int)
    requires rate > 0
    ensures Paced(l1 + l2, q, rate, b) <==> Paced(l1, q, rate, b) && Paced(l2, q, rate, NextBound(l1, q, rate, b))
    ensures NextBound(l1 + l2, q, rate, b) == NextBound(l2, q, rate, NextBound(l1, q, rate, b))
  {
    hide Cost;
    if l1 == [] {
      assert l1 + l2 == l2;
    } else {
      assert (l1 + l2)[1..] == l1[1..] + l2;
      var b' := if l1[0].id == q then l1[0].at + Cost(l1[0].bytes, rate) else b;
      PacedConcat(l1[1..], l2, q, rate, b');
    }
  }

  lemma LimitedCost(s: Sched, q: nat, rate: nat, chunk: nat)
    requires ListsOk(s) && Limited(s, q, rate, chunk)
    ensures Cost(chunk, rate) < HALF
  {
    assert Fits(s.clients[q]);
  }

  lemma ActivateOtherPaces(s: Sched, id: nat, q: nat, rate: nat, chunk: nat, b: int)
    requires InvBut(s, id) && Paces(s, q, rate, chunk, b) && id != q
    ensures Paces(Activate(s, id), q, rate, chunk, b)
  {
    hide Cost, Placed;
    var s' := Activate(s, id);
    if s.clients[id].rate > 0 {
      ActivateTimedLists(s, id);
    }
  }

  lemma ActivateSelfPaces(s: Sched, q: nat, rate: nat, chunk: nat, b: int)
    requires InvBut(s, q) && Paces(s, q, rate, chunk, b)
    ensures Paces(Activate(s, q), q, rate, chunk, b)
  {
    hide Cost, Placed;
    LimitedCost(s, q, rate, chunk);
    PlacedRange(s.now, s.clients[q].due, Cost(chunk, rate));
    ActivateTimedLists(s, q);
  }

  lemma FireOtherPaces(s: Sched, id: nat, q: nat, rate: nat, chunk: nat, b: int)
    requires InvBut(s, id) && Paces(s, q, rate, chunk, b) && id != q
    ensures Paces(Fire(s, id), q, rate, chunk, b)
  {
    hide Cost, Activate;
    ServedKeepsInvBut(s, id);
    var s' := s.(clients := s.clients[id := Served(s.clients[id], s.now)]);
    if s'.clients[id].avail > 0 {
      ActivateOtherPaces(s', id, q, rate, chunk, b);
    }
  }

  lemma FireSelfPaces(s: Sched, q: nat, rate: nat, chunk: nat)
    requires InvBut(s, q) && Limited(s, q, rate, chunk)
    ensures Paces(Fire(s, q), q, rate, chunk, s.now + Cost(ShotOf(s, q).bytes, rate))
  {
    hide Cost, Activate;
    ServedKeepsInvBut(s, q);
    var s' := s.(clients := s.clients[q := Served(s.clients[q], s.now)]);
    var bytes := ShotOf(s, q).bytes;
    CostMonotone(bytes, chunk, rate);
    assert Paces(s', q, rate, chunk, s.now + Cost(bytes, rate));
    if s'.clients[q].avail > 0 {
      ActivateSelfPaces(s', q, rate, chunk, s.now + Cost(bytes, rate));
    }
  }

  lemma TurnPaces(s: Sched, id: nat, q: nat, rate: nat, chunk: nat, b: int)
    requires InvBut(s, id) && Limited(s, q, rate, chunk)
    requires if id == q then s.now >= b else Paces(s, q, rate, chunk, b)
    ensures Paced(Turn(s, id).1, q, rate, b)
    ensures Paces(Turn(s, id).0, q, rate, chunk, NextBound(Turn(s, id).1, q, rate, b))
  {
    hide Cost, Fire;
    if s.clients[id].avail > 0 {
      if id == q {
        FireSelfPaces(s, q, rate, chunk);
      } else {
        FireOtherPaces(s, id, q, rate, chunk, b);
      }
    }
  }

  lemma {:induction false} PollTimedPaces(s: Sched, limit: int, num: nat, q: nat, rate: nat, chunk: nat, b: int)
    requires Inv(s) && s.now <= limit && Paces(s, q, rate, chunk, b)
    ensures Paced(PollTimed(s, limit, num).1, q, rate, b)
    ensures Paces(PollTimed(s, limit, num).0, q, rate, chunk, NextBound(PollTimed(s, limit, num).1, q, rate, b))
    decreases num, |s.timed|
  {
    hide Inv, InvBut, ListsOk, Turn, Cost;
    InvInRange(s);
    if HeadDueBy(s, limit) {
      PopTimedKeeps(s);
      if num > 0 {
        var s1, id := PopTimed(s), s.timed[0];
        PopTimedPaces(s, q, rate, chunk, b);
        TurnPaces(s1, id, q, rate, chunk, b);
        TurnKeeps(s1, id);
        var t := Turn(s1, id);
        PollTimedPaces(t.0, limit, num - |t.1|, q, rate, chunk, NextBound(t.1, q, rate, b));
        PacedConcat(t.1, PollTimed(t.0, limit, num - |t.1|).1, q, rate, b);
      }
    }
  }

  lemma PopTimedPaces(s: Sched, q: nat, rate: nat, chunk: nat, b: int)
    requires Inv(s) && s.timed != [] && Paces(s, q, rate, chunk, b)
    ensures Limited(PopTimed(s), q, rate, chunk)
    ensures if s.timed[0] == q then PopTimed(s).now >= b else Paces(PopTimed(s), q, rate, chunk, b)
  {
    hide Cost;
    PopTimedKeeps(s);
    assert q != s.timed[0] ==> (q in s.timed <==> q in s.timed[1..]);
  }

  lemma {:induction false} PollFifoPaces(s: Sched, num: nat, q: nat, rate: nat, chunk: nat, b: int)
    requires Inv(s) && Paces(s, q, rate, chunk, b)
    ensures Paced(PollFifo(s, num).1, q, rate, b)
    ensures Paces(PollFifo(s, num).0, q, rate, chunk, NextBound(PollFifo(s, num).1, q, rate, b))
    decreases num, |s.fifo|
  {
    hide Inv, InvBut, ListsOk, Turn, Cost;
    InvInRange(s);
    if num > 0 && s.fifo != [] {
      var s1, id := PopFifo(s), s.fifo[0];
      PopFifoKeeps(s);
      assert Paces(s1, q, rate, chunk, b);
      TurnPaces(s1, id, q, rate, chunk, b);
      TurnKeeps(s1, id);
      var t := Turn(s1, id);
      PollFifoPaces(t.0, num - |t.1|, q, rate, chunk, NextBound(t.1, q, rate, b));
      PacedConcat(t.1, PollFifo(t.0, num - |t.1|).1, q, rate, b);
    }
  }

  lemma PollTimedAtPaces(s: Sched, cur: int, num: nat, q: nat, rate: nat, chunk: nat, b: int)
    requires Inv(s) && s.wall <= cur && Paces(s, q, rate, chunk, b)
    ensures Paced(PollTimedAt(s, cur, num).1, q, rate, b)
    ensures Paces(PollTimedAt(s, cur, num).0, q, rate, chunk, NextBound(PollTimedAt(s, cur, num).1, q, rate, b))
  {
    hide Inv, PollTimed, Paced, NextBound, Cost;
    InvInRange(s);
    PollTimedPaces(s, s.now + (cur - s.wall), num, q, rate, chunk, b);
  }

  lemma PollPaces(s: Sched, cur: int, num: nat, q: nat, rate: nat, chunk: nat, b: int)
    requires Inv(s) && s.wall <= cur && Paces(s, q, rate, chunk, b)
    ensures Paced(Poll(s, cur, num).1, q, rate, b)
    ensures Paces(Poll(s, cur, num).0, q, rate, chunk, NextBound(Poll(s, cur, num).1, q, rate, b))
  {
    hide Inv, PollTimedAt, PollFifo, Paced, NextBound, Cost;
    InvInRange(s);
    if s.fifoFirst {
      PollFifoKeeps(s, num);
      PollFifoPaces(s, num, q, rate, chunk, b);
      var r1 := PollFifo(s, num);
      PollTimedAtPaces(r1.0, cur, num - |r1.1|, q, rate, chunk, NextBound(r1.1, q, rate, b));
      PacedConcat(r1.1, PollTimedAt(r1.0, cur, num - |r1.1|).1, q, rate, b);
    } else {
      PollTimedAtKeeps(s, cur, num);
      PollTimedAtPaces(s, cur, num, q, rate, chunk, b);
      var r1 := PollTimedAt(s, cur, num);
      PollFifoPaces(r1.0, num - |r1.1|, q, rate, chunk, NextBound(r1.1, q, rate, b));
      PacedConcat(r1.1, PollFifo(r1.0, num - |r1.1|).1, q, rate, b);
    }
  }

  /** The step leaves the rate and chunk of `q` as they are. */
  predicate KeepsRate(e: Step, q: nat, rate: nat, chunk: nat) {
    e.SetStep? && e.id == q ==>
      (e.req.setRate ==> e.req.rate == rate) && (e.req.setChunk ==> e.req.chunk == chunk)
  }

  lemma ApplySetPaces(s: Sched, id: nat, r: Request, q: nat, rate: nat, chunk: nat, b: int)
    requires Inv(s) && id < |s.clients| && Fits(Updated(s.clients[id], r))
    requires Paces(s, q, rate, chunk, b) && KeepsRate(SetStep(id, r), q, rate, chunk)
    ensures Paces(ApplySet(s, id, r), q, rate, chunk, b)
  {
    hide Activate, Cost;
    var c := Updated(s.clients[id], r);
    var s' := s.(clients := s.clients[id := c]);
    assert Paces(s', q, rate, chunk, b);
    if (r.setAvail || r.addAvail) && c.avail > 0 && !Listed(s, id) {
      if id == q {
        ActivateSelfPaces(s', q, rate, chunk, b);
      } else {
        ActivateOtherPaces(s', id, q, rate, chunk, b);
      }
    }
  }

  lemma DoPaces(s: Sched, e: Step, q: nat, rate: nat, chunk: nat, b: int)
    requires Inv(s) && ValidStep(s, e)
    requires Paces(s, q, rate, chunk, b) && KeepsRate(e, q, rate, chunk)
    ensures Paced(Do(s, e).1, q, rate, b)
    ensures Paces(Do(s, e).0, q, rate, chunk, NextBound(Do(s, e).1, q, rate, b))
  {
    hide Inv, Poll, ApplySet, Cost, Paces, KeepsRate;
    InvInRange(s);
    match e
    case SetStep(id, req) =>
      if id < |s.clients| {
        ApplySetPaces(s, id, req, q, rate, chunk, b);
      }
    case PollStep(cur, num) =>
      PollPaces(s, cur, num, q, rate, chunk, b);
  }

  lemma {:induction false} RunPaces(s: Sched, steps: seq<Step>, q: nat, rate: nat, chunk: nat, b: int)
    requires Inv(s) && ValidRun(s, steps)
    requires Paces(s, q, rate, chunk, b)
    requires forall i :: 0 <= i < |steps| ==> KeepsRate(steps[i], q, rate, chunk)
    ensures Paced(Run(s, steps).1, q, rate, b)
    ensures Paces(Run(s, steps).0, q, rate, chunk, NextBound(Run(s, steps).1, q, rate, b))
    decreases steps
  {
    hide Inv, Do, ValidStep, Paces, KeepsRate, Cost;
    InvInRange(s);
    if steps != [] {
      DoKeeps(s, steps[0]);
      PacesLimited(s, q, rate, chunk, b);
      DoPaces(s, steps[0], q, rate, chunk, b);
      var d := Do(s, steps[0]);
      RunPaces(d.0, steps[1..], q, rate, chunk, NextBound(d.1, q, rate, b));
      PacedConcat(d.1, Run(d.0, steps[1..]).1, q, rate, b);
    } else {
      PacesLimited(s, q, rate, chunk, b);
    }
  }

  lemma PacesLimited(s: Sched, q: nat, rate: nat, chunk: nat, b: int)
    requires Paces(s, q, rate, chunk, b)
    ensures Limited(s, q, rate, chunk)
  {
  }

  lemma {:induction false} PacedAfter(log: seq<Shot>, q: nat, rate: nat, b: int, j: nat)
    requires rate > 0 && Paced(log, q, rate, b)
    requires j < |log| && log[j].id == q
    ensures log[j].at >= b
  {
    hide Cost;
    if j > 0 {
      PacedAfter(log[1..], q, rate, if log[0].id == q then log[0].at + Cost(log[0].bytes, rate) else b, j - 1);
    }
  }

  lemma {:induction false} PacedGap(log: seq<Shot>, q: nat, rate: nat, b: int, i: nat, j: nat)
    requires rate > 0 && Paced(log, q, rate, b)
    requires i < j < |log| && log[i].id == q && log[j].id == q
    ensures log[j].at - log[i].at >= Cost(log[i].bytes, rate)
  {
    hide Cost;
    var b' := if log[0].id == q then log[0].at + Cost(log[0].bytes, rate) else b;
    if i == 0 {
      PacedAfter(log[1..], q, rate, b', j - 1);
    } else {
      PacedGap(log[1..], q, rate, b', i - 1, j - 1);
    }
  }

  lemma StartPaces(s: Sched, q: nat, rate: nat, chunk: nat)
    requires Inv(s) && Limited(s, q, rate, chunk)
    ensures Paces(s, q, rate, chunk, s.now)
  {
    if q in s.timed {
      var i :| 0 <= i < |s.timed| && s.timed[i] == q;
      assert Upcoming(s.clients[s.timed[i]], s.now);
    }
  }

  /** Pacing: in every run that leaves the rate and chunk of a limited queue
      alone, any two of its shots are at least as far apart in virtual time as
      the bytes of the earlier one take at its rate, idle gaps included. */
  lemma Pacing(s: Sched, steps: seq<Step>, q: nat, rate: nat, chunk: nat, i: nat, j: nat)
    requires Inv(s) && ValidRun(s, steps) && Limited(s, q, rate, chunk)
    requires forall k :: 0 <= k < |steps| ==> KeepsRate(steps[k], q, rate, chunk)
    requires i < j < |Run(s, steps).1|
    requires Run(s, steps).1[i].id == q && Run(s, steps).1[j].id == q
    ensures Run(s, steps).1[j].at - Run(s, steps).1[i].at >= Cost(Run(s, steps).1[i].bytes, rate)
  {
    hide Inv, Run, ValidRun, Paces, Paced, NextBound, KeepsRate, Cost;
    InvInRange(s);
    StartPaces(s, q, rate, chunk);
    RunPaces(s, steps, q, rate, chunk, s.now);
    PacedGap(Run(s, steps).1, q, rate, s.now, i, j);
  }

  /* ---------- throughput ---------- */

  function BytesOf(log: seq<Shot>, q: nat): nat {
    if log == [] then 0 else (if log[0].id == q then log[0].bytes else 0) + BytesOf(log[1..], q)
  }

  function CountOf(log: seq<Shot>, q: nat): nat {
    if log == [] then 0 else (if log[0].id == q then 1 else 0) + CountOf(log[1..], q)
  }

  lemma CostRounding(bytes: nat, rate: nat)
    requires rate > 0
    ensures rate * Cost(bytes, rate) <= 8000000 * bytes <= rate * Cost(bytes, rate) + (rate - 1)
  {
    var x := bytes * 8 * 1000000;
    assert x == x / rate * rate + x % rate;
  }

  lemma {:induction false} PacedBytes(log: seq<Shot>, q: nat, rate: nat, b: int)
    requires rate > 0 && Paced(log, q, rate, b)
    ensures 8000000 * BytesOf(log, q) <= rate * (NextBound(log, q, rate, b) - b) + (rate - 1) * CountOf(log, q)
  {
    hide Cost;
    if log != [] {
      var tail, e := log[1..], NextBound(log, q, rate, b);
      if log[0].id == q {
        var b' := log[0].at + Cost(log[0].bytes, rate);
        PacedBytes(tail, q, rate, b');
        CostRounding(log[0].bytes, rate);
        PacedBytesStep(rate, log[0].bytes, Cost(log[0].bytes, rate), BytesOf(tail, q), CountOf(tail, q), e, b, b');
      } else {
        PacedBytes(tail, q, rate, b);
      }
    }
  }

  lemma PacedBytesStep(rate: nat, bytes: nat, cost: nat, rest: nat, n: nat, e: int, b: int, b': int)
    requires rate > 0 && b' >= b + cost
    requires 8000000 * bytes <= rate * cost + (rate - 1)
    requires 8000000 * rest <= rate * (e - b') + (rate - 1) * n
    ensures 8000000 * (bytes + rest) <= rate * (e - b) + (rate - 1) * (n + 1)
  {
    assert rate * (e - b) == rate * (e - b') + rate * cost + rate * (b' - b - cost);
    assert rate * (b' - b - cost) >= 0;
    assert (rate - 1) * (n + 1) == (rate - 1) * n + (rate - 1);
  }

  /** Rate limit: the bytes a limited queue sends in any run are at most its rate
      times the real time passed, plus one chunk, plus less than one byte-time of
      rounding for each shot. */
  lemma RateLimit(s: Sched, steps: seq<Step>, q: nat, rate: nat, chunk: nat)
    requires Inv(s) && ValidRun(s, steps) && Limited(s, q, rate, chunk)
    requires forall k :: 0 <= k < |steps| ==> KeepsRate(steps[k], q, rate, chunk)
    ensures var r := Run(s, steps);
            8000000 * BytesOf(r.1, q) <=
            rate * (r.0.wall - s.wall) + 8000000 * chunk + (rate - 1) * CountOf(r.1, q)
  {
    hide Inv, Run, ValidRun, Paced, NextBound, KeepsRate, Cost, BytesOf, CountOf;
    InvInRange(s);
    StartPaces(s, q, rate, chunk);
    RunKeeps(s, steps);
    RunPaces(s, steps, q, rate, chunk, s.now);
    var r := Run(s, steps);
    PacedBytes(r.1, q, rate, s.now);
    var e := NextBound(r.1, q, rate, s.now);
    CostRounding(chunk, rate);
    RateLimitStep(rate, e - s.now, r.0.wall - s.wall, Cost(chunk, rate));
  }

  lemma RateLimitStep(rate: nat, span: int, elapsed: int, cost: nat)
    requires span <= elapsed + cost
    ensures rate * span <= rate * elapsed + rate * cost
  {
    assert rate * elapsed + rate * cost - rate * span == rate * (elapsed + cost - span);
  }

  /* ---------- conservation ---------- */

  lemma {:induction false} BytesOfConcat(l1: seq<Shot>, l2: seq<Shot>, q: nat)
    ensures BytesOf(l1 + l2, q) == BytesOf(l1, q) + BytesOf(l2, q)
  {
    if l1 == [] {
      assert l1 + l2 == l2;
    } else {
      assert (l1 + l2)[1..] == l1[1..] + l2;
      BytesOfConcat(l1[1..], l2, q);
    }
  }

  lemma TurnConserves(s: Sched, id: nat, q: nat)
    requires InRange(s) && id < |s.clients| && q < |s.clients|
    ensures BytesOf(Turn(s, id).1, q) + Turn(s, id).0.clients[q].avail == s.clients[q].avail
  {
    hide Cost, Placed, Rank;
  }

  lemma {:induction false} PollTimedConserves(s: Sched, limit: int, num: nat, q: nat)
    requires InRange(s) && q < |s.clients|
    ensures BytesOf(PollTimed(s, limit, num).1, q) + PollTimed(s, limit, num).0.clients[q].avail == s.clients[q].avail
    decreases num, |s.timed|
  {
    hide Turn;
    if HeadDueBy(s, limit) && num > 0 {
      var t := Turn(PopTimed(s), s.timed[0]);
      TurnConserves(PopTimed(s), s.timed[0], q);
      PollTimedConserves(t.0, limit, num - |t.1|, q);
      BytesOfConcat(t.1, PollTimed(t.0, limit, num - |t.1|).1, q);
    }
  }

  lemma {:induction false} PollFifoConserves(s: Sched, num: nat, q: nat)
    requires InRange(s) && q < |s.clients|
    ensures BytesOf(PollFifo(s, num).1, q) + PollFifo(s, num).0.clients[q].avail == s.clients[q].avail
    decreases num, |s.fifo|
  {
    hide Turn;
    if num > 0 && s.fifo != [] {
      var t := Turn(PopFifo(s), s.fifo[0]);
      TurnConserves(PopFifo(s), s.fifo[0], q);
      PollFifoConserves(t.0, num - |t.1|, q);
      BytesOfConcat(t.1, PollFifo(t.0, num - |t.1|).1, q);
    }
  }

  lemma PollConserves(s: Sched, cur: int, num: nat, q: nat)
    requires InRange(s) && q < |s.clients|
    ensures BytesOf(Poll(s, cur, num).1, q) + Poll(s, cur, num).0.clients[q].avail == s.clients[q].avail
  {
    hide PollTimed, PollFifo, BytesOf;
    var limit := s.now + (cur - s.wall);
    if s.fifoFirst {
      PollFifoConserves(s, num, q);
      var r1 := PollFifo(s, num);
      PollTimedConserves(r1.0, r1.0.now + (cur - r1.0.wall), num - |r1.1|, q);
      BytesOfConcat(r1.1, PollTimedAt(r1.0, cur, num - |r1.1|).1, q);
    } else {
      PollTimedConserves(s, limit, num, q);
      var r1 := PollTimedAt(s, cur, num);
      PollFifoConserves(r1.0, num - |r1.1|, q);
      BytesOfConcat(r1.1, PollFifo(r1.0, num - |r1.1|).1, q);
    }
  }

  predicate OnlyAdds(e: Step, q: nat) {
    e.SetStep? && e.id == q ==> !e.req.setAvail
  }

  function AddedBy(e: Step, q: nat): nat {
    if e.SetStep? && e.id == q && e.req.addAvail then e.req.avail else 0
  }

  /** Bytes handed to queue `q` over the run. */
  function Added(steps: seq<Step>, q: nat): nat {
    if steps == [] then 0 else AddedBy(steps[0], q) + Added(steps[1..], q)
  }

  /** How many times 2^32 was lost because handing bytes to `q` overflowed its
      32-bit byte count. */
  function Overflows(s: Sched, steps: seq<Step>, q: nat): nat
    requires InRange(s) && q < |s.clients|
    decreases steps
  {
    if steps == [] then 0
    else (s.clients[q].avail + AddedBy(steps[0], q)) / TS_MOD + Overflows(Do(s, steps[0]).0, steps[1..], q)
  }

  lemma DoConserves(s: Sched, e: Step, q: nat)
    requires Inv(s) && q < |s.clients| && OnlyAdds(e, q)
    ensures BytesOf(Do(s, e).1, q) + Do(s, e).0.clients[q].avail
         == (s.clients[q].avail + AddedBy(e, q)) % TS_MOD
  {
    hide Poll, Cost, Placed, Rank, ListsOk;
    InvInRange(s);
    AvailFits(s, q);
    if e.PollStep? {
      PollConserves(s, e.cur, e.num, q);
    }
  }

  lemma AvailFits(s: Sched, q: nat)
    requires Inv(s) && q < |s.clients|
    ensures s.clients[q].avail < TS_MOD
  {
    assert Fits(s.clients[q]);
  }

  /** Conservation: over any run that only adds to queue `q`, the bytes served
      plus the bytes left are the bytes it had plus the bytes added, short of
      2^32 for each addition that overflows; so nothing is lost or invented if
      and only if no addition overflows. */
  lemma {:induction false} Conservation(s: Sched, steps: seq<Step>, q: nat)
    requires Inv(s) && ValidRun(s, steps) && q < |s.clients|
    requires forall k :: 0 <= k < |steps| ==> OnlyAdds(steps[k], q)
    ensures BytesOf(Run(s, steps).1, q) + Run(s, steps).0.clients[q].avail + TS_MOD * Overflows(s, steps, q)
         == s.clients[q].avail + Added(steps, q)
    decreases steps
  {
    hide Inv, Do, ValidStep, OnlyAdds, AddedBy;
    InvInRange(s);
    if steps != [] {
      DoConserves(s, steps[0], q);
      DoKeeps(s, steps[0]);
      var d := Do(s, steps[0]);
      Conservation(d.0, steps[1..], q);
      BytesOfConcat(d.1, Run(d.0, steps[1..]).1, q);
    }
  }

  /* ---------- round robin ---------- */

  function Ids(log: seq<Shot>): (ids: seq<nat>)
    ensures |ids| == |log|
  {
    if log == [] then [] else [log[0].id] + Ids(log[1..])
  }

  lemma {:induction false} IdsConcat(l1: seq<Shot>, l2: seq<Shot>)
    ensures Ids(l1 + l2) == Ids(l1) + Ids(l2)
  {
    if l1 == [] {
      assert l1 + l2 == l2;
    } else {
      assert (l1 + l2)[1..] == l1[1..] + l2;
      IdsConcat(l1[1..], l2);
    }
  }

  /** The queues of `ids` that have bytes to send. */
  function Ready(clients: seq<Client>, ids: seq<nat>): seq<nat>
    requires Below(ids, |clients|)
  {
    if ids == [] then []
    else (if clients[ids[0]].avail > 0 then [ids[0]] else []) + Ready(clients, ids[1..])
  }

  /** The queues of `ids` that go back on the list after one more turn. */
  function Returning(clients: seq<Client>, ids: seq<nat>): seq<nat>
    requires Below(ids, |clients|)
  {
    if ids == [] then []
    else (if clients[ids[0]].avail > clients[ids[0]].chunk && clients[ids[0]].rate == 0 then [ids[0]] else [])
         + Returning(clients, ids[1..])
  }

  /** How far down `ids` one has to go to meet `num` queues with bytes to send. */
  function Reach(clients: seq<Client>, ids: seq<nat>, num: nat): (k: nat)
    requires Below(ids, |clients|)
    ensures k <= |ids|
  {
    if num == 0 || ids == [] then 0
    else 1 + Reach(clients, ids[1..], if clients[ids[0]].avail > 0 then num - 1 else num)
  }

  lemma {:induction false} FramedLists(c1: seq<Client>, c2: seq<Client>, ids: seq<nat>, num: nat)
    requires |c1| == |c2| && Below(ids, |c1|)
    requires forall i :: 0 <= i < |ids| ==> c1[ids[i]] == c2[ids[i]]
    ensures Ready(c1, ids) == Ready(c2, ids)
    ensures Returning(c1, ids) == Returning(c2, ids)
    ensures Reach(c1, ids, num) == Reach(c2, ids, num)
  {
    if ids != [] {
      assert c1[ids[0]] == c2[ids[0]];
      assert forall i :: 0 <= i < |ids[1..]| ==> ids[1..][i] == ids[i + 1];
      FramedLists(c1, c2, ids[1..], if num > 0 && c1[ids[0]].avail > 0 then num - 1 else num);
    }
  }

  /** What the turn of the first queue of the list does to the list. */
  lemma FifoTurn(s: Sched)
    requires Inv(s) && s.fifo != []
    ensures var id, t := s.fifo[0], Turn(PopFifo(s), s.fifo[0]);
            var c := s.clients[id];
            && t.0.fifo == s.fifo[1..] + (if c.avail > c.chunk && c.rate == 0 then [id] else [])
            && (forall x :: 0 <= x < |s.clients| && x != id ==> t.0.clients[x] == s.clients[x])
            && Ids(t.1) == (if c.avail > 0 then [id] else []) && |t.1| == |Ids(t.1)|
  {
    hide Cost, Placed, Rank;
    PopFifoKeeps(s);
  }

  lemma PollFifoStep(s: Sched, num: nat)
    requires InRange(s)
    ensures num == 0 ==> PollFifo(s, num) == (s, [])
    ensures num > 0 && s.fifo != [] ==>
              var t := Turn(PopFifo(s), s.fifo[0]);
              && InRange(t.0) && |t.1| <= 1
              && var r := PollFifo(t.0, num - |t.1|); PollFifo(s, num) == (r.0, t.1 + r.1)
  {
    hide Turn;
  }

  /** Round robin: a poll of the unlimited queues for `num` shots goes down the
      list as it stood, serves the queues with bytes in that order, and puts each
      one that still has bytes behind all that are still waiting. */
  lemma {:induction false} RoundRobin(s: Sched, first: seq<nat>, num: nat)
    requires Inv(s) && first <= s.fifo
    requires Below(first, |s.clients|) && num <= |Ready(s.clients, first)|
    ensures var k, r := Reach(s.clients, first, num), PollFifo(s, num);
            && Ids(r.1) == Ready(s.clients, first[..k]) && |r.1| == num
            && r.0.fifo == s.fifo[k..] + Returning(s.clients, first[..k])
    decreases first
  {
    hide Inv, Turn, Ready, Returning, Reach, Ids, PollFifo;
    InvInRange(s);
    PollFifoStep(s, num);
    RoundStep(s.clients, first, num);
    if num == 0 {
      assert s.fifo[0..] == s.fifo;
    } else {
      var t, rest := Turn(PopFifo(s), first[0]), first[1..];
      FifoTurn(s);
      var num' := num - |t.1|;
      RoundTurn(s, first, num');
      RoundRobin(t.0, rest, num');
      var k' := Reach(s.clients, rest, num');
      IdsConcat(t.1, PollFifo(t.0, num').1);
      DropFromAppended(s.fifo, t.0.fifo[|s.fifo| - 1..], k', Returning(s.clients, rest[..k']));
    }
  }

  /** The turn of the first queue leaves the rest of the round as it was. */
  lemma RoundTurn(s: Sched, first: seq<nat>, n: nat)
    requires Inv(s) && first <= s.fifo && first != []
    requires Below(first, |s.clients|)
    ensures var t, rest := Turn(PopFifo(s), first[0]), first[1..];
            && Inv(t.0) && rest <= t.0.fifo && |t.0.clients| == |s.clients|
            && Ready(t.0.clients, rest) == Ready(s.clients, rest)
            && var k := Reach(s.clients, rest, n);
               && Reach(t.0.clients, rest, n) == k
               && Ready(t.0.clients, rest[..k]) == Ready(s.clients, rest[..k])
               && Returning(t.0.clients, rest[..k]) == Returning(s.clients, rest[..k])
  {
    hide Inv, Turn, Ready, Returning, Reach, Ids;
    InvInRange(s);
    var t, rest := Turn(PopFifo(s), first[0]), first[1..];
    FifoTurn(s);
    PopFifoKeeps(s);
    TurnKeeps(PopFifo(s), first[0]);
    FirstNotInRest(s, first);
    assert s.fifo[1..][..|rest|] == rest;
    FramedLists(s.clients, t.0.clients, rest, n);
    FramedLists(s.clients, t.0.clients, rest[..Reach(s.clients, rest, n)], 0);
  }

  lemma DropFromAppended(xs: seq<nat>, ys: seq<nat>, k: nat, zs: seq<nat>)
    requires k < |xs|
    ensures (xs[1..] + ys)[k..] + zs == xs[k + 1..] + (ys + zs)
  {
  }

  /** The lists of a round, one queue at a time. */
  lemma RoundStep(clients: seq<Client>, first: seq<nat>, num: nat)
    requires Below(first, |clients|) && num <= |Ready(clients, first)|
    ensures num == 0 ==> Reach(clients, first, num) == 0
                         && Ready(clients, first[..0]) == [] && Returning(clients, first[..0]) == []
    ensures num > 0 ==>
              && first != []
              && var c, rest := clients[first[0]], first[1..];
                 var num' := if c.avail > 0 then num - 1 else num;
                 && num' <= |Ready(clients, rest)|
                 && var k' := Reach(clients, rest, num');
                    && Reach(clients, first, num) == k' + 1
                    && Ready(clients, first[..k' + 1])
                    == (if c.avail > 0 then [first[0]] else []) + Ready(clients, rest[..k'])
                    && Returning(clients, first[..k' + 1])
                    == (if c.avail > c.chunk && c.rate == 0 then [first[0]] else []) + Returning(clients, rest[..k'])
  {
    if num > 0 {
      var num' := if clients[first[0]].avail > 0 then num - 1 else num;
      var k' := Reach(clients, first[1..], num');
      assert first[..k' + 1][1..] == first[1..][..k'];
    }
  }

  lemma FirstNotInRest(s: Sched, first: seq<nat>)
    requires Inv(s) && first <= s.fifo && first != []
    ensures forall i :: 0 <= i < |first| - 1 ==> first[1..][i] != first[0]
  {
    forall i | 0 <= i < |first| - 1 ensures first[1..][i] != first[0] {
      assert s.fifo[0] != s.fifo[i + 1];
    }
  }
}
