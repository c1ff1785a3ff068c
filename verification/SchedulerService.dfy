/**
 Service of the rate-limited queues from below: polls that have shots left over keep
 virtual time in step with real time, a queue is served at its time and not later, and
 a queue that always has bytes gets its full rate.
 */
module SchedulerService {
  import opened Basics
  import opened Scheduler
  import opened SchedulerRuns
  import opened SchedulerFairness

  /** No queue on the timed list may send by virtual time `t`. */
  predicate NoneDue(s: Sched, t: int)
    requires InRange(s)
  {
    forall i :: 0 <= i < |s.timed| ==> s.clients[s.timed[i]].due > t
  }

  /** Queue `q` is on the timed list with bytes to send. */
  predicate Waiting(s: Sched, q: nat) {
    q < |s.clients| && q in s.timed && s.clients[q].avail > 0
  }

  /** What a waiting queue sends, and when. */
  function DueShot(s: Sched, q: nat): Shot
    requires q < |s.clients|
  {
    Shot(q, Min(s.clients[q].avail, s.clients[q].chunk), s.clients[q].due)
  }

  function First(log: seq<Shot>, q: nat): Shot
    requires Serves(log, q)
  {
    if log[0].id == q then log[0] else
      assert Serves(log[1..], q) by {
        var i :| 0 <= i < |log| && log[i].id == q;
        assert log[1..][i - 1].id == q;
      }
      First(log[1..], q)
  }

  /** The first shot of `q`, if there is one, is `shot`. */
  predicate FirstIs(log: seq<Shot>, q: nat, shot: Shot) {
    Serves(log, q) ==> First(log, q) == shot
  }

  lemma {:induction false} FirstOfConcat(a: seq<Shot>, b: seq<Shot>, q: nat)
    ensures Serves(a + b, q) <==> Serves(a, q) || Serves(b, q)
    ensures Serves(a + b, q) ==> First(a + b, q) == if Serves(a, q) then First(a, q) else First(b, q)
  {
    if Serves(a, q) || Serves(b, q) {
      ServesConcat(a, b, q);
    }
    if a == [] {
      assert a + b == b;
    } else {
      assert (a + b)[1..] == a[1..] + b;
      FirstOfConcat(a[1..], b, q);
      ServesStep(a, q);
      ServesStep(a + b, q);
    }
  }

  lemma ServesStep(a: seq<Shot>, q: nat)
    requires a != []
    ensures Serves(a, q) <==> a[0].id == q || Serves(a[1..], q)
  {
    if i :| 0 <= i < |a| && a[i].id == q && i > 0 {
      assert a[1..][i - 1].id == q;
    }
    if Serves(a[1..], q) {
      var i :| 0 <= i < |a[1..]| && a[1..][i].id == q;
      assert a[i + 1].id == q;
    }
  }

  /* ---------- one poll ---------- */

  /** Polling the timed list with shots left over takes virtual time to the limit and
      leaves no queue behind that may send by then. */
  lemma {:induction false} PollTimedSettles(s: Sched, limit: int, num: nat)
    requires Inv(s) && s.now <= limit
    ensures InRange(s)
    ensures var r := PollTimed(s, limit, num);
            |r.1| < num ==> r.0.now == limit && NoneDue(r.0, limit)
    decreases num, |s.timed|
  {
    hide Inv, InvBut, Turn;
    InvInRange(s);
    if !HeadDueBy(s, limit) {
      if s.timed != [] {
        HeadFirst(s);
      }
    } else if num > 0 {
      PopTimedKeeps(s);
      TurnKeeps(PopTimed(s), s.timed[0]);
      var t := Turn(PopTimed(s), s.timed[0]);
      PollTimedSettles(t.0, limit, num - |t.1|);
    }
  }

  lemma HeadFirst(s: Sched)
    requires Inv(s) && s.timed != []
    ensures InRange(s)
    ensures forall i :: 0 <= i < |s.timed| ==> s.clients[s.timed[i]].due >= s.clients[s.timed[0]].due
  {
  }

  /** The turn of another queue leaves a waiting one as it is. */
  lemma TurnOther(s: Sched, id: nat, q: nat)
    requires InvBut(s, id) && q != id && q < |s.clients|
    ensures InRange(s) && Turn(s, id).0.clients[q] == s.clients[q]
    ensures q in Turn(s, id).0.timed <==> q in s.timed
    ensures q in Turn(s, id).0.fifo <==> q in s.fifo
    ensures !Serves(Turn(s, id).1, q)
  {
    hide Cost, Placed, Rank, Activate;
    if s.clients[id].avail > 0 {
      ServedKeepsInvBut(s, id);
      var s' := s.(clients := s.clients[id := Served(s.clients[id], s.now)]);
      if s'.clients[id].avail > 0 {
        ActivateOther(s', id, q);
      }
    }
  }

  lemma ActivateOther(s: Sched, id: nat, q: nat)
    requires InvBut(s, id) && q != id && q < |s.clients|
    ensures Activate(s, id).clients[q] == s.clients[q]
    ensures q in Activate(s, id).timed <==> q in s.timed
    ensures q in Activate(s, id).fifo <==> q in s.fifo
  {
    hide Cost, Placed, Rank;
    if s.clients[id].rate > 0 {
      ActivateTimedLists(s, id);
    }
  }

  /** A waiting queue stays, or is served first exactly when it is due, with all it has
      up to one chunk. */
  lemma {:induction false} PollTimedWaiting(s: Sched, limit: int, num: nat, q: nat)
    requires Inv(s) && s.now <= limit && Waiting(s, q)
    ensures InRange(s)
    ensures var r := PollTimed(s, limit, num);
            && FirstIs(r.1, q, DueShot(s, q))
            && (!Serves(r.1, q) ==> Waiting(r.0, q) && r.0.clients[q] == s.clients[q])
    decreases num, |s.timed|
  {
    hide Inv, InvBut, Turn, Serves, First;
    InvInRange(s);
    if HeadDueBy(s, limit) && num > 0 {
      var s1, id := PopTimed(s), s.timed[0];
      PopTimedKeeps(s);
      TurnKeeps(s1, id);
      var t := Turn(s1, id);
      var r := PollTimed(t.0, limit, num - |t.1|);
      FirstOfConcat(t.1, r.1, q);
      if id == q {
        TurnSelf(s1, q);
      } else {
        TurnOther(s1, id, q);
        assert q in s.timed[1..];
        PollTimedWaiting(t.0, limit, num - |t.1|, q);
      }
    }
    NotServedByNone(q);
  }

  lemma NotServedByNone(q: nat)
    ensures !Serves([], q)
  {
  }

  lemma TurnSelf(s: Sched, q: nat)
    requires InRange(s) && q < |s.clients| && s.clients[q].avail > 0
    ensures Serves(Turn(s, q).1, q)
    ensures First(Turn(s, q).1, q) == Shot(q, Min(s.clients[q].avail, s.clients[q].chunk), s.now)
  {
    assert Turn(s, q).1[0].id == q;
  }

  /** Polling the FIFO does not serve a queue on the timed list, and puts only queues on
      that list which it serves. */
  lemma {:induction false} PollFifoOther(s: Sched, num: nat, q: nat)
    requires Inv(s) && q < |s.clients|
    ensures InRange(s)
    ensures var r := PollFifo(s, num);
            && (q in s.timed ==> !Serves(r.1, q))
            && (!Serves(r.1, q) ==> (q in r.0.timed <==> q in s.timed) && r.0.clients[q] == s.clients[q])
    decreases num, |s.fifo|
  {
    hide Inv, InvBut, Turn, Serves, First;
    InvInRange(s);
    NotServedByNone(q);
    if num > 0 && s.fifo != [] {
      var s1, id := PopFifo(s), s.fifo[0];
      PopFifoKeeps(s);
      TurnKeeps(s1, id);
      var t := Turn(s1, id);
      var r := PollFifo(t.0, num - |t.1|);
      FirstOfConcat(t.1, r.1, q);
      ListsApart(s);
      if id == q {
        if s.clients[q].avail > 0 {
          TurnSelf(s1, q);
        } else {
          assert t == (s1, []) by { TurnIdle(s1, q); }
        }
      } else {
        TurnOther(s1, id, q);
      }
      PollFifoOther(t.0, num - |t.1|, q);
    }
  }

  lemma TurnIdle(s: Sched, q: nat)
    requires InRange(s) && q < |s.clients| && s.clients[q].avail == 0
    ensures Turn(s, q) == (s, [])
  {
  }

  lemma ListsApart(s: Sched)
    requires Inv(s) && s.fifo != []
    ensures s.fifo[0] !in s.timed
  {
  }

  /** A poll with shots left over takes virtual time as far as real time has come, and
      leaves no queue on the timed list that may send by then, but for those the FIFO
      has put there after serving them in this very poll. */
  lemma PollCatchesUp(s: Sched, cur: int, num: nat, q: nat)
    requires Inv(s) && s.wall <= cur
    ensures InRange(s)
    ensures var r := Poll(s, cur, num);
            |r.1| < num ==>
              && r.0.now == s.now + (cur - s.wall) && r.0.wall == cur
              && (q in r.0.timed && r.0.clients[q].due <= r.0.now ==> !s.fifoFirst && Serves(r.1, q))
  {
    hide Inv, PollFifo, PollTimed, Serves, First;
    InvInRange(s);
    var limit := s.now + (cur - s.wall);
    if s.fifoFirst {
      PollFifoKeeps(s, num);
      var r1 := PollFifo(s, num);
      PollTimedSettles(r1.0, limit, num - |r1.1|);
    } else {
      PollTimedSettles(s, limit, num);
      PollTimedAtKeeps(s, cur, num);
      var r1 := PollTimedAt(s, cur, num);
      PollFifoKeeps(r1.0, num - |r1.1|);
      var r2 := PollFifo(r1.0, num - |r1.1|);
      if q in r2.0.timed {
        PollFifoOther(r1.0, num - |r1.1|, q);
        FirstOfConcat(r1.1, r2.1, q);
      }
    }
  }

  /** A poll leaves a waiting queue as it is, or serves it first at the time it is due,
      with all it has up to one chunk; with shots left over, it serves it if it is due by
      then. */
  lemma PollServes(s: Sched, cur: int, num: nat, q: nat)
    requires Inv(s) && s.wall <= cur && Waiting(s, q)
    ensures InRange(s)
    ensures var r := Poll(s, cur, num);
            && FirstIs(r.1, q, DueShot(s, q))
            && (!Serves(r.1, q) ==> Waiting(r.0, q) && r.0.clients[q] == s.clients[q])
            && (|r.1| < num && s.clients[q].due <= s.now + (cur - s.wall) ==> Serves(r.1, q))
  {
    hide Inv, PollFifo, PollTimed, Serves, First;
    InvInRange(s);
    PollCatchesUp(s, cur, num, q);
    var limit := s.now + (cur - s.wall);
    if s.fifoFirst {
      PollFifoKeeps(s, num);
      PollFifoOther(s, num, q);
      var r1 := PollFifo(s, num);
      PollTimedWaiting(r1.0, limit, num - |r1.1|, q);
      FirstOfConcat(r1.1, PollTimedAt(r1.0, cur, num - |r1.1|).1, q);
    } else {
      PollTimedWaiting(s, limit, num, q);
      PollTimedAtKeeps(s, cur, num);
      var r1 := PollTimedAt(s, cur, num);
      var r2 := PollFifo(r1.0, num - |r1.1|);
      PollFifoOther(r1.0, num - |r1.1|, q);
      FirstOfConcat(r1.1, r2.1, q);
    }
  }

  /** The first shot of `q`, if there is one, takes all the queue has up to one chunk; if
      there is none the queue has what it had. */
  predicate TakesChunk(s: Sched, r: (Sched, seq<Shot>), q: nat)
    requires q < |s.clients| && q < |r.0.clients|
  {
    if Serves(r.1, q) then First(r.1, q).bytes == Min(s.clients[q].avail, s.clients[q].chunk)
    else r.0.clients[q] == s.clients[q]
  }

  lemma TurnChunk(s: Sched, id: nat, q: nat)
    requires InvBut(s, id) && q < |s.clients|
    ensures InRange(s) && TakesChunk(s, Turn(s, id), q)
  {
    hide Cost, Placed, Rank, Activate;
    if id != q {
      TurnOther(s, id, q);
    } else if s.clients[q].avail > 0 {
      TurnSelf(s, q);
    } else {
      TurnIdle(s, q);
      NotServedByNone(q);
    }
  }

  lemma {:induction false} PollFifoChunk(s: Sched, num: nat, q: nat)
    requires Inv(s) && q < |s.clients|
    ensures InRange(s) && TakesChunk(s, PollFifo(s, num), q)
    decreases num, |s.fifo|
  {
    hide Inv, InvBut, Turn, Serves, First;
    InvInRange(s);
    NotServedByNone(q);
    if num > 0 && s.fifo != [] {
      PopFifoKeeps(s);
      TurnKeeps(PopFifo(s), s.fifo[0]);
      TurnChunk(PopFifo(s), s.fifo[0], q);
      var t := Turn(PopFifo(s), s.fifo[0]);
      PollFifoChunk(t.0, num - |t.1|, q);
      FirstOfConcat(t.1, PollFifo(t.0, num - |t.1|).1, q);
    }
  }

  lemma {:induction false} PollTimedChunk(s: Sched, limit: int, num: nat, q: nat)
    requires Inv(s) && q < |s.clients|
    ensures InRange(s) && TakesChunk(s, PollTimed(s, limit, num), q)
    decreases num, |s.timed|
  {
    hide Inv, InvBut, Turn, Serves, First;
    InvInRange(s);
    NotServedByNone(q);
    if num > 0 && HeadDueBy(s, limit) {
      PopTimedKeeps(s);
      TurnKeeps(PopTimed(s), s.timed[0]);
      TurnChunk(PopTimed(s), s.timed[0], q);
      var t := Turn(PopTimed(s), s.timed[0]);
      PollTimedChunk(t.0, limit, num - |t.1|, q);
      FirstOfConcat(t.1, PollTimed(t.0, limit, num - |t.1|).1, q);
    }
  }

  /** Whichever list a queue is on, a poll that serves it takes all it has up to one chunk
      at first, and a poll that does not leaves it as it is. */
  lemma PollTakesChunk(s: Sched, cur: int, num: nat, q: nat)
    requires Inv(s) && s.wall <= cur && q < |s.clients|
    ensures InRange(s) && TakesChunk(s, Poll(s, cur, num), q)
  {
    hide Inv, PollTimed, PollFifo, Serves, First;
    InvInRange(s);
    if s.fifoFirst {
      var r1 := PollFifo(s, num);
      PollFifoKeeps(s, num);
      PollFifoChunk(s, num, q);
      PollTimedChunk(r1.0, s.now + (cur - s.wall), num - |r1.1|, q);
      FirstOfConcat(r1.1, PollTimedAt(r1.0, cur, num - |r1.1|).1, q);
    } else {
      var r1 := PollTimedAt(s, cur, num);
      PollTimedAtKeeps(s, cur, num);
      PollTimedChunk(s, s.now + (cur - s.wall), num, q);
      PollFifoChunk(r1.0, num - |r1.1|, q);
      FirstOfConcat(r1.1, PollFifo(r1.0, num - |r1.1|).1, q);
    }
  }

  /* ---------- runs ---------- */

  /** A set leaves a waiting queue waiting for the same time, unless it takes its bytes. */
  lemma SetWaiting(s: Sched, id: nat, req: Request, q: nat)
    requires Inv(s) && Waiting(s, q) && ValidStep(s, SetStep(id, req))
    requires id == q ==> Updated(s.clients[q], req).avail > 0
    ensures InRange(s)
    ensures var s' := Do(s, SetStep(id, req)).0;
            && Waiting(s', q) && s'.clients[q].due == s.clients[q].due && s'.now == s.now && s'.wall == s.wall
            && (id != q ==> s'.clients[q] == s.clients[q])
  {
    hide Cost, Placed, Rank, Activate, Inv;
    InvInRange(s);
    if id < |s.clients| && id != q {
      var c := Updated(s.clients[id], req);
      var s' := s.(clients := s.clients[id := c]);
      if (req.setAvail || req.addAvail) && c.avail > 0 && !Listed(s, id) {
        SetOther(s, id, c);
        ActivateOther(s', id, q);
        ActivateClock(s', id);
      }
    }
  }

  lemma SetOther(s: Sched, id: nat, c: Client)
    requires Inv(s) && id < |s.clients| && !Listed(s, id) && Fits(c)
    ensures InvBut(s.(clients := s.clients[id := c]), id)
  {
  }

  lemma ActivateClock(s: Sched, id: nat)
    requires InRange(s) && id < |s.clients|
    ensures Activate(s, id).now == s.now && Activate(s, id).wall == s.wall
  {
  }

  /** Over every run of sets and polls that leaves it bytes, a waiting queue goes on
      waiting for the same time, or has been served, and first exactly at that time. */
  lemma {:induction false} ServedOnTime(s: Sched, steps: seq<Step>, q: nat)
    requires Inv(s) && ValidRun(s, steps) && Waiting(s, q) && KeepsBytes(s, steps, q)
    ensures var r := Run(s, steps);
            if Serves(r.1, q) then First(r.1, q).at == s.clients[q].due
            else Waiting(r.0, q) && r.0.clients[q].due == s.clients[q].due
    decreases |steps|
  {
    hide Inv, Poll, ApplySet, Serves, First, Updated;
    InvInRange(s);
    NotServedByNone(q);
    if steps != [] {
      var d := Do(s, steps[0]);
      DoKeeps(s, steps[0]);
      FirstOfConcat(d.1, Run(d.0, steps[1..]).1, q);
      match steps[0]
      case SetStep(id, req) =>
        SetWaiting(s, id, req, q);
        ServedOnTime(d.0, steps[1..], q);
      case PollStep(cur, num) =>
        PollServes(s, cur, num, q);
        if !Serves(d.1, q) {
          ServedOnTime(d.0, steps[1..], q);
        }
    }
  }

  /** Every poll of the run has shots left over. */
  predicate AllSpare(s: Sched, steps: seq<Step>)
    requires InRange(s)
    decreases steps
  {
    steps == [] ||
    (&& (steps[0].PollStep? ==> |Do(s, steps[0]).1| < steps[0].num)
     && AllSpare(Do(s, steps[0]).0, steps[1..]))
  }

  lemma SetClock(s: Sched, e: Step)
    requires InRange(s) && e.SetStep?
    ensures Do(s, e).0.now == s.now && Do(s, e).0.wall == s.wall && Do(s, e).1 == []
  {
    if e.id < |s.clients| {
      ApplySetClock(s, e.id, e.req);
    }
  }

  /** While polls have shots left over, virtual time keeps step with real time. */
  lemma {:induction false} ClocksInStep(s: Sched, steps: seq<Step>)
    requires Inv(s) && ValidRun(s, steps) && AllSpare(s, steps)
    ensures Run(s, steps).0.now - s.now == Run(s, steps).0.wall - s.wall
    decreases |steps|
  {
    hide Inv, Poll, ApplySet;
    InvInRange(s);
    if steps != [] {
      DoKeeps(s, steps[0]);
      match steps[0] {
        case SetStep(_, _) => SetClock(s, steps[0]);
        case PollStep(cur, num) => PollCatchesUp(s, cur, num, 0);
      }
      ClocksInStep(Do(s, steps[0]).0, steps[1..]);
    }
  }

  /** After every run that leaves it bytes, a poll with shots left over that brings
      virtual time to the time a queue was waiting for finds it served. */
  lemma ServedOnceDue(s: Sched, steps: seq<Step>, cur: int, num: nat, q: nat)
    requires Inv(s) && ValidRun(s, steps) && Waiting(s, q) && KeepsBytes(s, steps, q)
    requires Run(s, steps).0.wall <= cur
    ensures var r1 := Run(s, steps); var r2 := Poll(r1.0, cur, num);
            |r2.1| < num && s.clients[q].due <= r2.0.now ==> Serves(r1.1 + r2.1, q)
  {
    hide Inv, Poll, Serves, First, Run, KeepsBytes, ValidRun;
    InvInRange(s);
    var r1 := Run(s, steps);
    RunKeeps(s, steps);
    ServedOnTime(s, steps, q);
    FirstOfConcat(r1.1, Poll(r1.0, cur, num).1, q);
    if !Serves(r1.1, q) {
      PollServes(r1.0, cur, num, q);
      PollCatchesUp(r1.0, cur, num, q);
    }
  }

  /** So while polls have shots left over, a queue is served by the first poll after the
      real time that it has to wait in virtual time. */
  lemma ServedInRealTime(s: Sched, steps: seq<Step>, cur: int, num: nat, q: nat)
    requires Inv(s) && ValidRun(s, steps) && Waiting(s, q) && KeepsBytes(s, steps, q) && AllSpare(s, steps)
    requires Run(s, steps).0.wall <= cur && |Poll(Run(s, steps).0, cur, num).1| < num
    requires cur - s.wall >= s.clients[q].due - s.now
    ensures Serves(Run(s, steps).1 + Poll(Run(s, steps).0, cur, num).1, q)
  {
    hide Inv, Poll, Serves, First, Run, KeepsBytes, ValidRun, AllSpare;
    InvInRange(s);
    RunKeeps(s, steps);
    ClocksInStep(s, steps);
    PollCatchesUp(Run(s, steps).0, cur, num, q);
    ServedOnceDue(s, steps, cur, num, q);
  }

  /* ---------- the full rate ---------- */

  /** The shots of `q` are full chunks, at time `d` and then one after the other as far
      apart as a chunk takes. */
  predicate Punctual(log: seq<Shot>, q: nat, rate: nat, chunk: nat, d: int)
    requires rate > 0
  {
    log == [] ||
    (if log[0].id == q
     then log[0] == Shot(q, chunk, d) && Punctual(log[1..], q, rate, chunk, d + Cost(chunk, rate))
     else Punctual(log[1..], q, rate, chunk, d))
  }

  lemma {:induction false} PunctualConcat(a: seq<Shot>, b: seq<Shot>, q: nat, rate: nat, chunk: nat, d: int)
    requires rate > 0 && Punctual(a, q, rate, chunk, d)
    ensures Punctual(a + b, q, rate, chunk, d) <==> Punctual(b, q, rate, chunk, NextBound(a, q, rate, d))
    ensures NextBound(a + b, q, rate, d) == NextBound(b, q, rate, NextBound(a, q, rate, d))
  {
    hide Cost;
    if a == [] {
      assert a + b == b;
    } else {
      assert (a + b)[1..] == a[1..] + b;
      PunctualConcat(a[1..], b, q, rate, chunk, if a[0].id == q then d + Cost(chunk, rate) else d);
    }
  }

  lemma {:induction false} PunctualOther(a: seq<Shot>, q: nat, rate: nat, chunk: nat, d: int)
    requires rate > 0 && !Serves(a, q)
    ensures Punctual(a, q, rate, chunk, d) && NextBound(a, q, rate, d) == d
  {
    hide Cost, Serves;
    if a != [] {
      ServesStep(a, q);
      PunctualOther(a[1..], q, rate, chunk, d);
    }
  }

  /** Queue `q` waits with the given rate and chunk. */
  predicate OnPace(s: Sched, q: nat, rate: nat, chunk: nat, d: int) {
    Limited(s, q, rate, chunk) && Waiting(s, q) && s.clients[q].due == d
  }

  lemma TurnSelfPunctual(s: Sched, q: nat, rate: nat, chunk: nat)
    requires InvBut(s, q) && Limited(s, q, rate, chunk) && s.clients[q].avail > 0
    ensures InRange(s)
    ensures var t := Turn(s, q);
            t.0.clients[q].avail > 0 ==>
              && t.1 == [Shot(q, chunk, s.now)] && OnPace(t.0, q, rate, chunk, s.now + Cost(chunk, rate))
  {
    hide Cost, Placed, Activate;
    ServedKeepsInvBut(s, q);
    LimitedCost(s, q, rate, chunk);
    var c := Served(s.clients[q], s.now);
    var s' := s.(clients := s.clients[q := c]);
    if c.avail > 0 {
      PlacedRange(s.now, c.due, Cost(chunk, rate));
      ActivateTimedLists(s', q);
      ActivatePlaces(s', q);
    }
  }

  lemma ActivatePlaces(s: Sched, q: nat)
    requires InRange(s) && q < |s.clients| && s.clients[q].rate > 0
    ensures var c := s.clients[q];
            && Activate(s, q).clients[q] == c.(due := Placed(s.now, c.due, Cost(c.chunk, c.rate)))
            && Activate(s, q).fifo == s.fifo
  {
  }

  lemma OneShot(shot: Shot, q: nat, rate: nat, chunk: nat, d: int)
    requires rate > 0 && shot == Shot(q, chunk, d)
    ensures Punctual([shot], q, rate, chunk, d) && NextBound([shot], q, rate, d) == d + Cost(chunk, rate)
  {
    hide Cost;
    assert [shot][1..] == [];
  }

  lemma TimedTurnPunctual(s: Sched, q: nat, rate: nat, chunk: nat, d: int)
    requires Inv(s) && s.timed != [] && OnPace(s, q, rate, chunk, d)
    ensures InRange(s)
    ensures var t := Turn(PopTimed(s), s.timed[0]);
            t.0.clients[q].avail > 0 ==>
              Punctual(t.1, q, rate, chunk, d) && OnPace(t.0, q, rate, chunk, NextBound(t.1, q, rate, d))
  {
    hide Inv, InvBut, Turn, Cost, Punctual, NextBound, Serves;
    InvInRange(s);
    var s1, id := PopTimed(s), s.timed[0];
    PopTimedKeeps(s);
    var t := Turn(s1, id);
    if id == q {
      TurnSelfPunctual(s1, q, rate, chunk);
      OneShot(Shot(q, chunk, d), q, rate, chunk, d);
    } else {
      TurnOther(s1, id, q);
      PunctualOther(t.1, q, rate, chunk, d);
      assert q in s.timed[1..];
    }
  }

  /** A queue that does not run out of bytes is served at its time, chunk after chunk. */
  lemma {:induction false} PollTimedPunctual(s: Sched, limit: int, num: nat, q: nat, rate: nat, chunk: nat, d: int)
    requires Inv(s) && s.now <= limit && OnPace(s, q, rate, chunk, d)
    ensures InRange(s)
    ensures var r := PollTimed(s, limit, num);
            r.0.clients[q].avail > 0 ==>
              Punctual(r.1, q, rate, chunk, d) && OnPace(r.0, q, rate, chunk, NextBound(r.1, q, rate, d))
    decreases num, |s.timed|
  {
    hide Inv, InvBut, Turn, Cost, OnPace;
    InvInRange(s);
    OnPaceWaits(s, q, rate, chunk, d);
    if HeadDueBy(s, limit) {
      if num > 0 {
        var s1, id := PopTimed(s), s.timed[0];
        PopTimedKeeps(s);
        TurnKeeps(s1, id);
        var t := Turn(s1, id);
        var r := PollTimed(t.0, limit, num - |t.1|);
        PollTimedConserves(t.0, limit, num - |t.1|, q);
        if r.0.clients[q].avail > 0 {
          TimedTurnPunctual(s, q, rate, chunk, d);
          PollTimedPunctual(t.0, limit, num - |t.1|, q, rate, chunk, NextBound(t.1, q, rate, d));
          PunctualConcat(t.1, r.1, q, rate, chunk, d);
        }
      } else {
        OnPaceClock(s, q, rate, chunk, d, s.clients[s.timed[0]].due);
      }
    } else {
      OnPaceClock(s, q, rate, chunk, d, limit);
    }
  }

  lemma OnPaceWaits(s: Sched, q: nat, rate: nat, chunk: nat, d: int)
    requires OnPace(s, q, rate, chunk, d)
    ensures Limited(s, q, rate, chunk) && Waiting(s, q)
  {
  }

  lemma OnPaceClock(s: Sched, q: nat, rate: nat, chunk: nat, d: int, t: int)
    requires OnPace(s, q, rate, chunk, d)
    ensures OnPace(s.(now := t), q, rate, chunk, d)
  {
  }

  lemma TimedNotFifo(s: Sched, q: nat)
    requires Inv(s) && q in s.timed
    ensures q !in s.fifo
  {
  }

  lemma PollFifoPunctual(s: Sched, num: nat, q: nat, rate: nat, chunk: nat, d: int)
    requires Inv(s) && OnPace(s, q, rate, chunk, d)
    ensures InRange(s)
    ensures var r := PollFifo(s, num);
            Inv(r.0) && OnPace(r.0, q, rate, chunk, d)
            && Punctual(r.1, q, rate, chunk, d) && NextBound(r.1, q, rate, d) == d
  {
    hide Inv, PollFifo, Serves, Punctual, NextBound;
    InvInRange(s);
    PollFifoKeeps(s, num);
    PollFifoOther(s, num, q);
    TimedNotFifo(PollFifo(s, num).0, q);
    PunctualOther(PollFifo(s, num).1, q, rate, chunk, d);
  }

  lemma PollTimedAtPunctual(s: Sched, cur: int, num: nat, q: nat, rate: nat, chunk: nat, d: int)
    requires Inv(s) && s.wall <= cur && OnPace(s, q, rate, chunk, d)
    ensures InRange(s)
    ensures var r := PollTimedAt(s, cur, num);
            && Inv(r.0)
            && (r.0.clients[q].avail > 0 ==>
                  && Punctual(r.1, q, rate, chunk, d) && OnPace(r.0, q, rate, chunk, NextBound(r.1, q, rate, d))
                  && (|r.1| < num ==> NextBound(r.1, q, rate, d) > s.now + (cur - s.wall)))
  {
    hide Inv, PollTimed, Punctual, NextBound;
    InvInRange(s);
    var limit := s.now + (cur - s.wall);
    PollTimedAtKeeps(s, cur, num);
    PollTimedSettles(s, limit, num);
    PollTimedPunctual(s, limit, num, q, rate, chunk, d);
  }

  /** A poll serves a queue that does not run out of bytes chunk after chunk at its
      times, and with shots left over until virtual time is before the next of them. */
  lemma PollPunctual(s: Sched, cur: int, num: nat, q: nat, rate: nat, chunk: nat, d: int)
    requires Inv(s) && s.wall <= cur && OnPace(s, q, rate, chunk, d)
    ensures InRange(s)
    ensures var r := Poll(s, cur, num);
            r.0.clients[q].avail > 0 ==>
              && Punctual(r.1, q, rate, chunk, d) && OnPace(r.0, q, rate, chunk, NextBound(r.1, q, rate, d))
              && (|r.1| < num ==> NextBound(r.1, q, rate, d) > s.now + (cur - s.wall))
  {
    hide Inv, PollTimedAt, PollFifo, Punctual, NextBound;
    InvInRange(s);
    if s.fifoFirst {
      var r1 := PollFifo(s, num);
      PollFifoKeeps(s, num);
      PollFifoPunctual(s, num, q, rate, chunk, d);
      PollTimedAtPunctual(r1.0, cur, num - |r1.1|, q, rate, chunk, d);
      PunctualConcat(r1.1, PollTimedAt(r1.0, cur, num - |r1.1|).1, q, rate, chunk, d);
    } else {
      var r1 := PollTimedAt(s, cur, num);
      PollTimedAtPunctual(s, cur, num, q, rate, chunk, d);
      PollFifoConserves(r1.0, num - |r1.1|, q);
      if r1.0.clients[q].avail > 0 {
        var d' := NextBound(r1.1, q, rate, d);
        PollFifoPunctual(r1.0, num - |r1.1|, q, rate, chunk, d');
        PunctualConcat(r1.1, PollFifo(r1.0, num - |r1.1|).1, q, rate, chunk, d);
      }
    }
  }

  /** Queue `q` has bytes to send after every step. */
  predicate Busy(s: Sched, steps: seq<Step>, q: nat)
    requires InRange(s) && q < |s.clients|
    decreases steps
  {
    s.clients[q].avail > 0 && (steps == [] || Busy(Do(s, steps[0]).0, steps[1..], q))
  }

  lemma SetOnPace(s: Sched, e: Step, q: nat, rate: nat, chunk: nat, d: int)
    requires Inv(s) && e.SetStep? && ValidStep(s, e) && OnPace(s, q, rate, chunk, d) && KeepsRate(e, q, rate, chunk)
    requires InRange(s) && Do(s, e).0.clients[q].avail > 0
    ensures OnPace(Do(s, e).0, q, rate, chunk, d)
  {
    hide Inv, Activate;
    if e.id == q {
      assert Listed(s, q);
    } else {
      SetWaiting(s, e.id, e.req, q);
    }
    DoKeeps(s, e);
    TimedNotFifo(Do(s, e).0, q);
  }

  lemma {:induction false} RunPunctual(s: Sched, steps: seq<Step>, q: nat, rate: nat, chunk: nat, d: int)
    requires Inv(s) && ValidRun(s, steps) && OnPace(s, q, rate, chunk, d) && Busy(s, steps, q)
    requires forall k :: 0 <= k < |steps| ==> KeepsRate(steps[k], q, rate, chunk)
    ensures var r := Run(s, steps);
            Punctual(r.1, q, rate, chunk, d) && OnPace(r.0, q, rate, chunk, NextBound(r.1, q, rate, d))
    decreases |steps|
  {
    hide Inv, Poll, ApplySet, Punctual, NextBound, OnPace, KeepsRate;
    InvInRange(s);
    OnPaceWaits(s, q, rate, chunk, d);
    PunctualOther([], q, rate, chunk, d);
    if steps != [] {
      var e := steps[0];
      var r := Do(s, e);
      DoKeeps(s, e);
      match e {
        case SetStep(_, _) =>
          SetOnPace(s, e, q, rate, chunk, d);
        case PollStep(cur, num) =>
          PollPunctual(s, cur, num, q, rate, chunk, d);
      }
      RunPunctual(r.0, steps[1..], q, rate, chunk, NextBound(r.1, q, rate, d));
      PunctualConcat(r.1, Run(r.0, steps[1..]).1, q, rate, chunk, d);
    }
  }

  lemma {:induction false} PunctualBytes(log: seq<Shot>, q: nat, rate: nat, chunk: nat, d: int)
    requires rate > 0 && Punctual(log, q, rate, chunk, d)
    ensures rate * (NextBound(log, q, rate, d) - d) <= 8000000 * BytesOf(log, q)
  {
    hide Cost;
    if log != [] {
      if log[0].id == q {
        var d' := d + Cost(chunk, rate);
        PunctualBytes(log[1..], q, rate, chunk, d');
        CostRounding(chunk, rate);
        assert rate * (NextBound(log, q, rate, d) - d)
            == rate * (NextBound(log[1..], q, rate, d') - d') + rate * Cost(chunk, rate);
      } else {
        PunctualBytes(log[1..], q, rate, chunk, d);
      }
    }
  }

  lemma LimitedListed(s: Sched, q: nat, rate: nat, chunk: nat)
    requires Inv(s) && Limited(s, q, rate, chunk) && s.clients[q].avail > 0
    ensures OnPace(s, q, rate, chunk, s.clients[q].due)
  {
    assert Listed(s, q);
  }

  /** Full rate: in every run in which a limited queue always has bytes and its rate and
      chunk are left alone, its shots are exactly full chunks, the first at the time the
      queue waits for and each as much later as a chunk takes at its rate, whatever else
      is scheduled. */
  lemma FullRate(s: Sched, steps: seq<Step>, q: nat, rate: nat, chunk: nat)
    requires Inv(s) && ValidRun(s, steps) && Limited(s, q, rate, chunk) && Busy(s, steps, q)
    requires forall k :: 0 <= k < |steps| ==> KeepsRate(steps[k], q, rate, chunk)
    ensures Punctual(Run(s, steps).1, q, rate, chunk, s.clients[q].due)
  {
    hide Inv, Run, ValidRun, KeepsRate, Punctual, NextBound, OnPace;
    LimitedListed(s, q, rate, chunk);
    RunPunctual(s, steps, q, rate, chunk, s.clients[q].due);
  }

  /** Guaranteed rate: if in addition every poll has shots left over, the queue sends at
      least its rate times the real time passed since it was first due. */
  lemma GuaranteedRate(s: Sched, steps: seq<Step>, cur: int, num: nat, q: nat, rate: nat, chunk: nat)
    requires Inv(s) && ValidRun(s, steps) && Limited(s, q, rate, chunk) && Busy(s, steps, q) && AllSpare(s, steps)
    requires forall k :: 0 <= k < |steps| ==> KeepsRate(steps[k], q, rate, chunk)
    requires var s' := Run(s, steps).0; var r := Poll(s', cur, num);
             s'.wall <= cur && |r.1| < num && r.0.clients[q].avail > 0
    ensures var log := Run(s, steps).1 + Poll(Run(s, steps).0, cur, num).1;
            8000000 * BytesOf(log, q) >= rate * ((cur - s.wall) - (s.clients[q].due - s.now))
  {
    hide Inv, Run, Poll, ValidRun, KeepsRate, Punctual, NextBound, OnPace, BytesOf, AllSpare;
    InvInRange(s);
    var d := s.clients[q].due;
    LimitedListed(s, q, rate, chunk);
    RunKeeps(s, steps);
    ClocksInStep(s, steps);
    RunPunctual(s, steps, q, rate, chunk, d);
    var r1 := Run(s, steps);
    var r2 := Poll(r1.0, cur, num);
    var d1 := NextBound(r1.1, q, rate, d);
    PollPunctual(r1.0, cur, num, q, rate, chunk, d1);
    PunctualConcat(r1.1, r2.1, q, rate, chunk, d);
    PunctualBytes(r1.1 + r2.1, q, rate, chunk, d);
    RateLimitStep(rate, cur - s.wall - (d - s.now), NextBound(r1.1 + r2.1, q, rate, d) - d, 0);
  }

  /* ---------- from the start ---------- */

  function Fresh(n: nat, cur: int): Sched {
    Sched(0, cur, false, seq(n, _ => Client(0, 0, 0, 0)), [], [])
  }

  /** A queue that gets a rate and bytes while it is on no list is paced from then on:
      it waits with exactly the rate and chunk asked for. */
  lemma SetStartsPacing(s: Sched, id: nat, r: Request)
    requires Inv(s) && id < |s.clients| && Fits(Updated(s.clients[id], r)) && !Listed(s, id)
    requires r.setRate && r.rate > 0 && r.setChunk && r.setAvail && r.avail > 0
    ensures InRange(s)
    ensures var s' := ApplySet(s, id, r);
            && Inv(s') && OnPace(s', id, r.rate, r.chunk, s'.clients[id].due) && s'.clients[id].avail == r.avail
            && s.now <= s'.clients[id].due <= s.now + Cost(r.chunk, r.rate)
  {
    hide Inv, ApplySet, Cost, Updated;
    InvInRange(s);
    SetExactly(s, id, r);
    SetLists(s, id, r);
    ApplySetKeeps(s, id, r);
    TimedNotFifo(ApplySet(s, id, r), id);
  }

  /** In particular in a new manager. */
  lemma FreshQueuePaced(n: nat, cur: int, id: nat, rate: nat, chunk: nat, avail: nat)
    requires id < n && 0 < rate < TS_MOD && chunk < U16 && 0 < avail < TS_MOD && Cost(chunk, rate) < HALF
    ensures Inv(Fresh(n, cur))
    ensures var s' := ApplySet(Fresh(n, cur), id, Request(true, rate, true, chunk, true, false, avail));
            && Inv(s') && s'.timed == [id] && s'.fifo == [] && Limited(s', id, rate, chunk)
            && s'.clients[id] == Client(0, rate, avail, chunk)
  {
    hide Cost;
    var s, r := Fresh(n, cur), Request(true, rate, true, chunk, true, false, avail);
    SetStartsPacing(s, id, r);
  }
}
