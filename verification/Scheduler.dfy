/**
 The rate-limiting packet scheduler over unbounded time: what the queue manager
 computes once its linked index lists and its 32-bit stamps are abstracted away.
 Rate-limited queues wait in `timed`, ordered by the virtual time at which they
 may send; queues without a limit wait in `fifo`.
 */
module Scheduler {
  import opened Basics
  import opened WrapTime

  const TS_MOD: nat := 0x1_0000_0000
  const HALF: nat := 0x8000_0000

  /** A queue: when it may send next, its rate in kbps (0: no limit), the bytes
      it has to send and the most it may send at once. */
  datatype Client = Client(due: int, rate: nat, avail: nat, chunk: nat)

  /** One queue served: which one, how many bytes, at which virtual time. */
  datatype Shot = Shot(id: nat, bytes: nat, at: int)

  datatype Sched = Sched(now: int, wall: int, fifoFirst: bool,
                         clients: seq<Client>, timed: seq<nat>, fifo: seq<nat>)

  /** What a call to change a queue asks for, one flag for each part. */
  datatype Request = Request(setRate: bool, rate: nat, setChunk: bool, chunk: nat,
                             setAvail: bool, addAvail: bool, avail: nat)

  /* ---------- operations ---------- */

  /** Nanoseconds that `bytes` take at `rate` kbps, rounded down. */
  function Cost(bytes: nat, rate: nat): nat
    requires rate > 0
  {
    bytes * 8 * 1000000 / rate
  }

  function Stamp(t: int): (s: nat)
    ensures s < TS_MOD
  {
    t % TS_MOD
  }

  function Rel(cur: int, t: int): int {
    RelTime(TS_MOD, Stamp(cur), Stamp(t))
  }

  /** The send time given to a queue that enters the timed list: its own one,
      brought into the range from now to one maximum chunk from now. */
  function Placed(now: int, due: int, cost: nat): int {
    var r, rMax := Rel(now, due), Rel(now, now + cost);
    if r <= 0 then now else if r <= rMax then now + r else now + rMax
  }

  predicate Below(xs: seq<nat>, n: nat) {
    forall i :: 0 <= i < |xs| ==> xs[i] < n
  }

  /** How many queues at the front of `order` are due no later than `d`. */
  function Rank(clients: seq<Client>, order: seq<nat>, d: int): (p: nat)
    requires Below(order, |clients|)
    ensures p <= |order|
    ensures forall i :: 0 <= i < p ==> clients[order[i]].due <= d
    ensures p < |order| ==> clients[order[p]].due > d
  {
    if order == [] || clients[order[0]].due > d then 0
    else 1 + Rank(clients, order[1..], d)
  }

  lemma {:induction false} RankFrame(c1: seq<Client>, c2: seq<Client>, order: seq<nat>, d: int)
    requires |c1| == |c2| && Below(order, |c1|)
    requires forall i :: 0 <= i < |order| ==> c1[order[i]].due == c2[order[i]].due
    ensures Rank(c1, order, d) == Rank(c2, order, d)
  {
    if order != [] {
      assert c1[order[0]].due == c2[order[0]].due;
      assert forall i :: 0 <= i < |order[1..]| ==> order[1..][i] == order[i + 1];
      RankFrame(c1, c2, order[1..], d);
    }
  }

  predicate Listed(s: Sched, id: nat) {
    id in s.timed || id in s.fifo
  }

  predicate InRange(s: Sched) {
    Below(s.timed, |s.clients|) && Below(s.fifo, |s.clients|)
  }

  /** Puts a queue that is on no list on the list its rate calls for. */
  function Activate(s: Sched, id: nat): Sched
    requires InRange(s) && id < |s.clients|
  {
    var c := s.clients[id];
    if c.rate == 0 then
      s.(fifo := s.fifo + [id])
    else
      var d := Placed(s.now, c.due, Cost(c.chunk, c.rate));
      var p := Rank(s.clients, s.timed, d);
      s.(clients := s.clients[id := c.(due := d)],
         timed := s.timed[..p] + [id] + s.timed[p..])
  }

  function Updated(c: Client, r: Request): Client {
    Client(c.due,
           if r.setRate then r.rate else c.rate,
           if r.setAvail then r.avail
           else if r.addAvail then (c.avail + r.avail) % TS_MOD
           else c.avail,
           if r.setChunk then r.chunk else c.chunk)
  }

  function ApplySet(s: Sched, id: nat, r: Request): Sched
    requires InRange(s) && id < |s.clients|
  {
    var c := Updated(s.clients[id], r);
    var s' := s.(clients := s.clients[id := c]);
    if (r.setAvail || r.addAvail) && c.avail > 0 && !Listed(s, id)
    then Activate(s', id) else s'
  }

  /** What a queue is left with once it has sent at time `now`. */
  function Served(c: Client, now: int): Client {
    var bytes := Min(c.avail, c.chunk);
    c.(avail := c.avail - bytes,
       due := if c.rate > 0 then now + Cost(bytes, c.rate) else c.due)
  }

  function ShotOf(s: Sched, id: nat): Shot
    requires id < |s.clients|
  {
    Shot(id, Min(s.clients[id].avail, s.clients[id].chunk), s.now)
  }

  /** Serves a queue that has just left its list. */
  function Fire(s: Sched, id: nat): Sched
    requires InRange(s) && id < |s.clients|
  {
    var c := Served(s.clients[id], s.now);
    var s' := s.(clients := s.clients[id := c]);
    if c.avail > 0 then Activate(s', id) else s'
  }

  function PopTimed(s: Sched): Sched
    requires InRange(s) && s.timed != []
  {
    s.(timed := s.timed[1..], now := s.clients[s.timed[0]].due)
  }

  function PopFifo(s: Sched): Sched
    requires s.fifo != []
  {
    s.(fifo := s.fifo[1..])
  }

  predicate HeadDueBy(s: Sched, limit: int)
    requires InRange(s)
  {
    s.timed != [] && s.clients[s.timed[0]].due <= limit
  }

  /** The turn of a queue that has just left its list. */
  function Turn(s: Sched, id: nat): (r: (Sched, seq<Shot>))
    requires InRange(s) && id < |s.clients|
    ensures InRange(r.0) && |r.0.clients| == |s.clients|
    ensures |r.1| <= 1 && (r.1 == [] ==> r.0 == s)
  {
    if s.clients[id].avail > 0 then (Fire(s, id), [ShotOf(s, id)]) else (s, [])
  }

  /** Serves up to `num` queues due by `limit` and moves virtual time on. */
  function PollTimed(s: Sched, limit: int, num: nat): (r: (Sched, seq<Shot>))
    requires InRange(s)
    ensures InRange(r.0) && |r.0.clients| == |s.clients| && |r.1| <= num
    decreases num, |s.timed|
  {
    if !HeadDueBy(s, limit) then
      (s.(now := limit), [])
    else if num == 0 then
      (s.(now := s.clients[s.timed[0]].due), [])
    else
      var t := Turn(PopTimed(s), s.timed[0]);
      var r := PollTimed(t.0, limit, num - |t.1|);
      (r.0, t.1 + r.1)
  }

  /** Serves up to `num` queues without a limit, in turn. */
  function PollFifo(s: Sched, num: nat): (r: (Sched, seq<Shot>))
    requires InRange(s)
    ensures InRange(r.0) && |r.0.clients| == |s.clients| && |r.1| <= num
    decreases num, |s.fifo|
  {
    if num == 0 || s.fifo == [] then
      (s, [])
    else
      var t := Turn(PopFifo(s), s.fifo[0]);
      var r := PollFifo(t.0, num - |t.1|);
      (r.0, t.1 + r.1)
  }

  /** Timed queues up to the virtual time reachable at real time `cur`. */
  function PollTimedAt(s: Sched, cur: int, num: nat): (r: (Sched, seq<Shot>))
    requires InRange(s)
    ensures InRange(r.0) && |r.0.clients| == |s.clients| && |r.1| <= num
  {
    var r := PollTimed(s, s.now + (cur - s.wall), num);
    (r.0.(wall := cur), r.1)
  }

  /** One poll: both lists, taking turns at going first. */
  function Poll(s: Sched, cur: int, num: nat): (r: (Sched, seq<Shot>))
    requires InRange(s)
    ensures InRange(r.0) && |r.0.clients| == |s.clients| && |r.1| <= num
  {
    if s.fifoFirst then
      var r1 := PollFifo(s, num);
      var r2 := PollTimedAt(r1.0, cur, num - |r1.1|);
      (r2.0.(fifoFirst := false), r1.1 + r2.1)
    else
      var r1 := PollTimedAt(s, cur, num);
      var r2 := PollFifo(r1.0, num - |r1.1|);
      (r2.0.(fifoFirst := true), r1.1 + r2.1)
  }

  /* ---------- the invariant ---------- */

  /** A maximum chunk at the queue's rate spans less than half the clock. */
  predicate Paceable(c: Client) {
    c.rate > 0 ==> Cost(c.chunk, c.rate) < HALF
  }

  predicate Fits(c: Client) {
    c.avail < TS_MOD && c.rate < TS_MOD && c.chunk < 0x1_0000 && Paceable(c)
  }

  predicate Sorted(clients: seq<Client>, order: seq<nat>)
    requires Below(order, |clients|)
  {
    forall i, j :: 0 <= i < j < |order| ==> clients[order[i]].due <= clients[order[j]].due
  }

  predicate Upcoming(c: Client, now: int) {
    now <= c.due < now + HALF
  }

  predicate ListsOk(s: Sched) {
    && InRange(s)
    && NoDup(s.timed) && NoDup(s.fifo)
    && (forall i :: 0 <= i < |s.timed| ==> s.timed[i] !in s.fifo)
    && Sorted(s.clients, s.timed)
    && (forall i :: 0 <= i < |s.timed| ==> Upcoming(s.clients[s.timed[i]], s.now))
    && (forall i :: 0 <= i < |s.clients| ==> Fits(s.clients[i]))
  }

  /** Every queue with bytes to send is on a list. */
  predicate Inv(s: Sched) {
    ListsOk(s) && forall id :: 0 <= id < |s.clients| && s.clients[id].avail > 0 ==> Listed(s, id)
  }

  /** Inv, with `id` allowed to be on no list. */
  predicate InvBut(s: Sched, id: nat) {
    && ListsOk(s) && id < |s.clients| && !Listed(s, id)
    && forall x :: 0 <= x < |s.clients| && s.clients[x].avail > 0 && x != id ==> Listed(s, x)
  }

  lemma MultipleAtLeast(k: int, d: nat)
    ensures k >= 1 ==> k * d >= d
  {
    if k >= 1 {
      assert k * d == d + (k - 1) * d;
    }
  }

  lemma DivMonotone(x: nat, y: nat, d: nat)
    requires d > 0 && x <= y
    ensures x / d <= y / d
  {
    var k := x / d - y / d;
    assert x == x / d * d + x % d && y == y / d * d + y % d;
    assert k * d == x / d * d - y / d * d;
    MultipleAtLeast(k, d);
  }

  lemma CostMonotone(a: nat, b: nat, rate: nat)
    requires rate > 0 && a <= b
    ensures Cost(a, rate) <= Cost(b, rate)
  {
    DivMonotone(a * 8 * 1000000, b * 8 * 1000000, rate);
  }

  /** Where a queue is placed when the stamps can tell its time. */
  lemma PlacedRange(now: int, due: int, cost: nat)
    requires cost < HALF
    ensures now <= Placed(now, due, cost) <= now + cost
    ensures -(HALF as int) < due - now < HALF ==>
              Placed(now, due, cost) == if due <= now then now else if due <= now + cost then due else now + cost
  {
    RelTimeNear(TS_MOD, now, now + cost);
    if -(HALF as int) < due - now < HALF {
      RelTimeNear(TS_MOD, now, due);
    }
  }

  lemma InsertSorted(clients: seq<Client>, order: seq<nat>, id: nat, d: int)
    requires Below(order, |clients|)
    requires id < |clients| && id !in order
    requires Sorted(clients, order)
    ensures var p := Rank(clients, order, d);
            var order' := order[..p] + [id] + order[p..];
            && Below(order', |clients|)
            && Sorted(clients[id := clients[id].(due := d)], order')
  {
    hide Rank;
    var p := Rank(clients, order, d);
    var order' := order[..p] + [id] + order[p..];
    assert forall i :: 0 <= i < |order'| ==>
      order'[i] == if i < p then order[i] else if i == p then id else order[i - 1];
    var clients' := clients[id := clients[id].(due := d)];
    forall i, j | 0 <= i < j < |order'| ensures clients'[order'[i]].due <= clients'[order'[j]].due {
      if j > p {
        assert p == j - 1 || clients[order[p]].due <= clients[order[j - 1]].due;
      }
    }
  }

  lemma InsertNoDup(xs: seq<nat>, p: nat, id: nat)
    requires p <= |xs| && NoDup(xs) && id !in xs
    ensures NoDup(xs[..p] + [id] + xs[p..])
    ensures forall x :: x in xs[..p] + [id] + xs[p..] <==> x == id || x in xs
  {
    var ys := xs[..p] + [id] + xs[p..];
    forall x | x == id || x in xs ensures x in ys {
      if x == id {
        assert ys[p] == id;
      } else {
        var i :| 0 <= i < |xs| && xs[i] == x;
        assert ys[if i < p then i else i + 1] == x;
      }
    }
  }

  lemma ActivateFifoKeeps(s: Sched, id: nat)
    requires InvBut(s, id) && s.clients[id].rate == 0
    ensures Inv(Activate(s, id))
    ensures forall x :: Listed(Activate(s, id), x) <==> x == id || Listed(s, x)
  {
  }

  lemma ActivateTimedLists(s: Sched, id: nat)
    requires InvBut(s, id) && s.clients[id].rate > 0
    ensures ListsOk(Activate(s, id))
    ensures forall x :: x in Activate(s, id).timed <==> x == id || x in s.timed
  {
    var c := s.clients[id];
    assert Fits(c);
    var d := Placed(s.now, c.due, Cost(c.chunk, c.rate));
    var p := Rank(s.clients, s.timed, d);
    PlacedRange(s.now, c.due, Cost(c.chunk, c.rate));
    InsertSorted(s.clients, s.timed, id, d);
    InsertNoDup(s.timed, p, id);
    var s' := Activate(s, id);
    forall i | 0 <= i < |s'.timed|
      ensures s'.timed[i] !in s'.fifo && Upcoming(s'.clients[s'.timed[i]], s'.now)
    {
      assert s'.timed[i] in s'.timed;
      if s'.timed[i] != id {
        var j :| 0 <= j < |s.timed| && s.timed[j] == s'.timed[i];
      }
    }
  }

  lemma ActivateKeeps(s: Sched, id: nat)
    requires InvBut(s, id)
    ensures Inv(Activate(s, id))
    ensures forall x :: Listed(Activate(s, id), x) <==> x == id || Listed(s, x)
  {
    if s.clients[id].rate == 0 {
      ActivateFifoKeeps(s, id);
    } else {
      ActivateTimedLists(s, id);
      var s' := Activate(s, id);
      forall x | 0 <= x < |s'.clients| && s'.clients[x].avail > 0 ensures Listed(s', x) {
        assert x == id || Listed(s, x);
      }
    }
  }

  /** Changing a queue keeps the invariant. */
  lemma ApplySetKeeps(s: Sched, id: nat, r: Request)
    requires Inv(s) && id < |s.clients|
    requires Fits(Updated(s.clients[id], r))
    ensures Inv(ApplySet(s, id, r))
  {
    var c := Updated(s.clients[id], r);
    var s' := s.(clients := s.clients[id := c]);
    if (r.setAvail || r.addAvail) && c.avail > 0 && !Listed(s, id) {
      ActivateKeeps(s', id);
    } else {
      assert c.avail > 0 ==> Listed(s, id);
      forall x | 0 <= x < |s'.clients| && s'.clients[x].avail > 0 ensures Listed(s', x) {
        assert Listed(s, x);
      }
    }
  }

  /** What a change asks for is what the queue has afterwards: rate, chunk and bytes as
      requested where the flag is set, an addition modulo 2^32, everything else as
      before. The other queues and the clocks are left alone. */
  lemma SetExactly(s: Sched, id: nat, r: Request)
    requires InRange(s) && id < |s.clients|
    ensures var (c, s') := (s.clients[id], ApplySet(s, id, r));
            && |s'.clients| == |s.clients|
            && s'.clients[id].rate == (if r.setRate then r.rate else c.rate)
            && s'.clients[id].chunk == (if r.setChunk then r.chunk else c.chunk)
            && (r.setAvail ==> s'.clients[id].avail == r.avail)
            && (!r.setAvail && r.addAvail ==> s'.clients[id].avail == (c.avail + r.avail) % TS_MOD)
            && (!r.setAvail && !r.addAvail ==> s'.clients[id].avail == c.avail)
            && (forall x :: 0 <= x < |s.clients| && x != id ==> s'.clients[x] == s.clients[x])
            && s'.now == s.now && s'.wall == s.wall && s'.fifoFirst == s.fifoFirst
  {
    hide Placed, Cost, Rank;
  }

  /** A change lists the queue if it brings bytes and the queue is not listed yet: at the
      end of the FIFO without a limit, else on the timed list, between now and one chunk
      from now. Otherwise the lists stay, and so does the time the queue waits for. */
  lemma SetLists(s: Sched, id: nat, r: Request)
    requires Inv(s) && id < |s.clients| && Fits(Updated(s.clients[id], r))
    ensures InRange(s)
    ensures var (c, s') := (ApplySet(s, id, r).clients[id], ApplySet(s, id, r));
            if (r.setAvail || r.addAvail) && c.avail > 0 && !Listed(s, id) then
              if c.rate == 0 then s'.fifo == s.fifo + [id] && s'.timed == s.timed
              else s'.fifo == s.fifo && (forall x :: x in s'.timed <==> x == id || x in s.timed)
                   && s.now <= c.due <= s.now + Cost(c.chunk, c.rate)
            else s'.fifo == s.fifo && s'.timed == s.timed && c.due == s.clients[id].due
  {
    hide Placed, Cost, Rank;
    var c := Updated(s.clients[id], r);
    var s' := s.(clients := s.clients[id := c]);
    if (r.setAvail || r.addAvail) && c.avail > 0 && !Listed(s, id) && c.rate > 0 {
      PlacedRange(s.now, c.due, Cost(c.chunk, c.rate));
      assert InvBut(s', id);
      ActivateTimedLists(s', id);
    }
  }

  lemma ServedKeepsInvBut(s: Sched, id: nat)
    requires InvBut(s, id)
    ensures InvBut(s.(clients := s.clients[id := Served(s.clients[id], s.now)]), id)
  {
    assert Fits(s.clients[id]);
  }

  lemma FireKeeps(s: Sched, id: nat)
    requires InvBut(s, id)
    ensures Inv(Fire(s, id)) && Fire(s, id).now == s.now
    ensures forall x :: Listed(Fire(s, id), x) ==> x == id || Listed(s, x)
  {
    var c := Served(s.clients[id], s.now);
    var s' := s.(clients := s.clients[id := c]);
    assert Fits(s.clients[id]) && Fits(c);
    assert InvBut(s', id);
    if c.avail > 0 {
      ActivateKeeps(s', id);
    }
  }

  lemma TurnKeeps(s: Sched, id: nat)
    requires InvBut(s, id)
    ensures Inv(Turn(s, id).0) && Turn(s, id).0.now == s.now
    ensures Turn(s, id).0.wall == s.wall && Turn(s, id).0.fifoFirst == s.fifoFirst
  {
    if s.clients[id].avail > 0 {
      FireKeeps(s, id);
    }
  }

  lemma PopTimedKeeps(s: Sched)
    requires Inv(s) && s.timed != []
    ensures InvBut(PopTimed(s), s.timed[0])
    ensures PopTimed(s).now >= s.now
  {
    var s' := PopTimed(s);
    var id := s.timed[0];
    assert Upcoming(s.clients[id], s.now);
    forall i | 0 <= i < |s'.timed|
      ensures s'.timed[i] != id && s'.timed[i] !in s'.fifo && Upcoming(s'.clients[s'.timed[i]], s'.now)
    {
      assert s'.timed[i] == s.timed[i + 1];
      assert Upcoming(s.clients[s.timed[i + 1]], s.now);
    }
    forall x | 0 <= x < |s'.clients| && s'.clients[x].avail > 0 && x != id ensures Listed(s', x) {
      assert Listed(s, x);
      if x in s.timed {
        var j :| 0 <= j < |s.timed| && s.timed[j] == x;
        assert s'.timed[j - 1] == x;
      }
    }
  }

  lemma PopFifoKeeps(s: Sched)
    requires Inv(s) && s.fifo != []
    ensures InvBut(PopFifo(s), s.fifo[0])
  {
    var s' := PopFifo(s);
    var id := s.fifo[0];
    forall x | 0 <= x < |s'.clients| && s'.clients[x].avail > 0 && x != id ensures Listed(s', x) {
      assert Listed(s, x);
      if x in s.fifo {
        var j :| 0 <= j < |s.fifo| && s.fifo[j] == x;
        assert s'.fifo[j - 1] == x;
      }
    }
  }

  /** Polling the timed list keeps the invariant; virtual time goes forward and
      never past `limit`. */
  lemma {:induction false} PollTimedKeeps(s: Sched, limit: int, num: nat)
    requires Inv(s) && s.now <= limit
    ensures Inv(PollTimed(s, limit, num).0)
    ensures s.now <= PollTimed(s, limit, num).0.now <= limit
    ensures PollTimed(s, limit, num).0.wall == s.wall && PollTimed(s, limit, num).0.fifoFirst == s.fifoFirst
    decreases num, |s.timed|
  {
    hide Fire, Activate, Inv, InvBut, ListsOk;
    InvInRange(s);
    if !HeadDueBy(s, limit) {
      ClockKeeps(s, limit);
    } else {
      PopTimedKeeps(s);
      if num == 0 {
        ClockKeeps(s, s.clients[s.timed[0]].due);
      } else {
        var t := Turn(PopTimed(s), s.timed[0]);
        TurnKeeps(PopTimed(s), s.timed[0]);
        PollTimedKeeps(t.0, limit, num - |t.1|);
      }
    }
  }

  lemma {:induction false} PollFifoKeeps(s: Sched, num: nat)
    requires Inv(s)
    ensures Inv(PollFifo(s, num).0)
    ensures PollFifo(s, num).0.now == s.now && PollFifo(s, num).0.wall == s.wall
    ensures PollFifo(s, num).0.fifoFirst == s.fifoFirst
    decreases num, |s.fifo|
  {
    hide Fire, Activate, Inv, InvBut, ListsOk;
    InvInRange(s);
    if num > 0 && s.fifo != [] {
      var t := Turn(PopFifo(s), s.fifo[0]);
      PopFifoKeeps(s);
      TurnKeeps(PopFifo(s), s.fifo[0]);
      PollFifoKeeps(t.0, num - |t.1|);
    }
  }

  lemma ClockKeeps(s: Sched, t: int)
    requires Inv(s) && s.now <= t
    requires s.timed == [] || t <= s.clients[s.timed[0]].due
    ensures Inv(s.(now := t))
  {
    forall i | 0 <= i < |s.timed| ensures Upcoming(s.clients[s.timed[i]], t) {
      assert Upcoming(s.clients[s.timed[i]], s.now);
      assert i > 0 ==> s.clients[s.timed[0]].due <= s.clients[s.timed[i]].due;
    }
    forall x | 0 <= x < |s.clients| && s.clients[x].avail > 0 ensures Listed(s.(now := t), x) {
      assert Listed(s, x);
    }
  }

  /** A poll keeps the invariant, and virtual time moves forward by at most the
      real time that has passed. */
  lemma PollKeeps(s: Sched, cur: int, num: nat)
    requires Inv(s) && s.wall <= cur
    ensures Inv(Poll(s, cur, num).0)
    ensures Poll(s, cur, num).0.wall == cur
    ensures s.now <= Poll(s, cur, num).0.now <= s.now + (cur - s.wall)
  {
    hide Inv, PollFifo, PollTimedAt;
    InvInRange(s);
    if s.fifoFirst {
      PollFifoKeeps(s, num);
      var r := PollFifo(s, num);
      PollTimedAtKeeps(r.0, cur, num - |r.1|);
      FlagKeeps(PollTimedAt(r.0, cur, num - |r.1|).0, cur, false);
    } else {
      PollTimedAtKeeps(s, cur, num);
      var r := PollTimedAt(s, cur, num);
      PollFifoKeeps(r.0, num - |r.1|);
      FlagKeeps(PollFifo(r.0, num - |r.1|).0, cur, true);
    }
  }

  lemma InvInRange(s: Sched)
    requires Inv(s)
    ensures InRange(s)
  {
  }

  lemma PollTimedAtKeeps(s: Sched, cur: int, num: nat)
    requires Inv(s) && s.wall <= cur
    ensures Inv(PollTimedAt(s, cur, num).0)
    ensures PollTimedAt(s, cur, num).0.wall == cur && PollTimedAt(s, cur, num).0.fifoFirst == s.fifoFirst
    ensures s.now <= PollTimedAt(s, cur, num).0.now <= s.now + (cur - s.wall)
  {
    hide Inv, PollTimed;
    InvInRange(s);
    PollTimedKeeps(s, s.now + (cur - s.wall), num);
    var r := PollTimed(s, s.now + (cur - s.wall), num);
    FlagKeeps(r.0, cur, r.0.fifoFirst);
  }

  lemma FlagKeeps(s: Sched, cur: int, b: bool)
    requires Inv(s)
    ensures Inv(s.(wall := cur, fifoFirst := b))
  {
    var s' := s.(wall := cur, fifoFirst := b);
    forall x | 0 <= x < |s.clients| && s.clients[x].avail > 0 ensures Listed(s', x) {
      assert Listed(s, x);
    }
  }

  /* ---------- when a rate is too low for the clock ---------- */

  /** A queue never enters the timed list in the past, unless its time looks
      like the future and one maximum chunk, cut to the clock's width, spans
      half the clock or more. */
  lemma PlacedInPastExactly(now: int, due: int, cost: nat)
    ensures Placed(now, due, cost) < now <==>
              && Rel(now, due) > 0
              && cost % TS_MOD >= HALF && !(cost % TS_MOD == HALF && Stamp(now) > HALF)
  {
    ModAdd(TS_MOD, now, cost);
    var low := cost % TS_MOD;
    assert Stamp(now + cost) == Stamp(now + low);
    if low < HALF || (low == HALF && Stamp(now) > HALF) {
      RelTimeExact(TS_MOD, now, now + low);
    } else {
      RelTimeExact(TS_MOD, now, now + (low - TS_MOD));
      ModShift(TS_MOD, now + low, -1);
    }
  }

  /** A queue that has just sent a full chunk and has more to send waits for the
      time that chunk takes, if and only if that time is a distance the stamps
      can express. */
  lemma FullChunkPacedExactly(now: int, cost: nat)
    ensures Placed(now, now + cost, cost) >= now + cost <==> Expressible(TS_MOD, Stamp(now), cost)
  {
    RelTimeExact(TS_MOD, now, now + cost);
    RelTimeLeadsToStamp(TS_MOD, Stamp(now), Stamp(now + cost));
    RelTimeExact(TS_MOD, now, now + Rel(now, now + cost));
  }

  /** The segment size handed to the scheduler for every TCP flow. */
  const TCP_MSS: nat := 1448

  /** For TCP flows the scheduler is safe from 6 kbps on ... */
  lemma MssPaceableExactly(due: int, rate: nat, avail: nat)
    ensures Paceable(Client(due, rate, avail, TCP_MSS)) <==> rate == 0 || rate >= 6
  {
    if rate >= 6 {
      DivByMore(TCP_MSS * 8 * 1000000, 6, rate);
    }
  }

  lemma DivByMore(x: nat, a: nat, b: nat)
    requires 0 < a <= b
    ensures x / b <= x / a
  {
    var q, r := x / b, x % b;
    assert x == q * b + r;
    assert q * a <= q * b by {
      assert q * b - q * a == q * (b - a);
    }
    DivMonotone(q * a, x, a);
    assert q * a / a == q by {
      ModUnique(a, q * a, q, 0);
    }
  }

  /** ... while at 5 kbps a flow that should wait 2.3 seconds is placed almost
      two seconds in the past. */
  lemma SlowFlowPlacedInPast()
    ensures Cost(TCP_MSS, 5) == 2316800000
    ensures Placed(0, 1, Cost(TCP_MSS, 5)) == -1978167296
  {
  }
}
