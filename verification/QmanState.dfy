/**
 The memory of the queue manager and how it stands for a scheduler state: a skip
 list of four levels and a no-limit list, both threaded through one array of
 queues by index, with 32-bit time stamps.
 */
module QmanState {
  import opened Basics
  import opened WrapTime
  import opened Scheduler

  const LEVELS: nat := 4
  /** The index that stands for "no queue". */
  const NONE: nat := 0xFFFF_FFFF

  datatype Queue = Queue(next: seq<nat>, nextTs: nat, rate: nat, avail: nat, maxChunk: nat,
                         inSkiplist: bool, inNolimit: bool)

  datatype Memory = Memory(queues: seq<Queue>, head: seq<nat>, nolimitHead: nat, nolimitTail: nat,
                           tsReal: nat, tsVirtual: nat, nolimitFirst: bool)

  /* ---------- lists threaded through the array ---------- */

  function FirstOf(xs: seq<nat>): nat {
    if xs == [] then NONE else xs[0]
  }

  function LastOf(xs: seq<nat>): nat {
    if xs == [] then NONE else xs[|xs| - 1]
  }

  function After(xs: seq<nat>, i: nat): nat {
    if i + 1 < |xs| then xs[i + 1] else NONE
  }

  /** `head` and the level-`l` links of the queues spell the list `xs`. */
  predicate Chain(qs: seq<Queue>, l: nat, head: nat, xs: seq<nat>)
    requires l < LEVELS && Shaped(qs)
  {
    && Below(xs, |qs|)
    && head == FirstOf(xs)
    && forall i {:trigger qs[xs[i]]} :: 0 <= i < |xs| ==> qs[xs[i]].next[l] == After(xs, i)
  }

  predicate Shaped(qs: seq<Queue>) {
    |qs| < NONE && forall i :: 0 <= i < |qs| ==> |qs[i].next| == LEVELS
  }

  /** The queues of `order` whose height reaches level `l`. */
  function AtLevel(order: seq<nat>, height: seq<nat>, l: nat): seq<nat>
    requires Below(order, |height|)
  {
    if order == [] then []
    else (if height[order[0]] >= l then [order[0]] else []) + AtLevel(order[1..], height, l)
  }

  lemma {:induction false} AtLevelMembers(order: seq<nat>, height: seq<nat>, l: nat)
    requires Below(order, |height|)
    ensures forall x :: x in AtLevel(order, height, l) <==> x in order && height[x] >= l
    ensures Below(AtLevel(order, height, l), |height|)
  {
    if order != [] {
      AtLevelMembers(order[1..], height, l);
      assert order == [order[0]] + order[1..];
    }
  }

  lemma {:induction false} AtLevelConcat(o1: seq<nat>, o2: seq<nat>, height: seq<nat>, l: nat)
    requires Below(o1, |height|) && Below(o2, |height|)
    ensures AtLevel(o1 + o2, height, l) == AtLevel(o1, height, l) + AtLevel(o2, height, l)
  {
    if o1 == [] {
      assert o1 + o2 == o2;
    } else {
      var first := if height[o1[0]] >= l then [o1[0]] else [];
      assert (o1 + o2)[1..] == o1[1..] + o2;
      AtLevelConcat(o1[1..], o2, height, l);
      Regrouped(first, AtLevel(o1[1..], height, l), AtLevel(o2, height, l));
    }
  }

  lemma Regrouped(a: seq<nat>, b: seq<nat>, c: seq<nat>)
    ensures a + (b + c) == (a + b) + c
  {
  }

  lemma {:induction false} AtLevelNoDup(order: seq<nat>, height: seq<nat>, l: nat)
    requires Below(order, |height|) && NoDup(order)
    ensures NoDup(AtLevel(order, height, l))
  {
    if order != [] {
      AtLevelNoDup(order[1..], height, l);
      AtLevelMembers(order[1..], height, l);
    }
  }

  lemma {:induction false} AtLevelFrame(order: seq<nat>, h1: seq<nat>, h2: seq<nat>, l: nat)
    requires |h1| == |h2| && Below(order, |h1|)
    requires forall i :: 0 <= i < |order| ==> h1[order[i]] == h2[order[i]]
    ensures AtLevel(order, h1, l) == AtLevel(order, h2, l)
  {
    if order != [] {
      assert h1[order[0]] == h2[order[0]];
      assert forall i :: 0 <= i < |order[1..]| ==> order[1..][i] == order[i + 1];
      AtLevelFrame(order[1..], h1, h2, l);
    }
  }

  lemma {:induction false} AtLevelZero(order: seq<nat>, height: seq<nat>)
    requires Below(order, |height|)
    ensures AtLevel(order, height, 0) == order
  {
    if order != [] {
      AtLevelZero(order[1..], height);
    }
  }

  /** The list `xs` with `q` put in at position `m`. */
  function Insert(xs: seq<nat>, m: nat, q: nat): seq<nat>
    requires m <= |xs|
  {
    xs[..m] + [q] + xs[m..]
  }

  /** Linking `q` behind the element at `m - 1`, or at the head, inserts it at `m`. */
  lemma LinkIn(qs: seq<Queue>, qs': seq<Queue>, l: nat, head: nat, head': nat, xs: seq<nat>, m: nat, q: nat)
    requires l < LEVELS && Shaped(qs) && Shaped(qs') && |qs| == |qs'|
    requires Chain(qs, l, head, xs)
    requires m <= |xs| && q < |qs| && q !in xs
    requires forall i {:trigger qs'[xs[i]]} :: 0 <= i < |xs| && i != m - 1 ==> qs'[xs[i]].next[l] == qs[xs[i]].next[l]
    requires qs'[q].next[l] == if m == 0 then head else qs[xs[m - 1]].next[l]
    requires m == 0 ==> head' == q
    requires m > 0 ==> head' == head && qs'[xs[m - 1]].next[l] == q
    ensures Chain(qs', l, head', Insert(xs, m, q))
  {
    var ys := Insert(xs, m, q);
    assert forall i :: 0 <= i < |ys| ==> ys[i] == if i < m then xs[i] else if i == m then q else xs[i - 1];
    forall i | 0 <= i < |ys| ensures qs'[ys[i]].next[l] == After(ys, i) {
      if i < m - 1 {
        assert qs'[xs[i]].next[l] == After(xs, i);
      } else if i == m {
        assert m > 0 ==> qs[xs[m - 1]].next[l] == After(xs, m - 1);
      } else if i > m {
        assert qs'[xs[i - 1]].next[l] == After(xs, i - 1);
      }
    }
  }

  lemma ChainFrame(qs: seq<Queue>, qs': seq<Queue>, l: nat, head: nat, xs: seq<nat>)
    requires l < LEVELS && Shaped(qs) && Shaped(qs') && |qs| == |qs'|
    requires Chain(qs, l, head, xs)
    requires forall i {:trigger qs'[xs[i]]} :: 0 <= i < |xs| ==> qs'[xs[i]].next[l] == qs[xs[i]].next[l]
    ensures Chain(qs', l, head, xs)
  {
  }

  lemma ChainPop(qs: seq<Queue>, l: nat, head: nat, xs: seq<nat>)
    requires l < LEVELS && Shaped(qs)
    requires Chain(qs, l, head, xs) && xs != []
    ensures Chain(qs, l, qs[xs[0]].next[l], xs[1..])
  {
    assert forall i :: 0 <= i < |xs[1..]| ==> xs[1..][i] == xs[i + 1];
  }

  /* ---------- the memory stands for a scheduler state ---------- */

  predicate FieldsMatch(q: Queue, c: Client, timed: bool, unlimited: bool) {
    && q.rate == c.rate && q.avail == c.avail && q.maxChunk == c.chunk
    && q.nextTs == Stamp(c.due)
    && q.inSkiplist == timed && q.inNolimit == unlimited
  }

  predicate Queues(qs: seq<Queue>, s: Sched) {
    && |qs| == |s.clients|
    && forall i :: 0 <= i < |qs| ==> FieldsMatch(qs[i], s.clients[i], i in s.timed, i in s.fifo)
  }

  /** Every level of the skip list spells the timed queues that reach it. */
  predicate Levels(qs: seq<Queue>, head: seq<nat>, height: seq<nat>, timed: seq<nat>)
    requires Shaped(qs)
  {
    && |head| == LEVELS && |height| == |qs| && Below(timed, |qs|)
    && forall l :: 0 <= l < LEVELS ==> Chain(qs, l, head[l], AtLevel(timed, height, l))
  }

  predicate Nolimit(m: Memory, fifo: seq<nat>)
    requires Shaped(m.queues)
  {
    Chain(m.queues, 0, m.nolimitHead, fifo) && m.nolimitTail == LastOf(fifo)
  }

  predicate Clocks(m: Memory, s: Sched) {
    m.tsVirtual == Stamp(s.now) && m.tsReal == Stamp(s.wall) && m.nolimitFirst == s.fifoFirst
  }

  predicate Represents(m: Memory, height: seq<nat>, s: Sched) {
    && Shaped(m.queues)
    && Queues(m.queues, s)
    && Levels(m.queues, m.head, height, s.timed)
    && Nolimit(m, s.fifo)
    && Clocks(m, s)
  }

  /* ---------- comparing stamps ---------- */

  predicate LessEq(tsVirtual: nat, a: nat, b: nat)
    requires tsVirtual < TS_MOD && a < TS_MOD && b < TS_MOD
  {
    RelTime(TS_MOD, tsVirtual, a) <= RelTime(TS_MOD, tsVirtual, b)
  }

  /** Stamps of times within half a clock from now compare as the times do. */
  lemma LessEqExact(now: int, a: int, b: int)
    requires now <= a < now + HALF && now <= b < now + HALF
    ensures LessEq(Stamp(now), Stamp(a), Stamp(b)) <==> a <= b
  {
    RelTimeNear(TS_MOD, now, a);
    RelTimeNear(TS_MOD, now, b);
  }

  /** The stamp the code computes for a queue entering the skip list is that of
      `Placed`. */
  lemma PlacedStamp(now: int, due: int, cost: nat)
    ensures var ts, tsMax, v := Stamp(due), (Stamp(now) + cost) % TS_MOD, Stamp(now);
            Stamp(Placed(now, due, cost)) ==
            if LessEq(v, ts, v) then v else if !LessEq(v, ts, tsMax) then tsMax else ts
  {
    hide RelTime;
    var v := Stamp(now);
    ModAdd(TS_MOD, now, cost);
    RelTimeNear(TS_MOD, now, now);
    RelTimeLeadsToStamp(TS_MOD, v, Stamp(due));
    RelTimeLeadsToStamp(TS_MOD, v, Stamp(now + cost));
    ModAdd(TS_MOD, now, Rel(now, due));
    ModAdd(TS_MOD, now, Rel(now, now + cost));
  }

  /* ---------- what the list operations do ---------- */

  /** Two arrays of queues that differ in links only. */
  predicate SameFields(qs: seq<Queue>, qs': seq<Queue>) {
    |qs| == |qs'| && forall i :: 0 <= i < |qs| ==> qs'[i] == qs[i].(next := qs'[i].next)
  }

  /** Link `l` of queue `i` set to `n`. */
  function Relink(qs: seq<Queue>, i: nat, l: nat, n: nat): (qs': seq<Queue>)
    requires Shaped(qs) && i < |qs| && l < LEVELS
    ensures Shaped(qs') && SameFields(qs, qs') && qs'[i].next[l] == n
    ensures forall j, k :: 0 <= j < |qs| && 0 <= k < LEVELS && (j != i || k != l) ==> qs'[j].next[k] == qs[j].next[k]
  {
    qs[i := qs[i].(next := qs[i].next[l := n])]
  }

  /** Nothing but link `l` of `q` and of the queues in `xs` differs. */
  predicate LinkedAt(qs: seq<Queue>, qs': seq<Queue>, l: nat, xs: seq<nat>, q: nat) {
    && Shaped(qs) && Shaped(qs') && SameFields(qs, qs')
    && forall i, k :: 0 <= i < |qs| && 0 <= k < LEVELS && (k != l || (i != q && i !in xs)) ==>
         qs'[i].next[k] == qs[i].next[k]
  }

  lemma PredIs(qs: seq<Queue>, l: nat, head: nat, xs: seq<nat>, m: nat)
    requires l < LEVELS && Shaped(qs) && Chain(qs, l, head, xs) && m <= |xs|
    ensures if m == 0 then LastOf(xs[..m]) == NONE
            else LastOf(xs[..m]) == xs[m - 1] && xs[m - 1] < |qs| && xs[m - 1] != NONE
  {
    hide After;
  }

  lemma LinkedFirst(qs: seq<Queue>, l: nat, head: nat, xs: seq<nat>, q: nat)
    requires l < LEVELS && Shaped(qs) && Chain(qs, l, head, xs) && q < |qs| && q !in xs
    ensures var qs' := Relink(qs, q, l, head);
            LinkedAt(qs, qs', l, xs, q) && Chain(qs', l, q, Insert(xs, 0, q))
  {
    hide Relink, After;
    LinkIn(qs, Relink(qs, q, l, head), l, head, q, xs, 0, q);
  }

  lemma LinkedBehind(qs: seq<Queue>, l: nat, head: nat, xs: seq<nat>, m: nat, q: nat)
    requires l < LEVELS && Shaped(qs) && Chain(qs, l, head, xs) && NoDup(xs) && q < |qs| && q !in xs
    requires 0 < m <= |xs|
    ensures var pred := xs[m - 1]; var qs' := Relink(Relink(qs, q, l, qs[pred].next[l]), pred, l, q);
            LinkedAt(qs, qs', l, xs, q) && Chain(qs', l, head, Insert(xs, m, q))
  {
    hide Relink, After;
    var pred := xs[m - 1];
    LinkIn(qs, Relink(Relink(qs, q, l, qs[pred].next[l]), pred, l, q), l, head, head, xs, m, q);
  }

  lemma NotLinked(qs: seq<Queue>, l: nat, head: nat, xs: seq<nat>, q: nat)
    requires l < LEVELS && Shaped(qs) && Chain(qs, l, head, xs) && q < |qs| && q !in xs
    ensures var qs' := Relink(qs, q, l, NONE);
            LinkedAt(qs, qs', l, xs, q) && Chain(qs', l, head, xs)
  {
    hide Relink, After;
    ChainFrame(qs, Relink(qs, q, l, NONE), l, head, xs);
  }

  lemma AtLevelOne(height: seq<nat>, l: nat, q: nat)
    requires q < |height|
    ensures AtLevel([q], height, l) == if l <= height[q] then [q] else []
  {
  }

  /** The new queue shows up at the levels it reaches, in the place its time gives it. */
  lemma NewLevel(timed: seq<nat>, height: seq<nat>, p: nat, q: nat, level: nat, l: nat)
    requires Below(timed, |height|) && p <= |timed| && q < |height| && q !in timed
    ensures Below(Insert(timed, p, q), |height|)
    ensures var xs, m := AtLevel(timed, height, l), |AtLevel(timed[..p], height, l)|;
            && m <= |xs| && xs[..m] == AtLevel(timed[..p], height, l)
            && xs[m..] == AtLevel(timed[p..], height, l)
            && AtLevel(Insert(timed, p, q), height[q := level], l) == if l <= level then Insert(xs, m, q) else xs
  {
    hide AtLevel;
    var h' := height[q := level];
    assert timed == timed[..p] + timed[p..];
    AtLevelOne(h', l, q);
    AtLevelConcat(timed[..p], timed[p..], height, l);
    AtLevelFrame(timed[..p], height, h', l);
    AtLevelFrame(timed[p..], height, h', l);
    AtLevelConcat(timed[..p], [q], h', l);
    AtLevelConcat(timed[..p] + [q], timed[p..], h', l);
  }

  /** The first queue is at the head of exactly the levels it reaches. */
  lemma HeadLevel(timed: seq<nat>, height: seq<nat>, l: nat)
    requires Below(timed, |height|) && NoDup(timed) && timed != [] && |height| < NONE
    ensures if height[timed[0]] >= l
            then AtLevel(timed, height, l) == [timed[0]] + AtLevel(timed[1..], height, l)
            else AtLevel(timed, height, l) == AtLevel(timed[1..], height, l)
                 && FirstOf(AtLevel(timed, height, l)) != timed[0]
  {
    AtLevelMembers(timed[1..], height, l);
    assert timed[0] !in timed[1..];
    if height[timed[0]] < l && AtLevel(timed[1..], height, l) != [] {
      assert AtLevel(timed[1..], height, l)[0] in AtLevel(timed[1..], height, l);
    }
  }

  /** The levels only depend on the links of the queues in them. */
  lemma LevelsFrame(qs: seq<Queue>, qs': seq<Queue>, head: seq<nat>, height: seq<nat>, timed: seq<nat>)
    requires Shaped(qs) && Shaped(qs') && |qs| == |qs'| && Levels(qs, head, height, timed)
    requires forall i :: 0 <= i < |timed| ==> qs'[timed[i]].next == qs[timed[i]].next
    ensures Levels(qs', head, height, timed)
  {
    hide AtLevel;
    forall l | 0 <= l < LEVELS ensures Chain(qs', l, head[l], AtLevel(timed, height, l)) {
      var xs := AtLevel(timed, height, l);
      assert Chain(qs, l, head[l], xs);
      forall i | 0 <= i < |xs| ensures qs'[xs[i]].next[l] == qs[xs[i]].next[l] {
        var j := LevelSource(timed, height, l, i);
      }
      ChainFrame(qs, qs', l, head[l], xs);
    }
  }

  /** The array once `idx` has been appended to a no-limit list that ends in `tail`. */
  function Appended(qs: seq<Queue>, tail: nat, idx: nat): (qs': seq<Queue>)
    requires Shaped(qs) && idx < |qs| && (tail == NONE || tail < |qs|)
    ensures Shaped(qs') && |qs'| == |qs|
  {
    var q := qs[idx := qs[idx].(inNolimit := true, next := qs[idx].next[0 := NONE])];
    if tail == NONE then q else q[tail := q[tail].(next := q[tail].next[0 := idx])]
  }

  lemma AppendedChain(m: Memory, fifo: seq<nat>, idx: nat)
    requires Shaped(m.queues) && Nolimit(m, fifo) && NoDup(fifo) && idx < |m.queues| && idx !in fifo
    ensures m.nolimitTail == NONE || m.nolimitTail < |m.queues|
    ensures Chain(Appended(m.queues, m.nolimitTail, idx), 0,
                  if m.nolimitTail == NONE then idx else m.nolimitHead, fifo + [idx])
  {
    var qs' := Appended(m.queues, m.nolimitTail, idx);
    assert fifo != [] ==> m.nolimitTail == fifo[|fifo| - 1];
    LinkIn(m.queues, qs', 0, m.nolimitHead, if m.nolimitTail == NONE then idx else m.nolimitHead, fifo, |fifo|, idx);
    assert Insert(fifo, |fifo|, idx) == fifo + [idx];
  }

  /** Appending `idx` to the no-limit list. */
  lemma NolimitAppended(m: Memory, height: seq<nat>, s: Sched, idx: nat)
    requires Represents(m, height, s) && InvBut(s, idx) && s.clients[idx].rate == 0
    ensures m.nolimitTail == NONE || m.nolimitTail < |m.queues|
    ensures Represents(m.(queues := Appended(m.queues, m.nolimitTail, idx),
                          nolimitHead := if m.nolimitTail == NONE then idx else m.nolimitHead,
                          nolimitTail := idx), height, Activate(s, idx))
  {
    hide InvBut, AtLevel, Levels, Chain;
    InvButLists(s, idx);
    AppendedChain(m, s.fifo, idx);
    var qs, qs' := m.queues, Appended(m.queues, m.nolimitTail, idx);
    var s' := Activate(s, idx);
    assert forall i :: 0 <= i < |s.timed| ==> s.timed[i] != idx && s.timed[i] != m.nolimitTail by {
      FifoNotTimed(s);
      assert s.fifo != [] ==> m.nolimitTail == s.fifo[|s.fifo| - 1];
      assert forall i :: 0 <= i < |s.timed| ==> s.timed[i] in s.timed;
      assert s.fifo == [] ==> m.nolimitTail == NONE;
    }
    LevelsFrame(qs, qs', m.head, height, s.timed);
    assert forall i :: i in s'.fifo <==> i in s.fifo || i == idx;
    forall i | 0 <= i < |qs'| ensures FieldsMatch(qs'[i], s'.clients[i], i in s'.timed, i in s'.fifo) {
      assert FieldsMatch(qs[i], s.clients[i], i in s.timed, i in s.fifo);
    }
  }

  lemma InvButLists(s: Sched, idx: nat)
    requires InvBut(s, idx)
    ensures !Listed(s, idx) && ListsOk(s) && idx < |s.clients|
  {
  }

  /** At every level, the queues due by `d` come first. */
  lemma LevelCut(s: Sched, height: seq<nat>, l: nat, d: int)
    requires ListsOk(s) && |height| == |s.clients|
    ensures var p := Rank(s.clients, s.timed, d);
            var xs, early := AtLevel(s.timed, height, l), AtLevel(s.timed[..p], height, l);
            && |early| <= |xs| && xs[..|early|] == early
            && Below(xs, |s.clients|)
            && forall i :: 0 <= i < |xs| ==>
                 && Upcoming(s.clients[xs[i]], s.now)
                 && (s.clients[xs[i]].due <= d <==> i < |early|)
  {
    hide Rank, AtLevel, Upcoming, ListsOk;
    InRangeOf(s);
    var p := Rank(s.clients, s.timed, d);
    var xs, early := AtLevel(s.timed, height, l), AtLevel(s.timed[..p], height, l);
    LevelSplit(s.timed, height, l, p);
    forall i | 0 <= i < |xs|
      ensures xs[i] < |s.clients| && Upcoming(s.clients[xs[i]], s.now)
      ensures s.clients[xs[i]].due <= d <==> i < |early|
    {
      LevelCutAt(s, height, l, d, i);
    }
  }

  lemma InRangeOf(s: Sched)
    requires ListsOk(s)
    ensures InRange(s)
  {
  }

  lemma LevelSplit(timed: seq<nat>, height: seq<nat>, l: nat, p: nat)
    requires Below(timed, |height|) && p <= |timed|
    ensures AtLevel(timed, height, l) == AtLevel(timed[..p], height, l) + AtLevel(timed[p..], height, l)
  {
    hide AtLevel;
    assert timed == timed[..p] + timed[p..];
    AtLevelConcat(timed[..p], timed[p..], height, l);
  }

  /** Where in the whole list an element of a level stands. */
  lemma {:induction false} LevelSource(order: seq<nat>, height: seq<nat>, l: nat, i: nat) returns (j: nat)
    requires Below(order, |height|) && i < |AtLevel(order, height, l)|
    ensures j < |order| && order[j] == AtLevel(order, height, l)[i]
  {
    if height[order[0]] >= l {
      if i == 0 {
        j := 0;
      } else {
        j := LevelSource(order[1..], height, l, i - 1);
        j := j + 1;
      }
    } else {
      j := LevelSource(order[1..], height, l, i);
      j := j + 1;
    }
  }

  lemma LevelCutAt(s: Sched, height: seq<nat>, l: nat, d: int, i: nat)
    requires ListsOk(s) && |height| == |s.clients| && i < |AtLevel(s.timed, height, l)|
    ensures var p, x := Rank(s.clients, s.timed, d), AtLevel(s.timed, height, l)[i];
            && x < |s.clients| && Upcoming(s.clients[x], s.now)
            && (s.clients[x].due <= d <==> i < |AtLevel(s.timed[..p], height, l)|)
  {
    hide Rank, AtLevel, Upcoming;
    var p := Rank(s.clients, s.timed, d);
    LevelSplit(s.timed, height, l, p);
    var n := |AtLevel(s.timed[..p], height, l)|;
    if i < n {
      var j := LevelSource(s.timed[..p], height, l, i);
      assert s.timed[j] == AtLevel(s.timed, height, l)[i];
    } else {
      var j := LevelSource(s.timed[p..], height, l, i - n);
      assert s.timed[p + j] == AtLevel(s.timed, height, l)[i];
      assert j == 0 || s.clients[s.timed[p]].due <= s.clients[s.timed[p + j]].due;
    }
  }

  /** The skip list holds `idx` and the no-limit list is as before. */
  lemma SkiplistInserted(m: Memory, m': Memory, height: seq<nat>, s: Sched, idx: nat, level: nat)
    requires Represents(m, height, s) && InvBut(s, idx) && s.clients[idx].rate > 0
    requires s.clients[idx].due == Placed(s.now, s.clients[idx].due, Cost(s.clients[idx].chunk, s.clients[idx].rate))
    requires Shaped(m'.queues) && |m'.queues| == |m.queues|
    requires forall i :: 0 <= i < |m.queues| ==>
               m'.queues[i] == m.queues[i].(next := m'.queues[i].next, inSkiplist := i == idx || m.queues[i].inSkiplist)
    requires forall i :: 0 <= i < |m.queues| && i != idx && i !in s.timed ==> m'.queues[i].next == m.queues[i].next
    requires m' == m.(queues := m'.queues, head := m'.head)
    requires Levels(m'.queues, m'.head, height[idx := level], Activate(s, idx).timed)
    ensures Represents(m', height[idx := level], Activate(s, idx))
  {
    hide Levels, Placed, Cost, AtLevel, ListsOk, Rank;
    InvButLists(s, idx);
    var s' := Activate(s, idx);
    InsertMembers(s.timed, Rank(s.clients, s.timed, s.clients[idx].due), idx);
    assert s'.clients == s.clients;
    FifoNotTimed(s);
    ChainFrame(m.queues, m'.queues, 0, m.nolimitHead, s.fifo);
    forall i | 0 <= i < |m'.queues|
      ensures FieldsMatch(m'.queues[i], s'.clients[i], i in s'.timed, i in s'.fifo)
    {
      assert FieldsMatch(m.queues[i], s.clients[i], i in s.timed, i in s.fifo);
    }
  }

  lemma InsertMembers(xs: seq<nat>, p: nat, id: nat)
    requires p <= |xs|
    ensures forall x :: x in xs[..p] + [id] + xs[p..] <==> x == id || x in xs
  {
    assert xs == xs[..p] + xs[p..];
  }

  lemma FifoNotTimed(s: Sched)
    requires ListsOk(s)
    ensures forall i :: 0 <= i < |s.fifo| ==> s.fifo[i] !in s.timed
  {
  }

  /** Taking the first queue off the no-limit list. */
  lemma NolimitPopped(m: Memory, height: seq<nat>, s: Sched)
    requires Represents(m, height, s) && Inv(s) && s.fifo != []
    ensures var idx := s.fifo[0];
            var next := m.queues[idx].next[0];
            && idx == m.nolimitHead
            && Represents(m.(queues := m.queues[idx := m.queues[idx].(inNolimit := false)], nolimitHead := next,
                             nolimitTail := if next == NONE then NONE else m.nolimitTail),
                          height, PopFifo(s))
  {
    hide AtLevel;
    var idx := s.fifo[0];
    var qs' := m.queues[idx := m.queues[idx].(inNolimit := false)];
    ChainPop(m.queues, 0, m.nolimitHead, s.fifo);
    ChainFrame(m.queues, qs', 0, m.queues[idx].next[0], s.fifo[1..]);
    assert s.fifo == [idx] + s.fifo[1..];
    assert idx !in s.fifo[1..];
  }

  /** Taking the first queue off all levels of the skip list. */
  lemma SkiplistPopped(m: Memory, head': seq<nat>, height: seq<nat>, s: Sched)
    requires Represents(m, height, s) && Inv(s) && s.timed != []
    requires Levels(m.queues, head', height, s.timed[1..])
    ensures var idx := s.timed[0];
            Represents(m.(queues := m.queues[idx := m.queues[idx].(inSkiplist := false)], head := head',
                          tsVirtual := m.queues[idx].nextTs),
                       height, PopTimed(s))
  {
    hide AtLevel;
    var idx := s.timed[0];
    assert s.timed == [idx] + s.timed[1..];
    assert idx !in s.timed[1..];
    assert FieldsMatch(m.queues[idx], s.clients[idx], true, idx in s.fifo);
  }

  lemma {:induction false} AtLevelNested(order: seq<nat>, height: seq<nat>, l: nat, k: nat)
    requires Below(order, |height|) && l <= k
    ensures Below(AtLevel(order, height, l), |height|)
    ensures AtLevel(AtLevel(order, height, l), height, k) == AtLevel(order, height, k)
  {
    AtLevelMembers(order, height, l);
    if order != [] {
      var x, rest := order[0], AtLevel(order[1..], height, l);
      AtLevelNested(order[1..], height, l, k);
      AtLevelConcat(if height[x] >= l then [x] else [], rest, height, k);
    }
  }

  lemma {:induction false} AtLevelSorted(clients: seq<Client>, order: seq<nat>, height: seq<nat>, l: nat)
    requires |height| == |clients| && Below(order, |clients|) && Sorted(clients, order)
    ensures Below(AtLevel(order, height, l), |clients|) && Sorted(clients, AtLevel(order, height, l))
  {
    AtLevelMembers(order, height, l);
    if order != [] {
      var x, rest := order[0], AtLevel(order[1..], height, l);
      AtLevelSorted(clients, order[1..], height, l);
      AtLevelMembers(order[1..], height, l);
      forall i | 0 <= i < |rest| ensures clients[x].due <= clients[rest[i]].due {
        assert rest[i] in rest;
        var j :| 0 <= j < |order[1..]| && order[1..][j] == rest[i];
        assert order[j + 1] == rest[i];
      }
    }
  }

  /** The skip list in terms of the memory alone: following the links of a level
      gives a list `xs` in the order of the wrapped send times, none of them
      before virtual time; the links of the next level give a part of `xs` in the
      same order; and level 0 holds exactly the queues flagged as being in it. */
  lemma SkiplistShape(m: Memory, height: seq<nat>, s: Sched, l: nat)
    requires Represents(m, height, s) && Inv(s) && l < LEVELS
    ensures m.tsVirtual < TS_MOD && Below(s.timed, |height|)
    ensures var xs := AtLevel(s.timed, height, l);
            && Chain(m.queues, l, m.head[l], xs)
            && (forall i, j :: 0 <= i < j < |xs| ==>
                  LessEq(m.tsVirtual, m.queues[xs[i]].nextTs, m.queues[xs[j]].nextTs))
            && (forall i :: 0 <= i < |xs| ==> RelTime(TS_MOD, m.tsVirtual, m.queues[xs[i]].nextTs) >= 0)
            && Below(xs, |height|)
            && (l + 1 < LEVELS ==> Chain(m.queues, l + 1, m.head[l + 1], AtLevel(xs, height, l + 1)))
            && (l == 0 ==> forall x :: 0 <= x < |m.queues| ==> (m.queues[x].inSkiplist <==> x in xs))
  {
    hide RelTime, LessEq, AtLevel, Inv, Levels, Nolimit;
    assert InRange(s) && ListsOk(s) by { InvHasLists(s); }
    LevelTimes(m, height, s, l);
    LevelNesting(m, height, s, l);
    AtLevelZero(s.timed, height);
    if l == 0 {
      forall x | 0 <= x < |m.queues| ensures m.queues[x].inSkiplist <==> x in s.timed {
        assert FieldsMatch(m.queues[x], s.clients[x], x in s.timed, x in s.fifo);
      }
    }
    var xs := AtLevel(s.timed, height, l);
    forall i, j | 0 <= i < j < |xs| ensures LessEq(m.tsVirtual, m.queues[xs[i]].nextTs, m.queues[xs[j]].nextTs) {
      LessEqExact(s.now, s.clients[xs[i]].due, s.clients[xs[j]].due);
    }
  }

  lemma InvHasLists(s: Sched)
    requires Inv(s)
    ensures InRange(s) && ListsOk(s)
  {
  }

  lemma LevelNesting(m: Memory, height: seq<nat>, s: Sched, l: nat)
    requires Represents(m, height, s) && l < LEVELS
    ensures Below(s.timed, |height|) && Below(AtLevel(s.timed, height, l), |height|)
    ensures Chain(m.queues, l, m.head[l], AtLevel(s.timed, height, l))
    ensures l + 1 < LEVELS ==>
              Chain(m.queues, l + 1, m.head[l + 1], AtLevel(AtLevel(s.timed, height, l), height, l + 1))
  {
    hide AtLevel, Chain;
    AtLevelNested(s.timed, height, l, l + 1);
  }

  /** The send times of one level, as unbounded times and as stamps. */
  lemma LevelTimes(m: Memory, height: seq<nat>, s: Sched, l: nat)
    requires Represents(m, height, s) && ListsOk(s) && l < LEVELS
    ensures var xs := AtLevel(s.timed, height, l);
            && Below(xs, |s.clients|) && Sorted(s.clients, xs)
            && forall i :: 0 <= i < |xs| ==>
                 && Upcoming(s.clients[xs[i]], s.now)
                 && m.queues[xs[i]].nextTs == Stamp(s.clients[xs[i]].due)
                 && RelTime(TS_MOD, m.tsVirtual, m.queues[xs[i]].nextTs) >= 0
  {
    hide RelTime, AtLevel, Nolimit, Chain;
    var xs := AtLevel(s.timed, height, l);
    AtLevelMembers(s.timed, height, l);
    AtLevelSorted(s.clients, s.timed, height, l);
    forall i | 0 <= i < |xs|
      ensures Upcoming(s.clients[xs[i]], s.now) && m.queues[xs[i]].nextTs == Stamp(s.clients[xs[i]].due)
      ensures RelTime(TS_MOD, m.tsVirtual, m.queues[xs[i]].nextTs) >= 0
    {
      assert xs[i] in xs;
      var j :| 0 <= j < |s.timed| && s.timed[j] == xs[i];
      assert FieldsMatch(m.queues[xs[i]], s.clients[xs[i]], xs[i] in s.timed, xs[i] in s.fifo);
      assert Upcoming(s.clients[s.timed[j]], s.now);
      RelTimeNear(TS_MOD, s.now, s.clients[xs[i]].due);
    }
  }
}
