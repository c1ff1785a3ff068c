/**
 Timers over unbounded time: two queues, one of timers that wait and one of timers
 that are due, both in the order in which the timers will fire.
 */
module TimerSpec {

  /** The wrapping clock has 28 bits; a timer may be set less than half of it ahead. */
  const CLOCK: nat := 0x1000_0000
  const HALF: nat := 0x800_0000

  /** One arming of a timer: when it expires, and its place among all armings. */
  datatype Armed<T> = Armed(to: T, expiry: int, order: nat)

  datatype Timers<T> = Timers(now: int, pending: seq<Armed<T>>, due: seq<Armed<T>>, orders: nat)

  /** Earlier expiry first, ties in the order of arming. */
  predicate Before<T>(a: Armed<T>, b: Armed<T>) {
    a.expiry < b.expiry || (a.expiry == b.expiry && a.order < b.order)
  }

  predicate InOrder<T>(xs: seq<Armed<T>>) {
    forall i, j :: 0 <= i < j < |xs| ==> Before(xs[i], xs[j])
  }

  /** How many timers at the front of `xs` expire by `t`. */
  function Expired<T>(xs: seq<Armed<T>>, t: int): (k: nat)
    ensures k <= |xs|
    ensures forall i :: 0 <= i < k ==> xs[i].expiry <= t
    ensures k < |xs| ==> xs[k].expiry > t
  {
    if xs == [] || xs[0].expiry > t then 0 else 1 + Expired(xs[1..], t)
  }

  /* ---------- operations ---------- */

  /** Time moves on to `t`; timers that have expired become due. */
  function MoveDue<T>(s: Timers<T>, t: int): Timers<T> {
    var k := Expired(s.pending, t);
    s.(now := t, pending := s.pending[k..], due := s.due + s.pending[..k])
  }

  function Inserted<T>(xs: seq<Armed<T>>, a: Armed<T>): seq<Armed<T>> {
    var k := Expired(xs, a.expiry);
    xs[..k] + [a] + xs[k..]
  }

  function Arm<T>(s: Timers<T>, t: int, to: T, us: nat): Timers<T> {
    var s1 := MoveDue(s, t);
    s1.(pending := Inserted(s1.pending, Armed(to, t + us, s1.orders)), orders := s1.orders + 1)
  }

  function Without<T(==)>(xs: seq<Armed<T>>, to: T): (ys: seq<Armed<T>>)
    ensures |ys| <= |xs|
  {
    if xs == [] then []
    else if xs[0].to == to then xs[1..]
    else [xs[0]] + Without(xs[1..], to)
  }

  function Disarm<T(==)>(s: Timers<T>, to: T): Timers<T> {
    s.(pending := Without(s.pending, to), due := Without(s.due, to))
  }

  function Fire<T>(s: Timers<T>): Timers<T>
    requires s.due != []
  {
    s.(due := s.due[1..])
  }

  predicate IsArmed<T(==)>(s: Timers<T>, to: T) {
    exists i :: 0 <= i < |s.due + s.pending| && (s.due + s.pending)[i].to == to
  }

  /* ---------- the invariant ---------- */

  predicate Distinct<T(==)>(xs: seq<Armed<T>>) {
    forall i, j :: 0 <= i < j < |xs| ==> xs[i].to != xs[j].to
  }

  /** Due timers have expired, waiting ones have not expired before now and are
      less than half the clock ahead. */
  predicate Timely<T>(s: Timers<T>) {
    && (forall i :: 0 <= i < |s.due| ==> s.due[i].expiry <= s.now)
    && (forall i :: 0 <= i < |s.pending| ==> s.now <= s.pending[i].expiry < s.now + HALF)
  }

  predicate Numbered<T>(xs: seq<Armed<T>>, orders: nat) {
    forall i :: 0 <= i < |xs| ==> xs[i].order < orders
  }

  predicate Inv<T(==)>(s: Timers<T>) {
    && InOrder(s.due + s.pending) && Distinct(s.due + s.pending)
    && Timely(s) && Numbered(s.due + s.pending, s.orders)
  }

  lemma MoveDueList<T>(s: Timers<T>, t: int)
    ensures MoveDue(s, t).now == t && MoveDue(s, t).orders == s.orders
    ensures MoveDue(s, t).due + MoveDue(s, t).pending == s.due + s.pending
  {
    hide Expired;
    Rejoin(s.due, s.pending, Expired(s.pending, t));
  }

  lemma Rejoin<T>(xs: seq<T>, ys: seq<T>, k: nat)
    requires k <= |ys|
    ensures (xs + ys[..k]) + ys[k..] == xs + ys
  {
  }

  /** After a move, no waiting timer has expired. */
  lemma MoveDueKeeps<T>(s: Timers<T>, t: int)
    requires Inv(s) && s.now <= t
    ensures Inv(MoveDue(s, t))
    ensures forall i :: 0 <= i < |MoveDue(s, t).pending| ==> MoveDue(s, t).pending[i].expiry > t
  {
    var s' := MoveDue(s, t);
    var k := Expired(s.pending, t);
    MoveDueList(s, t);
    forall i | 0 <= i < |s'.pending| ensures t < s'.pending[i].expiry < t + HALF {
      assert s'.pending[i] == s.pending[k + i];
      if i > 0 {
        assert (s.due + s.pending)[|s.due| + k] == s.pending[k];
        assert (s.due + s.pending)[|s.due| + k + i] == s.pending[k + i];
        assert Before(s.pending[k], s.pending[k + i]);
      }
    }
  }

  /** So the due timers are exactly the armed ones that have expired. */
  lemma DueExactly<T>(s: Timers<T>, t: int, a: Armed<T>)
    requires Inv(s) && s.now <= t
    ensures a in MoveDue(s, t).due <==> a in s.due + s.pending && a.expiry <= t
  {
    var s' := MoveDue(s, t);
    MoveDueKeeps(s, t);
    MoveDueList(s, t);
    assert a in s'.due + s'.pending <==> a in s'.due || a in s'.pending;
  }

  lemma InsertKeeps<T>(xs: seq<Armed<T>>, p: nat, a: Armed<T>)
    requires p <= |xs| && InOrder(xs) && Distinct(xs) && Numbered(xs, a.order)
    requires forall i :: 0 <= i < p ==> Before(xs[i], a)
    requires forall i :: p <= i < |xs| ==> Before(a, xs[i])
    requires forall i :: 0 <= i < |xs| ==> xs[i].to != a.to
    ensures var ys := xs[..p] + [a] + xs[p..];
            InOrder(ys) && Distinct(ys) && Numbered(ys, a.order + 1)
  {
    hide Before;
    var ys := xs[..p] + [a] + xs[p..];
    assert forall i :: 0 <= i < |ys| ==> ys[i] == if i < p then xs[i] else if i == p then a else xs[i - 1];
  }

  lemma ArmKeeps<T>(s: Timers<T>, t: int, to: T, us: nat)
    requires Inv(s) && s.now <= t && us < HALF && !IsArmed(s, to)
    ensures Inv(Arm(s, t, to, us))
  {
    hide Expired, InOrder, Distinct, Numbered;
    var s1 := MoveDue(s, t);
    MoveDueKeeps(s, t);
    MoveDueList(s, t);
    var a := Armed(to, t + us, s1.orders);
    var k := Expired(s1.pending, a.expiry);
    var xs, p := s1.due + s1.pending, |s1.due| + k;
    InsertedAt(s1.due, s1.pending, a);
    forall i | 0 <= i < |xs| ensures xs[i].to != to {
      assert (s.due + s.pending)[i].to != to;
    }
    forall i | 0 <= i < p ensures Before(xs[i], a) {
      NumberedAt(xs, s1.orders, i);
      assert xs[i] == if i < |s1.due| then s1.due[i] else s1.pending[i - |s1.due|];
    }
    forall i | p <= i < |xs| ensures Before(a, xs[i]) {
      assert xs[i] == s1.pending[i - |s1.due|] && xs[p] == s1.pending[k];
      InOrderAt(xs, p, i);
    }
    InsertKeeps(xs, p, a);
    ArmTimely(s1, a);
  }

  lemma ArmTimely<T>(s: Timers<T>, a: Armed<T>)
    requires Timely(s) && s.now <= a.expiry < s.now + HALF
    ensures Timely(s.(pending := Inserted(s.pending, a), orders := s.orders + 1))
  {
    hide Expired;
    var k := Expired(s.pending, a.expiry);
    var ys := Inserted(s.pending, a);
    assert forall i :: 0 <= i < |ys| ==>
        ys[i] == if i < k then s.pending[i] else if i == k then a else s.pending[i - 1];
  }

  lemma NumberedAt<T>(xs: seq<Armed<T>>, orders: nat, i: nat)
    requires Numbered(xs, orders) && i < |xs|
    ensures xs[i].order < orders
  {
  }

  lemma InOrderAt<T>(xs: seq<Armed<T>>, i: nat, j: nat)
    requires InOrder(xs) && i <= j < |xs|
    ensures i == j || Before(xs[i], xs[j])
  {
  }

  lemma InsertedAt<T>(due: seq<Armed<T>>, pending: seq<Armed<T>>, a: Armed<T>)
    ensures var k := Expired(pending, a.expiry);
            due + Inserted(pending, a) == (due + pending)[..|due| + k] + [a] + (due + pending)[|due| + k..]
  {
  }

  lemma DistinctTail<T>(xs: seq<Armed<T>>, i: nat)
    requires Distinct(xs) && i < |xs|
    ensures Distinct(xs[1..]) && (i > 0 ==> xs[0].to != xs[i].to)
  {
    assert forall j :: 0 <= j < |xs[1..]| ==> xs[1..][j] == xs[j + 1];
  }

  lemma SkipFirst<T>(xs: seq<T>, i: nat)
    requires 0 < i < |xs|
    ensures [xs[0]] + (xs[1..][..i - 1] + xs[1..][i..]) == xs[..i] + xs[i + 1..]
  {
  }

  lemma {:induction false} WithoutKeeps<T>(xs: seq<Armed<T>>, to: T, i: nat)
    requires Distinct(xs) && i < |xs| && xs[i].to == to
    ensures Without(xs, to) == xs[..i] + xs[i + 1..]
  {
    hide Distinct;
    DistinctTail(xs, i);
    if i > 0 {
      WithoutKeeps(xs[1..], to, i - 1);
      SkipFirst(xs, i);
    } else {
      assert xs[..0] + xs[1..] == xs[1..];
    }
  }

  lemma {:induction false} WithoutAbsent<T>(xs: seq<Armed<T>>, to: T)
    requires forall i :: 0 <= i < |xs| ==> xs[i].to != to
    ensures Without(xs, to) == xs
  {
    if xs != [] {
      var rest := xs[1..];
      forall j | 0 <= j < |rest| ensures rest[j].to != to {
        assert rest[j] == xs[j + 1];
      }
      WithoutAbsent(rest, to);
      assert xs == [xs[0]] + rest;
    }
  }

  lemma RemoveKeeps<T>(xs: seq<Armed<T>>, i: nat, orders: nat)
    requires i < |xs| && InOrder(xs) && Distinct(xs) && Numbered(xs, orders)
    ensures var ys := xs[..i] + xs[i + 1..];
            InOrder(ys) && Distinct(ys) && Numbered(ys, orders)
  {
    hide Before;
    var ys := xs[..i] + xs[i + 1..];
    assert forall j :: 0 <= j < |ys| ==> ys[j] == if j < i then xs[j] else xs[j + 1];
  }

  lemma DistinctParts<T>(xs: seq<Armed<T>>, ys: seq<Armed<T>>)
    requires Distinct(xs + ys)
    ensures Distinct(xs) && Distinct(ys)
    ensures forall i, j :: 0 <= i < |xs| && 0 <= j < |ys| ==> xs[i].to != ys[j].to
  {
    var zs := xs + ys;
    assert forall i :: 0 <= i < |xs| ==> zs[i] == xs[i];
    assert forall j :: 0 <= j < |ys| ==> zs[|xs| + j] == ys[j];
    forall i, j | 0 <= i < j < |ys| ensures ys[i].to != ys[j].to {
      assert zs[|xs| + i].to != zs[|xs| + j].to;
    }
    forall i, j | 0 <= i < |xs| && 0 <= j < |ys| ensures xs[i].to != ys[j].to {
      assert zs[i].to != zs[|xs| + j].to;
    }
  }

  /** Disarming takes exactly the timer's one entry out of the firing order. */
  lemma DisarmRemoves<T>(s: Timers<T>, to: T, i: nat)
    requires Distinct(s.due + s.pending) && i < |s.due + s.pending| && (s.due + s.pending)[i].to == to
    ensures var s', xs := Disarm(s, to), s.due + s.pending;
            s'.due + s'.pending == xs[..i] + xs[i + 1..]
    ensures i < |s.due| ==> Disarm(s, to) == s.(due := s.due[..i] + s.due[i + 1..])
    ensures i >= |s.due| ==>
              var k := i - |s.due|; Disarm(s, to) == s.(pending := s.pending[..k] + s.pending[k + 1..])
  {
    hide Without, Distinct;
    DistinctParts(s.due, s.pending);
    if i < |s.due| {
      assert s.due[i].to == to;
      WithoutKeeps(s.due, to, i);
      WithoutAbsent(s.pending, to);
      RemoveLeft(s.due, s.pending, i);
    } else {
      var k := i - |s.due|;
      assert s.pending[k].to == to;
      WithoutKeeps(s.pending, to, k);
      WithoutAbsent(s.due, to);
      RemoveRight(s.due, s.pending, k);
    }
  }

  lemma RemoveLeft<T>(xs: seq<T>, ys: seq<T>, i: nat)
    requires i < |xs|
    ensures (xs[..i] + xs[i + 1..]) + ys == (xs + ys)[..i] + (xs + ys)[i + 1..]
  {
  }

  lemma RemoveRight<T>(xs: seq<T>, ys: seq<T>, k: nat)
    requires k < |ys|
    ensures xs + (ys[..k] + ys[k + 1..]) == (xs + ys)[..|xs| + k] + (xs + ys)[|xs| + k + 1..]
  {
  }

  lemma DisarmKeeps<T>(s: Timers<T>, to: T)
    requires Inv(s) && IsArmed(s, to)
    ensures Inv(Disarm(s, to))
  {
    hide InOrder, Distinct, Numbered, Disarm;
    var i :| 0 <= i < |s.due + s.pending| && (s.due + s.pending)[i].to == to;
    DisarmRemoves(s, to, i);
    RemoveKeeps(s.due + s.pending, i, s.orders);
  }

  lemma FireKeeps<T>(s: Timers<T>)
    requires Inv(s) && s.due != []
    ensures Inv(Fire(s)) && s.due + s.pending == [s.due[0]] + (Fire(s).due + Fire(s).pending)
  {
    hide InOrder, Distinct, Numbered;
    var xs := s.due + s.pending;
    assert s.due[1..] + s.pending == xs[..0] + xs[0 + 1..];
    RemoveKeeps(xs, 0, s.orders);
  }

  /* ---------- runs ---------- */

  /** A poll is a move followed by fires; the handler called at each fire may arm
      and disarm timers before the next one. */
  datatype Step<T> = ArmStep(t: int, to: T, us: nat) | DisarmStep(to: T) | MoveStep(t: int) | FireStep

  /** A timer that fired and the time it fired at. */
  datatype Shot<T> = Shot(timer: Armed<T>, at: int)

  predicate StepOk<T(==)>(s: Timers<T>, e: Step<T>) {
    match e
    case ArmStep(t, to, us) => s.now <= t && us < HALF && !IsArmed(s, to)
    case DisarmStep(to) => IsArmed(s, to)
    case MoveStep(t) => s.now <= t
    case FireStep => s.due != []
  }

  function Do<T(==)>(s: Timers<T>, e: Step<T>): Timers<T> {
    match e
    case ArmStep(t, to, us) => Arm(s, t, to, us)
    case DisarmStep(to) => Disarm(s, to)
    case MoveStep(t) => MoveDue(s, t)
    case FireStep => if s.due == [] then s else Fire(s)
  }

  function Fired<T>(s: Timers<T>, e: Step<T>): seq<Shot<T>> {
    if e.FireStep? && s.due != [] then [Shot(s.due[0], s.now)] else []
  }

  predicate RunOk<T(==)>(s: Timers<T>, steps: seq<Step<T>>)
    decreases steps
  {
    steps == [] || (StepOk(s, steps[0]) && RunOk(Do(s, steps[0]), steps[1..]))
  }

  function Run<T(==)>(s: Timers<T>, steps: seq<Step<T>>): Timers<T>
    decreases steps
  {
    if steps == [] then s else Run(Do(s, steps[0]), steps[1..])
  }

  function Log<T(==)>(s: Timers<T>, steps: seq<Step<T>>): seq<Shot<T>>
    decreases steps
  {
    if steps == [] then [] else Fired(s, steps[0]) + Log(Do(s, steps[0]), steps[1..])
  }

  function TimersOf<T>(log: seq<Shot<T>>): (xs: seq<Armed<T>>)
    ensures |xs| == |log|
    ensures forall i :: 0 <= i < |log| ==> xs[i] == log[i].timer
  {
    if log == [] then [] else [log[0].timer] + TimersOf(log[1..])
  }

  lemma DoKeeps<T>(s: Timers<T>, e: Step<T>)
    requires Inv(s) && StepOk(s, e)
    ensures Inv(Do(s, e)) && Do(s, e).now >= s.now && Do(s, e).orders >= s.orders
  {
    hide Inv, Expired, Without;
    match e
    case ArmStep(t, to, us) => ArmKeeps(s, t, to, us);
    case DisarmStep(to) => DisarmKeeps(s, to);
    case MoveStep(t) => MoveDueKeeps(s, t);
    case FireStep => FireKeeps(s);
  }

  /** Everything that is or will be listed comes after `a` in the firing order. */
  predicate AllAfter<T>(a: Armed<T>, s: Timers<T>) {
    a.expiry <= s.now && a.order < s.orders && Follows(a, s.due + s.pending)
  }

  lemma DoKeepsAfter<T>(a: Armed<T>, s: Timers<T>, e: Step<T>)
    requires Inv(s) && StepOk(s, e) && AllAfter(a, s)
    ensures AllAfter(a, Do(s, e))
  {
    hide Inv, Arm, Disarm, Before, Expired, IsArmed;
    var xs := s.due + s.pending;
    match e
    case ArmStep(t, to, us) =>
      var p := ArmInserts(s, t, to, us);
      AfterInsert(a, xs, p, Armed(to, t + us, s.orders), s.now);
    case DisarmStep(to) =>
      var i := DisarmDrops(s, to);
      AfterRemove(a, xs, i);
    case MoveStep(t) =>
      MoveDueList(s, t);
    case FireStep =>
      FireKeeps(s);
      AfterTail(a, s.due[0], Fire(s).due + Fire(s).pending);
  }

  predicate Follows<T>(a: Armed<T>, xs: seq<Armed<T>>) {
    forall i :: 0 <= i < |xs| ==> Before(a, xs[i])
  }

  lemma AfterInsert<T>(a: Armed<T>, xs: seq<Armed<T>>, p: nat, b: Armed<T>, now: int)
    requires Follows(a, xs) && p <= |xs| && a.expiry <= now <= b.expiry && a.order < b.order
    ensures Follows(a, xs[..p] + [b] + xs[p..])
  {
    var ys := xs[..p] + [b] + xs[p..];
    assert forall i :: 0 <= i < |ys| ==> ys[i] == if i < p then xs[i] else if i == p then b else xs[i - 1];
  }

  lemma AfterRemove<T>(a: Armed<T>, xs: seq<Armed<T>>, i: nat)
    requires Follows(a, xs) && i < |xs|
    ensures Follows(a, xs[..i] + xs[i + 1..])
  {
    hide Before;
    var ys := xs[..i] + xs[i + 1..];
    assert forall j :: 0 <= j < |ys| ==> ys[j] == if j < i then xs[j] else xs[j + 1];
  }

  lemma AfterTail<T>(a: Armed<T>, x: Armed<T>, xs: seq<Armed<T>>)
    requires Follows(a, [x] + xs)
    ensures Follows(a, xs)
  {
    hide Before;
    assert forall i :: 0 <= i < |xs| ==> xs[i] == ([x] + xs)[i + 1];
  }

  /** Arming inserts one entry into the firing order. */
  lemma ArmInserts<T>(s: Timers<T>, t: int, to: T, us: nat) returns (p: nat)
    ensures var s', xs := Arm(s, t, to, us), s.due + s.pending;
            && p <= |xs| && s'.due + s'.pending == xs[..p] + [Armed(to, t + us, s.orders)] + xs[p..]
            && s'.now == t && s'.orders == s.orders + 1
  {
    hide Expired, MoveDue, Inserted;
    var s1, b := MoveDue(s, t), Armed(to, t + us, s.orders);
    MoveDueList(s, t);
    InsertedAt(s1.due, s1.pending, b);
    p := |s1.due| + Expired(s1.pending, b.expiry);
  }

  /** Disarming drops one entry from the firing order. */
  lemma DisarmDrops<T>(s: Timers<T>, to: T) returns (i: nat)
    requires Inv(s) && IsArmed(s, to)
    ensures var s', xs := Disarm(s, to), s.due + s.pending;
            && i < |xs| && s'.due + s'.pending == xs[..i] + xs[i + 1..]
            && s'.now == s.now && s'.orders == s.orders
  {
    hide InOrder, Distinct, Numbered, Timely;
    i :| 0 <= i < |s.due + s.pending| && (s.due + s.pending)[i].to == to;
    DisarmRemoves(s, to, i);
  }

  /** Shots yet to come are after `a`, too. */
  lemma {:induction false} LogAfter<T>(a: Armed<T>, s: Timers<T>, steps: seq<Step<T>>)
    requires Inv(s) && RunOk(s, steps) && AllAfter(a, s)
    ensures forall i :: 0 <= i < |Log(s, steps)| ==> Before(a, Log(s, steps)[i].timer)
    ensures AllAfter(a, Run(s, steps))
    decreases steps
  {
    hide Inv, StepOk, Do, Before;
    if steps != [] {
      DoKeeps(s, steps[0]);
      DoKeepsAfter(a, s, steps[0]);
      LogAfter(a, Do(s, steps[0]), steps[1..]);
      if Fired(s, steps[0]) != [] {
        assert s.due[0] == (s.due + s.pending)[0];
      }
    }
  }

  /** Firing order: over every run, timers fire one after the other by expiry, ties
      in the order of arming; no timer fires before it expires; an arming fires at
      most once; and whatever is still listed fires later than all that have. */
  lemma {:induction false} FiringOrder<T>(s: Timers<T>, steps: seq<Step<T>>)
    requires Inv(s) && RunOk(s, steps)
    ensures Inv(Run(s, steps))
    ensures InOrder(TimersOf(Log(s, steps)))
    ensures forall i :: 0 <= i < |Log(s, steps)| ==>
              Log(s, steps)[i].timer.expiry <= Log(s, steps)[i].at && AllAfter(Log(s, steps)[i].timer, Run(s, steps))
    decreases steps
  {
    hide Inv, StepOk, Do, Before, AllAfter;
    if steps != [] {
      var s1, first := Do(s, steps[0]), Fired(s, steps[0]);
      DoKeeps(s, steps[0]);
      FiringOrder(s1, steps[1..]);
      if first != [] {
        var a := first[0].timer;
        FiredAfter(s, steps[0]);
        LogAfter(a, s1, steps[1..]);
      }
    }
  }

  lemma FiredAfter<T>(s: Timers<T>, e: Step<T>)
    requires Inv(s) && StepOk(s, e) && e.FireStep?
    ensures s.due[0].expiry <= s.now && AllAfter(s.due[0], Do(s, e))
  {
    var xs := s.due + s.pending;
    assert xs[0] == s.due[0];
    assert Fire(s).due + Fire(s).pending == xs[1..];
    assert forall i :: 0 <= i < |xs[1..]| ==> xs[1..][i] == xs[i + 1];
  }

  /* ---------- no timer is lost ---------- */

  function ArmedNow<T(==)>(s: Timers<T>, e: Step<T>): multiset<Armed<T>> {
    if e.ArmStep? then multiset{Armed(e.to, e.t + e.us, s.orders)} else multiset{}
  }

  /** What a step takes out by disarming. */
  function DisarmedNow<T(==)>(s: Timers<T>, e: Step<T>): multiset<Armed<T>> {
    if e.DisarmStep? then multiset(s.due + s.pending) - multiset(Do(s, e).due + Do(s, e).pending) else multiset{}
  }

  function AllArmed<T(==)>(s: Timers<T>, steps: seq<Step<T>>): multiset<Armed<T>>
    decreases steps
  {
    if steps == [] then multiset{} else ArmedNow(s, steps[0]) + AllArmed(Do(s, steps[0]), steps[1..])
  }

  function AllDisarmed<T(==)>(s: Timers<T>, steps: seq<Step<T>>): multiset<Armed<T>>
    decreases steps
  {
    if steps == [] then multiset{} else DisarmedNow(s, steps[0]) + AllDisarmed(Do(s, steps[0]), steps[1..])
  }

  lemma DoAccounts<T>(s: Timers<T>, e: Step<T>)
    requires Inv(s) && StepOk(s, e)
    ensures multiset(s.due + s.pending) + ArmedNow(s, e)
         == multiset(Do(s, e).due + Do(s, e).pending) + DisarmedNow(s, e) + multiset(TimersOf(Fired(s, e)))
  {
    hide Inv, Do, IsArmed, TimersOf, DisarmedNow;
    NoneFired(Fired(s, e));
    match e
    case ArmStep(t, to, us) => ArmAccounts(s, t, to, us);
    case DisarmStep(to) => DisarmAccounts(s, to);
    case MoveStep(t) => MoveAccounts(s, t);
    case FireStep => FireAccounts(s);
  }

  lemma ArmAccounts<T>(s: Timers<T>, t: int, to: T, us: nat)
    ensures var e := ArmStep(t, to, us);
            && multiset(Do(s, e).due + Do(s, e).pending) == multiset(s.due + s.pending) + ArmedNow(s, e)
            && DisarmedNow(s, e) == multiset{}
  {
    hide Arm;
    var p := ArmInserts(s, t, to, us);
    InsertBag(s.due + s.pending, p, Armed(to, t + us, s.orders));
  }

  lemma DisarmAccounts<T>(s: Timers<T>, to: T)
    requires Inv(s) && IsArmed(s, to)
    ensures var e := DisarmStep(to);
            multiset(Do(s, e).due + Do(s, e).pending) + DisarmedNow(s, e) == multiset(s.due + s.pending)
  {
    hide Inv, Disarm, IsArmed;
    var i := DisarmDrops(s, to);
    RemoveBag(s.due + s.pending, i);
  }

  lemma MoveAccounts<T>(s: Timers<T>, t: int)
    ensures var e := MoveStep(t);
            Do(s, e).due + Do(s, e).pending == s.due + s.pending && DisarmedNow(s, e) == multiset{}
  {
    hide MoveDue;
    MoveDueList(s, t);
  }

  lemma FireAccounts<T>(s: Timers<T>)
    requires Inv(s) && s.due != []
    ensures multiset(s.due + s.pending) == multiset(Do(s, FireStep).due + Do(s, FireStep).pending) + multiset{s.due[0]}
    ensures DisarmedNow(s, FireStep) == multiset{}
  {
    hide Inv;
    FireKeeps(s);
    FirstBag(s.due[0], Fire(s).due + Fire(s).pending);
  }

  lemma NoneFired<T>(log: seq<Shot<T>>)
    ensures log == [] ==> multiset(TimersOf(log)) == multiset{}
    ensures |log| == 1 ==> multiset(TimersOf(log)) == multiset{log[0].timer}
  {
    if |log| == 1 {
      assert TimersOf(log) == [log[0].timer];
    }
  }

  lemma FirstBag<T>(x: T, xs: seq<T>)
    ensures multiset([x] + xs) == multiset(xs) + multiset{x}
  {
  }

  lemma InsertBag<T>(xs: seq<T>, p: nat, b: T)
    requires p <= |xs|
    ensures multiset(xs[..p] + [b] + xs[p..]) == multiset(xs) + multiset{b}
  {
    assert xs == xs[..p] + xs[p..];
  }

  lemma RemoveBag<T>(xs: seq<T>, i: nat)
    requires i < |xs|
    ensures var ys := xs[..i] + xs[i + 1..];
            multiset(ys) + (multiset(xs) - multiset(ys)) == multiset(xs)
  {
    assert xs == xs[..i] + [xs[i]] + xs[i + 1..];
  }

  lemma {:induction false} TimersOfConcat<T>(l1: seq<Shot<T>>, l2: seq<Shot<T>>)
    ensures TimersOf(l1 + l2) == TimersOf(l1) + TimersOf(l2)
  {
  }

  lemma Balance<T>(a: multiset<T>, x1: multiset<T>, b: multiset<T>, d1: multiset<T>, f1: multiset<T>,
                   x2: multiset<T>, c: multiset<T>, d2: multiset<T>, f2: multiset<T>)
    requires a + x1 == b + d1 + f1 && b + x2 == c + d2 + f2
    ensures a + (x1 + x2) == c + (d1 + d2) + (f1 + f2)
  {
    assert a + (x1 + x2) == (a + x1) + x2 == (b + d1 + f1) + x2 == (b + x2) + d1 + f1;
    assert (c + d2 + f2) + d1 + f1 == c + (d1 + d2) + (f1 + f2);
  }

  /** Every arming is accounted for: it has fired, was disarmed, or is still listed. */
  lemma {:induction false} NoTimerLost<T>(s: Timers<T>, steps: seq<Step<T>>)
    requires Inv(s) && RunOk(s, steps)
    ensures multiset(s.due + s.pending) + AllArmed(s, steps)
         == multiset(Run(s, steps).due + Run(s, steps).pending) + AllDisarmed(s, steps)
            + multiset(TimersOf(Log(s, steps)))
    decreases steps
  {
    hide Inv, StepOk, Do, DisarmedNow, ArmedNow, Fired, TimersOf;
    if steps != [] {
      DoKeeps(s, steps[0]);
      DoAccounts(s, steps[0]);
      var s1, e, f := Do(s, steps[0]), Run(s, steps), Fired(s, steps[0]);
      NoTimerLost(s1, steps[1..]);
      TimersOfConcat(f, Log(s1, steps[1..]));
      Balance(multiset(s.due + s.pending), ArmedNow(s, steps[0]), multiset(s1.due + s1.pending),
              DisarmedNow(s, steps[0]), multiset(TimersOf(f)), AllArmed(s1, steps[1..]),
              multiset(e.due + e.pending), AllDisarmed(s1, steps[1..]), multiset(TimersOf(Log(s1, steps[1..]))));
    }
  }
}
