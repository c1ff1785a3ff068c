/**
 The epoll object: bindings linked into an active queue with both ends and an
 inactive list with its head only, and the operations that move them.
 */
module Epolls {
  import opened Basics
  import opened EpollSpec

  class Socket {
    var epEvents: Events
  }

  class Binding {
    const s: Socket
    var mask: Events
    var active: bool
    var next: Binding?
    var prev: Binding?

    constructor (s: Socket, mask: Events)
      ensures this.s == s && this.mask == mask && !active
    {
      this.s, this.mask, active, next, prev := s, mask, false, null, null;
    }
  }

  function NodeAt(xs: seq<Binding>, i: int): Binding? {
    if 0 <= i < |xs| then xs[i] else null
  }

  /** The links of the nodes spell the list `xs`. */
  ghost predicate Linked(xs: seq<Binding>)
    reads xs`next, xs`prev
  {
    && (forall i {:trigger xs[i].next} :: 0 <= i < |xs| ==> xs[i].next == NodeAt(xs, i + 1))
    && (forall i {:trigger xs[i].prev} :: 0 <= i < |xs| ==> xs[i].prev == NodeAt(xs, i - 1))
  }

  function Cut(xs: seq<Binding>, k: nat): (ys: seq<Binding>)
    requires k < |xs|
    ensures |ys| == |xs| - 1
  {
    xs[..k] + xs[k + 1..]
  }

  /** Bindings and their sockets carry these masks and pending events, each binding
      with a socket of its own. */
  ghost predicate Carry(repr: set<Binding>, mask: map<Binding, Events>, pending: map<Binding, Events>)
    reads repr`mask, (set b | b in repr :: b.s)`epEvents
  {
    && mask.Keys == pending.Keys <= repr
    && (forall b :: b in mask ==> b.mask == mask[b])
    && (forall b :: b in mask ==> b.s.epEvents == pending[b])
    && (forall b, c :: b in mask && c in mask && b != c ==> b.s != c.s)
  }

  /* ---------- link surgery ---------- */

  /** Bridging the neighbours of a node takes it out. */
  lemma CutLinks(xs: seq<Binding>, k: nat)
    requires k < |xs|
    requires forall i {:trigger xs[i].next} :: 0 <= i < |xs| && i != k ==>
               xs[i].next == NodeAt(xs, if i == k - 1 then k + 1 else i + 1)
    requires forall i {:trigger xs[i].prev} :: 0 <= i < |xs| && i != k ==>
               xs[i].prev == NodeAt(xs, if i == k + 1 then k - 1 else i - 1)
    ensures Linked(Cut(xs, k))
    ensures NodeAt(Cut(xs, k), 0) == NodeAt(xs, if k == 0 then 1 else 0)
    ensures NodeAt(Cut(xs, k), |xs| - 2) == NodeAt(xs, if k == |xs| - 1 then k - 1 else |xs| - 1)
  {
    var ys := Cut(xs, k);
    assert forall i :: 0 <= i < |ys| ==> ys[i] == if i < k then xs[i] else xs[i + 1];
  }

  lemma CutParts(xs: seq<Binding>, ys: seq<Binding>, k: nat, repr: set<Binding>)
    requires k < |xs| && NoDup(xs) && AllIn(xs, repr)
    ensures NoDup(Cut(xs, k)) && AllIn(Cut(xs, k), repr) && xs[k] !in Cut(xs, k)
    ensures Apart(xs, ys) ==> Apart(Cut(xs, k), ys) && xs[k] !in ys
    ensures Apart(ys, xs) ==> Apart(ys, Cut(xs, k)) && xs[k] !in ys
  {
    var zs := Cut(xs, k);
    assert forall i :: 0 <= i < |zs| ==> zs[i] == if i < k then xs[i] else xs[i + 1];
  }

  lemma FrontLinks(xs: seq<Binding>, b: Binding)
    requires b.next == NodeAt(xs, 0) && b.prev == null
    requires forall i {:trigger xs[i].next} :: 0 <= i < |xs| ==> xs[i].next == NodeAt(xs, i + 1)
    requires forall i {:trigger xs[i].prev} :: 0 <= i < |xs| ==> xs[i].prev == if i == 0 then b else NodeAt(xs, i - 1)
    ensures Linked([b] + xs)
  {
    var ys := [b] + xs;
    assert forall i :: 0 <= i < |ys| ==> ys[i] == if i == 0 then b else xs[i - 1];
  }

  lemma BackLinks(xs: seq<Binding>, b: Binding)
    requires b.next == null && b.prev == NodeAt(xs, |xs| - 1)
    requires forall i {:trigger xs[i].next} :: 0 <= i < |xs| ==>
               xs[i].next == if i == |xs| - 1 then b else NodeAt(xs, i + 1)
    requires forall i {:trigger xs[i].prev} :: 0 <= i < |xs| ==> xs[i].prev == NodeAt(xs, i - 1)
    ensures Linked(xs + [b])
  {
    var ys := xs + [b];
    assert forall i :: 0 <= i < |ys| ==> ys[i] == if i == |xs| then b else xs[i];
  }

  lemma AddedParts(xs: seq<Binding>, ys: seq<Binding>, b: Binding, repr: set<Binding>)
    requires NoDup(xs) && AllIn(xs, repr) && b in repr && b !in xs && b !in ys
    ensures NoDup([b] + xs) && AllIn([b] + xs, repr) && NoDup(xs + [b]) && AllIn(xs + [b], repr)
    ensures Apart(xs, ys) ==> Apart(xs + [b], ys)
    ensures Apart(ys, xs) ==> Apart(ys, [b] + xs)
  {
  }

  lemma WithoutAt(xs: seq<Binding>, k: nat)
    requires NoDup(xs) && k < |xs|
    ensures Without(xs, xs[k]) == Cut(xs, k)
  {
    hide Index;
    assert Index(xs, xs[k]) == k;
  }

  class EpollObject {
    var inactive: Binding?
    var activeFirst: Binding?
    var activeLast: Binding?
    var numActive: nat

    ghost var acts: seq<Binding>
    ghost var rests: seq<Binding>
    ghost var repr: set<Binding>
    ghost var spec: Epoll<Binding>

    /** Both lists are well linked and share no node. */
    ghost predicate Links()
      reads this`inactive, this`activeFirst, this`activeLast, this`numActive, this`acts, this`rests, this`repr
      reads acts`next, acts`prev, rests`next, rests`prev
    {
      && Linked(acts) && activeFirst == NodeAt(acts, 0) && activeLast == NodeAt(acts, |acts| - 1) && numActive == |acts|
      && Linked(rests) && inactive == NodeAt(rests, 0)
      && NoDup(acts) && NoDup(rests) && Apart(acts, rests) && AllIn(acts, repr) && AllIn(rests, repr)
    }

    /** The lists and the flags are those of `spec`. */
    ghost predicate Queues()
      reads this`inactive, this`activeFirst, this`activeLast, this`numActive, this`acts, this`rests, this`repr
      reads acts`next, acts`prev, rests`next, rests`prev, acts`active, rests`active, this`spec
    {
      && Links() && spec.active == acts && spec.inactive == rests && Partition(spec)
      && (forall i :: 0 <= i < |acts| ==> acts[i].active)
      && (forall i :: 0 <= i < |rests| ==> !rests[i].active)
    }

    ghost predicate Valid()
      reads this, repr, set b | b in repr :: b.s
    {
      AllIn(acts, repr) && AllIn(rests, repr) && Queues() && Carry(repr, spec.mask, spec.pending) && Inv(spec)
    }

    constructor ()
      ensures Valid() && repr == {} && spec == Epoll([], [], map[], map[])
    {
      inactive, activeFirst, activeLast, numActive := null, null, null, 0;
      acts, rests, repr, spec := [], [], {}, Epoll([], [], map[], map[]);
    }

    /** Links the neighbours of a node in list `xs` to each other. */
    method Unhook(es: Binding, ghost xs: seq<Binding>, ghost ys: seq<Binding>, ghost k: nat)
      requires k < |xs| && xs[k] == es && Linked(xs) && Linked(ys)
      requires NoDup(xs) && (Apart(xs, ys) || Apart(ys, xs)) && AllIn(xs, repr)
      modifies repr`next, repr`prev
      ensures Linked(Cut(xs, k)) && Linked(ys)
      ensures es.next == NodeAt(xs, k + 1) && es.prev == NodeAt(xs, k - 1)
      ensures NodeAt(Cut(xs, k), 0) == NodeAt(xs, if k == 0 then 1 else 0)
      ensures NodeAt(Cut(xs, k), |xs| - 2) == NodeAt(xs, if k == |xs| - 1 then k - 1 else |xs| - 1)
    {
      hide Cut;
      if es.prev != null {
        es.prev.next := es.next;
      }
      if es.next != null {
        es.next.prev := es.prev;
      }
      CutLinks(xs, k);
    }

    method RemoveInactive(es: Binding, ghost k: nat)
      requires Links() && k < |rests| && rests[k] == es
      modifies this`inactive, this`rests, repr`next, repr`prev
      ensures Links() && rests == Cut(old(rests), k) && es !in rests && es !in acts
    {
      hide Cut, Linked, NoDup, Apart, AllIn;
      ghost var (xs, ys) := (rests, acts);
      Unhook(es, xs, ys, k);
      if es.prev == null {
        inactive := es.next;
      }
      CutParts(xs, ys, k, repr);
      rests := Cut(xs, k);
    }

    method AddInactive(es: Binding)
      requires Links() && es in repr && es !in acts && es !in rests
      modifies this`inactive, this`rests, repr`next, repr`prev
      ensures Links() && rests == [es] + old(rests)
    {
      ghost var (xs, ys) := (rests, acts);
      es.prev := null;
      if inactive == null {
        es.next := null;
      } else {
        es.next := inactive;
        inactive.prev := es;
      }
      inactive := es;
      FrontLinks(xs, es);
      AddedParts(xs, ys, es, repr);
      rests := [es] + xs;
    }

    method RemoveActive(es: Binding, ghost k: nat)
      requires Links() && k < |acts| && acts[k] == es
      modifies this`activeFirst, this`activeLast, this`numActive, this`acts, repr`next, repr`prev
      ensures Links() && acts == Cut(old(acts), k) && es !in rests && es !in acts
    {
      hide Cut, Linked, NoDup, Apart, AllIn;
      ghost var (xs, ys) := (acts, rests);
      Unhook(es, xs, ys, k);
      if es.prev == null {
        activeFirst := es.next;
      }
      if es.next == null {
        activeLast := es.prev;
      }
      numActive := numActive - 1;
      CutParts(xs, ys, k, repr);
      acts := Cut(xs, k);
    }

    method AddActive(es: Binding)
      requires Links() && es in repr && es !in acts && es !in rests
      modifies this`activeFirst, this`activeLast, this`numActive, this`acts, repr`next, repr`prev
      ensures Links() && acts == old(acts) + [es]
    {
      ghost var (xs, ys) := (acts, rests);
      if activeLast == null {
        es.prev, es.next := null, null;
        activeFirst, activeLast := es, es;
      } else {
        es.next, es.prev := null, activeLast;
        activeLast.next := es;
        activeLast := es;
      }
      numActive := numActive + 1;
      BackLinks(xs, es);
      AddedParts(xs, ys, es, repr);
      acts := xs + [es];
    }

    method EsActivate(es: Binding)
      requires Queues() && es in spec.mask
      modifies this`inactive, this`rests, this`activeFirst, this`activeLast, this`numActive, this`acts, this`spec
      modifies repr`next, repr`prev, repr`active
      ensures Queues() && spec == Activate(old(spec), es)
    {
      hide Cut, Linked, Without, Index, Apart, Partition, NoDup;
      ActivateKeeps(spec, es);
      FlagTells(spec, es);
      if es.active {
        return;
      }
      ghost var k :| 0 <= k < |rests| && rests[k] == es;
      WithoutAt(rests, k);
      CutNodes(rests, k);
      RemoveInactive(es, k);
      es.active := true;
      AddActive(es);
      spec := Activate(spec, es);
    }

    method EsDeactivate(es: Binding)
      requires Queues() && es in spec.mask
      modifies this`inactive, this`rests, this`activeFirst, this`activeLast, this`numActive, this`acts, this`spec
      modifies repr`next, repr`prev, repr`active
      ensures Queues() && spec == Deactivated(old(spec), es)
    {
      hide Cut, Linked, Without, Index, Apart, Partition;
      DeactivatedKeeps(spec, es);
      FlagTells(spec, es);
      if !es.active {
        return;
      }
      ghost var k :| 0 <= k < |acts| && acts[k] == es;
      WithoutAt(acts, k);
      CutNodes(acts, k);
      RemoveActive(es, k);
      es.active := false;
      AddInactive(es);
      spec := Deactivated(spec, es);
    }

    method EsActivePushback(es: Binding)
      requires Queues() && es in spec.active
      modifies this`activeFirst, this`activeLast, this`numActive, this`acts, this`spec, repr`next, repr`prev
      ensures Queues() && spec == PushedBack(old(spec), es)
    {
      hide Cut, Linked, Without, Index, Apart, Partition;
      PushedBackKeeps(spec, es);
      ghost var k :| 0 <= k < |acts| && acts[k] == es;
      WithoutAt(acts, k);
      CutNodes(acts, k);
      RemoveActive(es, k);
      AddActive(es);
      spec := PushedBack(spec, es);
    }

    method EsRemoveEp(es: Binding)
      requires Queues() && es in spec.mask
      modifies this`inactive, this`rests, this`activeFirst, this`activeLast, this`numActive, this`acts, this`spec
      modifies repr`next, repr`prev
      ensures Queues() && spec == Del(old(spec), es)
    {
      hide Cut, Linked, Index, Without, Apart, Partition;
      DelPartition(spec, es);
      FlagTells(spec, es);
      OnlyThere(spec, es);
      if es.active {
        ghost var k :| 0 <= k < |acts| && acts[k] == es;
        WithoutAt(acts, k);
        CutNodes(acts, k);
        RemoveActive(es, k);
      } else {
        ghost var k :| 0 <= k < |rests| && rests[k] == es;
        WithoutAt(rests, k);
        CutNodes(rests, k);
        RemoveInactive(es, k);
      }
      spec := Del(spec, es);
    }

    /** Adds to the pending events of a binding's socket. */
    method AddPending(es: Binding, evts: Events)
      requires AllIn(acts, repr) && AllIn(rests, repr) && Queues() && Carry(repr, spec.mask, spec.pending)
      requires es in spec.mask
      modifies this`spec, es.s`epEvents
      ensures Queues() && Carry(repr, spec.mask, spec.pending)
      ensures es in old(spec).pending && es.s.epEvents == old(es.s.epEvents) + evts
      ensures spec == old(spec).(pending := old(spec).pending[es := old(spec).pending[es] + evts])
    {
      hide Links, Partition;
      es.s.epEvents := es.s.epEvents + evts;
      ghost var e := spec;
      spec := spec.(pending := spec.pending[es := spec.pending[es] + evts]);
      SamePartition(e, spec);
    }

    /** A socket of this epoll gets new events. */
    method RaiseEvents(es: Binding, evts: Events)
      requires Valid() && es in spec.mask
      modifies this, repr`next, repr`prev, repr`active, es.s`epEvents
      ensures Valid() && repr == old(repr) && spec == Raise(old(spec), es, evts)
      ensures es.s.epEvents == old(es.s.epEvents) + evts
    {
      hide Linked, NoDup, Apart, AllIn, Partition, Activate, Inv, Carry;
      RaiseKeeps(spec, es, evts);
      InvBound(spec);
      Carried(repr, spec.mask, spec.pending, es);
      var news := evts - es.s.epEvents;
      if news == {} {
        RaiseNothing(spec, es, evts);
        return;
      }
      AddPending(es, evts);
      ActivateFrame(spec, es);
      if news * es.mask != {} {
        EsActivate(es);
      }
    }

    /** Events of a socket have been dealt with. */
    method LowerEvents(es: Binding, evts: Events)
      requires Valid() && es in spec.mask
      modifies this`spec, es.s`epEvents
      ensures Valid() && spec == Lower(old(spec), es, evts)
      ensures es.s.epEvents == old(es.s.epEvents) - evts
    {
      hide Links, Partition, Inv;
      LowerKeeps(spec, es, evts);
      InvBound(spec);
      es.s.epEvents := es.s.epEvents - evts;
      ghost var e := spec;
      spec := Lower(spec, es, evts);
      SamePartition(e, spec);
    }

    /** Reports the first active binding and moves it to the end, or finds it not
        ready and moves it to the inactive list. */
    method TakeTurn() returns (out: seq<Report<Binding>>)
      requires Valid() && spec.active != []
      modifies this, repr`next, repr`prev, repr`active
      ensures Valid() && repr == old(repr) && Bound(old(spec)) && spec == Turn(old(spec))
      ensures out == Shown(old(spec))
    {
      hide Linked, NoDup, Apart, AllIn, Partition, Inv, Turn, Carry;
      InvBound(spec);
      TurnKeeps(spec);
      TurnIs(spec);
      var es := activeFirst;
      Carried(repr, spec.mask, spec.pending, es);
      if es.s.epEvents * es.mask != {} {
        out := [Report(es, es.s.epEvents * es.mask)];
        EsActivePushback(es);
      } else {
        out := [];
        EsDeactivate(es);
      }
    }

    /** Reports at most `maxEvents` ready bindings from the front of the queue, going
        through those that were active at the start at most once. */
    method PollTas(maxEvents: nat) returns (out: seq<Report<Binding>>)
      requires Valid()
      modifies this, repr`next, repr`prev, repr`active
      ensures Valid() && repr == old(repr) && Bound(old(spec)) && (spec, out) == Wait(old(spec), maxEvents)
    {
      hide Queues, Partition, Inv, Poll, Turn, Shown, Carry, AllIn;
      InvBound(spec);
      out := [];
      CountIs();
      var count := numActive;
      var i := 0;
      ghost var all := Poll(spec, count, maxEvents);
      while i < count && |out| < maxEvents
        invariant i <= count && |out| <= maxEvents && Valid() && repr == old(repr) && Bound(spec)
        invariant count - i <= |spec.active|
        invariant all.0 == Poll(spec, count - i, maxEvents - |out|).0
        invariant all.1 == out + Poll(spec, count - i, maxEvents - |out|).1
      {
        TurnKeeps(spec);
        InvBound(Turn(spec));
        PollStep(spec, count - i, maxEvents - |out|);
        var one := TakeTurn();
        Regrouped(out, one, Poll(spec, count - i - 1, maxEvents - |out + one|).1);
        out, i := out + one, i + 1;
      }
      PollStop(spec, count - i, maxEvents - |out|);
      assert out + [] == out;
    }

    /** The epoll may from now on link the binding. */
    ghost method Enroll(b: Binding)
      requires Valid()
      modifies this`repr
      ensures repr == old(repr) + {b} && AllIn(acts, repr) && AllIn(rests, repr) && Queues()
    {
      hide Linked, Partition, Inv, Apart, NoDup, AllIn, Carry;
      AllInMore(acts, repr, b);
      AllInMore(rests, repr, b);
      repr := repr + {b};
    }

    /** Puts a binding on the inactive list. */
    method Enter(b: Binding, ghost mask: Events)
      requires Queues() && b in repr && b !in spec.mask && !b.active
      modifies this`inactive, this`rests, this`spec, repr`next, repr`prev
      ensures Queues() && spec == Entered(old(spec), b, mask, b.s.epEvents)
    {
      hide Linked, Partition, Apart, NoDup, AllIn;
      EnteredPartition(spec, b, mask, b.s.epEvents);
      AddInactive(b);
      spec := Entered(spec, b, mask, b.s.epEvents);
    }

    /** Activates a binding that is ready. */
    method Wake(es: Binding)
      requires AllIn(acts, repr) && AllIn(rests, repr) && Queues() && Carry(repr, spec.mask, spec.pending)
      requires es in spec.mask && es in spec.pending && Inv(ActivateIf(spec, es))
      modifies this, repr`next, repr`prev, repr`active
      ensures Valid() && repr == old(repr) && spec == ActivateIf(old(spec), es)
    {
      hide Linked, NoDup, Apart, AllIn, Partition, Activate, Inv, Carry;
      ActivateFrame(spec, es);
      Carried(repr, spec.mask, spec.pending, es);
      if es.s.epEvents * es.mask != {} {
        EsActivate(es);
      }
    }

    method CtlAdd(s: Socket, mask: Events) returns (b: Binding)
      requires Valid() && forall c :: c in spec.mask ==> c.s != s
      modifies this, repr`next, repr`prev, repr`active
      ensures Valid() && fresh(b) && b.s == s && repr == old(repr) + {b}
      ensures spec == Add(old(spec), b, mask, s.epEvents)
    {
      hide Linked, NoDup, Apart, AllIn, Partition, Activate, Inv, Carry;
      ghost var e := spec;
      InvBound(spec);
      CarryKnows(repr, spec.mask, spec.pending);
      b := new Binding(s, mask + {Err});
      AddKeeps(e, b, mask, s.epEvents);
      CarryEntered(repr, spec.mask, spec.pending, b);
      Enroll(b);
      Enter(b, mask);
      Wake(b);
    }

    method NewMask(es: Binding, mask: Events)
      requires Valid() && es in spec.mask
      modifies this`spec, es`mask
      ensures AllIn(acts, repr) && AllIn(rests, repr) && Queues() && Carry(repr, spec.mask, spec.pending)
      ensures spec == old(spec).(mask := old(spec).mask[es := mask + {Err}])
    {
      hide Links, Partition, Inv;
      es.mask := mask + {Err};
      ghost var e := spec;
      spec := spec.(mask := spec.mask[es := mask + {Err}]);
      SamePartition(e, spec);
    }

    method CtlMod(es: Binding, mask: Events)
      requires Valid() && es in spec.mask
      modifies this, repr`next, repr`prev, repr`active, es`mask
      ensures Valid() && repr == old(repr) && es in old(spec).pending && spec == Mod(old(spec), es, mask)
    {
      hide Linked, NoDup, Apart, AllIn, Partition, Activate, Inv, Carry;
      InvBound(spec);
      ModKeeps(spec, es, mask);
      NewMask(es, mask);
      Wake(es);
    }

    method CtlDel(es: Binding)
      requires Valid() && es in spec.mask
      modifies this, repr`next, repr`prev
      ensures Valid() && repr == old(repr) && spec == Del(old(spec), es)
    {
      hide Linked, NoDup, Apart, Partition, Inv, Without;
      DelKeeps(spec, es);
      EsRemoveEp(es);
    }

    /** Adds, changes or removes the binding of a socket; `es` is its binding here, if
        it has one. */
    method EpollCtl(op: CtlOp, s: Socket, es: Binding?, events: Events, memory: bool) returns (err: Errno, b: Binding?)
      requires Valid()
      requires if es == null then forall c :: c in spec.mask ==> c.s != s else es in spec.mask && es.s == s
      modifies this, repr`next, repr`prev, repr`active, repr`mask
      ensures Valid()
      ensures err != NoError ==> spec == old(spec)
      ensures err == CtlError(op, es != null, events, memory)
      ensures err == NoError ==>
                var m := events - {EdgeTriggered};
                match op
                case CtlAdd => b != null && b.s == s && fresh(b) && spec == Add(old(spec), b, m, s.epEvents)
                case CtlMod => es in old(spec).pending && spec == Mod(old(spec), es, m)
                case CtlDel => spec == Del(old(spec), es)
                case CtlOther => false
    {
      hide Add, Mod, Del, Links, Partition, Inv;
      b := null;
      var m := events - {EdgeTriggered};
      if op.CtlAdd? || op.CtlMod? {
        if m - SUPPORTED != {} {
          return EINVAL, null;
        }
      }
      match op {
        case CtlAdd =>
          if es != null {
            return EEXIST, null;
          }
          if !memory {
            return ENOMEM, null;
          }
          b := CtlAdd(s, m);
        case CtlMod =>
          if es == null {
            return ENOENT, null;
          }
          CtlMod(es, m);
        case CtlDel =>
          if es == null {
            return ENOENT, null;
          }
          CtlDel(es);
        case CtlOther =>
          return EINVAL, null;
      }
      return NoError, b;
    }

    lemma CountIs()
      requires Valid()
      ensures numActive == |spec.active|
    {
    }
  }

  datatype CtlOp = CtlAdd | CtlMod | CtlDel | CtlOther
  datatype Errno = NoError | EINVAL | EEXIST | ENOENT | ENOMEM

  /** Which requests are refused, and why. */
  function CtlError(op: CtlOp, bound: bool, events: Events, memory: bool): Errno {
    var foreign := !(events <= SUPPORTED + {EdgeTriggered});
    match op
    case CtlAdd => if foreign then EINVAL else if bound then EEXIST else if !memory then ENOMEM else NoError
    case CtlMod => if foreign then EINVAL else if !bound then ENOENT else NoError
    case CtlDel => if !bound then ENOENT else NoError
    case CtlOther => EINVAL
  }

  /** A binding that has been added but not yet looked at. */
  ghost function Entered(e: Epoll<Binding>, b: Binding, mask: Events, pending: Events): Epoll<Binding> {
    e.(inactive := [b] + e.inactive, mask := e.mask[b := mask + {Err}], pending := e.pending[b := pending])
  }

  lemma EnteredPartition(e: Epoll<Binding>, b: Binding, mask: Events, pending: Events)
    requires Partition(e) && b !in e.mask
    ensures Partition(Entered(e, b, mask, pending)) && b !in e.active && b !in e.inactive
  {
  }

  lemma CarryKnows(repr: set<Binding>, mask: map<Binding, Events>, pending: map<Binding, Events>)
    requires Carry(repr, mask, pending)
    ensures forall b :: b in mask ==> b in repr
  {
  }

  lemma CarryEntered(repr: set<Binding>, mask: map<Binding, Events>, pending: map<Binding, Events>, b: Binding)
    requires Carry(repr, mask, pending) && b !in mask && forall c :: c in mask ==> c.s != b.s
    ensures Carry(repr + {b}, mask[b := b.mask], pending[b := b.s.epEvents])
  {
  }

  lemma AllInMore(xs: seq<Binding>, repr: set<Binding>, b: Binding)
    requires AllIn(xs, repr)
    ensures AllIn(xs, repr + {b})
  {
  }

  lemma Carried(repr: set<Binding>, mask: map<Binding, Events>, pending: map<Binding, Events>, es: Binding)
    requires Carry(repr, mask, pending) && es in mask
    ensures es in pending && es.mask == mask[es] && es.s.epEvents == pending[es]
  {
  }

  lemma PollStop(e: Epoll<Binding>, left: nat, room: nat)
    requires Bound(e) && left <= |e.active| && (left == 0 || room == 0)
    ensures Poll(e, left, room) == (e, [])
  {
  }

  /** What the first active binding contributes to a poll. */
  function Shown(e: Epoll<Binding>): (out: seq<Report<Binding>>)
    requires Bound(e) && e.active != []
    ensures |out| <= 1
  {
    var t := e.active[0];
    if Ready(e, t) then [Report(t, e.pending[t] * e.mask[t])] else []
  }

  lemma PollStep(e: Epoll<Binding>, left: nat, room: nat)
    requires Bound(e) && 0 < left <= |e.active| && room > 0
    requires Bound(Turn(e)) && left - 1 <= |Turn(e).active|
    ensures var r := Poll(Turn(e), left - 1, room - |Shown(e)|);
            Poll(e, left, room).0 == r.0 && Poll(e, left, room).1 == Shown(e) + r.1
  {
    hide Turn;
  }

  lemma Regrouped(a: seq<Report<Binding>>, b: seq<Report<Binding>>, c: seq<Report<Binding>>)
    ensures a + (b + c) == (a + b) + c
  {
  }

  lemma TurnIs(e: Epoll<Binding>)
    requires Partition(e) && e.active != []
    ensures Turn(e) == if Ready(e, e.active[0]) then PushedBack(e, e.active[0]) else Deactivated(e, e.active[0])
  {
    hide Without;
    WithoutAt(e.active, 0);
    assert Cut(e.active, 0) == e.active[1..];
  }

  lemma OnlyThere(e: Epoll<Binding>, es: Binding)
    requires Partition(e) && es in e.mask
    ensures es in e.active ==> Without(e.inactive, es) == e.inactive
    ensures es in e.inactive ==> Without(e.active, es) == e.active
  {
    hide Without;
    if es in e.active {
      WithoutNone(e.inactive, es);
    } else {
      WithoutNone(e.active, es);
    }
  }

  lemma RaiseNothing(e: Epoll<Binding>, es: Binding, evts: Events)
    requires es in e.mask && es in e.pending && evts - e.pending[es] == {}
    ensures Raise(e, es, evts) == e
  {
    assert evts == (evts - e.pending[es]) + evts * e.pending[es];
    assert e.pending[es] + evts == e.pending[es];
    assert e.pending[es := e.pending[es] + evts] == e.pending;
  }

  lemma SamePartition(e: Epoll<Binding>, e': Epoll<Binding>)
    requires Partition(e) && e'.active == e.active && e'.inactive == e.inactive
    requires e'.mask.Keys == e.mask.Keys && e'.pending.Keys == e.pending.Keys
    ensures Partition(e')
  {
    assert forall b :: b in e'.mask <==> b in e.mask;
  }

  function Deactivated(e: Epoll<Binding>, es: Binding): Epoll<Binding> {
    if es in e.active then e.(active := Without(e.active, es), inactive := [es] + e.inactive) else e
  }

  function PushedBack(e: Epoll<Binding>, es: Binding): Epoll<Binding> {
    e.(active := Without(e.active, es) + [es])
  }

  lemma DeactivatedKeeps(e: Epoll<Binding>, es: Binding)
    requires Partition(e) && es in e.mask
    ensures Partition(Deactivated(e, es))
  {
    hide Without;
    WithoutKeeps(e.active, es);
  }

  lemma PushedBackKeeps(e: Epoll<Binding>, es: Binding)
    requires Partition(e) && es in e.active
    ensures Partition(PushedBack(e, es))
  {
    hide Without;
    WithoutKeeps(e.active, es);
  }

  lemma DelPartition(e: Epoll<Binding>, es: Binding)
    requires Partition(e) && es in e.mask
    ensures Partition(Del(e, es))
  {
    hide Without;
    WithoutKeeps(e.active, es);
    WithoutKeeps(e.inactive, es);
  }

  lemma CutNodes(xs: seq<Binding>, k: nat)
    requires k < |xs|
    ensures forall i :: 0 <= i < |xs| - 1 ==> Cut(xs, k)[i] in xs
  {
  }

  lemma FlagTells(e: Epoll<Binding>, es: Binding)
    requires Partition(e) && es in e.mask
    requires forall i :: 0 <= i < |e.active| ==> e.active[i].active
    requires forall i :: 0 <= i < |e.inactive| ==> !e.inactive[i].active
    ensures es.active <==> es in e.active
    ensures !es.active <==> es in e.inactive
  {
  }
}
