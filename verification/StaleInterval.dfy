/**
 A new flow takes over the out-of-order interval its slot of the flow table was
 left with: exactly when bytes that never arrived are delivered because of it.
 */
module StaleInterval {
  import opened Basics
  import opened Trim
  import opened Reassembly

  predicate CarriedBy(events: seq<Event>, x: nat) {
    exists i :: 0 <= i < |events| && Carries(events[i], x)
  }

  /** Whatever arrives, only bytes that came in a segment are delivered. */
  ghost predicate DeliversOnlyCarried(r: Rcv, cap: nat, total: nat)
    requires r.read <= r.next
  {
    forall events, x: nat | EventsOk(events, total) && x < Run(r, cap, events).next :: CarriedBy(events, x)
  }

  /** A flow of `total` bytes with a window of `cap` can run into `len` left-over bytes
      at `at`. Either they begin inside the window; or they begin at its end, and are so
      long together with what may be held in front of them that their length does not
      fit 16 bits; or they begin no later than the first byte and go on behind it, and
      their length through 16 bits, perhaps after more has been held behind them, reaches
      past the first byte. */
  predicate RunsInto(at: int, len: nat, cap: nat, total: nat) {
    && len > 0 && cap > 0 && total > 0 && at <= total
    && (|| 0 < at < cap
        || (at == cap && len + cap > U16)
        || (at <= 0 && at + len > 1 && (cap > 1 || len >= U16)
            && (1 - at <= len % U16 || (1 - at < U16 && len - len % U16 < Min(cap, total)))))
  }

  /* ---------- harmless intervals ---------- */

  /** Nothing delivered yet; only the left-over interval and what joined it is held. */
  predicate Asleep(r: Rcv, at: int, len: nat, cap: nat, total: nat) {
    && r.next == 0 && r.read == 0 && !r.fin && r.oooLen > 0
    && if at > 0
       then 0 < r.oooAt <= at && r.oooAt + r.oooLen == at + len && (r.oooAt < at ==> at <= Min(cap, total))
       else r.oooAt == at && r.oooLen >= len && (r.oooLen > len ==> at + len > 0 && at + r.oooLen <= Min(cap, total))
  }

  /** Position `x` is delivered or held, and not as part of the left-over interval. */
  predicate Fresh(r: Rcv, at: int, len: nat, x: nat) {
    Has(r, x) && !(at <= x < at + len)
  }

  lemma AsleepCutLow(r: Rcv, at: int, len: nat, cap: nat, total: nat, n: nat, x: nat)
    requires Asleep(r, at, len, cap, total) && len > 0 && at <= 0 && !RunsInto(at, len, cap, total)
    requires 0 < n <= cap && n <= total
    ensures var c := CaughtUp(r.(next := n), cap);
            RcvInv(c, cap, total) && !c.fin && c.read == 0 && c.next >= n
            && (Has(c, x) ==> x < n || Fresh(r, at, len, x))
  {
  }

  lemma AsleepCutHigh(r: Rcv, at: int, len: nat, cap: nat, total: nat, n: nat, x: nat)
    requires Asleep(r, at, len, cap, total) && len > 0 && 0 < at <= total && !RunsInto(at, len, cap, total)
    requires 0 < n <= cap && n <= total
    ensures var c := CaughtUp(r.(next := n), cap);
            RcvInv(c, cap, total) && !c.fin && c.read == 0 && c.next >= n
            && (Has(c, x) ==> x < n || Fresh(r, at, len, x))
  {
  }

  /** The first delivery ends the left-over interval. */
  lemma AsleepOnSegment(r: Rcv, at: int, len: nat, cap: nat, total: nat, e: Event, x: nat)
    requires Asleep(r, at, len, cap, total) && len > 0 && at <= total && !RunsInto(at, len, cap, total)
    requires e.Segment? && EventOk(e, total)
    ensures var r' := OnEvent(r, cap, e);
            || (RcvInv(r', cap, total) && (Has(r', x) ==> Fresh(r, at, len, x) || Carries(e, x)))
            || (Asleep(r', at, len, cap, total) && (Fresh(r', at, len, x) ==> Fresh(r, at, len, x) || Carries(e, x)))
  {
    hide CaughtUp;
    assert at <= 0 || at >= cap;
    match IdealCut(e.at, e.len, cap)
    case Drop =>
    case Keep(start, end) =>
      var n := e.len - (start + end);
      if e.at + start == 0 && n > 0 {
        if at <= 0 {
          AsleepCutLow(r, at, len, cap, total, n, x);
        } else {
          AsleepCutHigh(r, at, len, cap, total, n, x);
        }
      }
  }

  lemma {:induction false} AsleepRun(r: Rcv, at: int, len: nat, cap: nat, total: nat, events: seq<Event>, x: nat)
    requires Asleep(r, at, len, cap, total) && len > 0 && at <= total && !RunsInto(at, len, cap, total)
    requires EventsOk(events, total) && x < Run(r, cap, events).next
    ensures Fresh(r, at, len, x) || CarriedBy(events, x)
    decreases events
  {
    hide OnSegment, RunsInto;
    var e, rest := events[0], events[1..];
    var r' := OnEvent(r, cap, e);
    if e.Segment? {
      AsleepOnSegment(r, at, len, cap, total, e, x);
    }
    if RcvInv(r', cap, total) && (Has(r', x) ==> Fresh(r, at, len, x) || Carries(e, x)) {
      RunInventsNothing(r', cap, total, rest, x);
    } else {
      AsleepRun(r', at, len, cap, total, rest, x);
    }
    if !Carries(e, x) && CarriedBy(rest, x) {
      CarriedByRest(events, x);
    }
  }

  lemma CarriedByRest(events: seq<Event>, x: nat)
    requires events != [] && CarriedBy(events[1..], x)
    ensures CarriedBy(events, x)
  {
    var i :| 0 <= i < |events[1..]| && Carries(events[1..][i], x);
    assert Carries(events[i + 1], x);
  }

  /** What is held lies behind the end of the stream, where no segment reaches it. */
  predicate Beyond(r: Rcv, cap: nat, total: nat) {
    r.read <= r.next <= r.read + cap && r.next <= total && !r.fin && r.oooLen > 0 && r.oooAt > total
  }

  lemma BeyondStep(r: Rcv, cap: nat, total: nat, e: Event, x: nat)
    requires Beyond(r, cap, total) && EventOk(e, total)
    ensures var r' := OnEvent(r, cap, e);
            && (Beyond(r', cap, total) || (RcvInv(r', cap, total) && r'.oooLen == 0))
            && (x < r'.next ==> x < r.next || Carries(e, x))
  {
  }

  lemma {:induction false} BeyondRun(r: Rcv, cap: nat, total: nat, events: seq<Event>, x: nat)
    requires Beyond(r, cap, total) && EventsOk(events, total) && x < Run(r, cap, events).next
    ensures x < r.next || CarriedBy(events, x)
    decreases events
  {
    hide OnSegment;
    if events != [] {
      var e, rest := events[0], events[1..];
      BeyondStep(r, cap, total, e, x);
      var r' := OnEvent(r, cap, e);
      if Beyond(r', cap, total) {
        BeyondRun(r', cap, total, rest, x);
      } else {
        RunInventsNothing(r', cap, total, rest, x);
      }
      if !Carries(e, x) && CarriedBy(rest, x) {
        CarriedByRest(events, x);
      }
    }
  }

  lemma NotRunInto(at: int, len: nat, cap: nat, total: nat)
    requires !RunsInto(at, len, cap, total)
    ensures DeliversOnlyCarried(Rcv(0, 0, at, len, false), cap, total)
  {
    hide Run, RunsInto;
    var r := Rcv(0, 0, at, len, false);
    forall events, x: nat | EventsOk(events, total) && x < Run(r, cap, events).next
      ensures CarriedBy(events, x)
    {
      if len == 0 {
        RunInventsNothing(r, cap, total, events, x);
      } else if at > total {
        BeyondRun(r, cap, total, events, x);
      } else {
        AsleepRun(r, at, len, cap, total, events, x);
      }
    }
  }

  /* ---------- harmful intervals ---------- */

  /** Positions `n` to `at`, one segment each. */
  function OneByOne(n: nat, at: nat): (es: seq<Event>)
    requires n <= at
    ensures |es| == at - n && forall i :: 0 <= i < |es| ==> es[i] == Segment(n + i, 1, false)
    decreases at - n
  {
    if n == at then [] else [Segment(n, 1, false)] + OneByOne(n + 1, at)
  }

  /** What is left of an interval once it has been cut to `room`, the length being
      looked at through 16 bits. */
  function Kept(len: nat, room: nat): (k: nat)
    ensures k == len - (if len % U16 > room then len % U16 - room else 0)
    ensures k % U16 <= room && (len > 0 && room > 0 ==> k > 0)
  {
    if len % U16 > room then len / U16 * U16 + room else len
  }

  lemma OneByteStep(n: nat, at: nat, len: nat, cap: nat)
    requires n < at <= cap && len > 0
    ensures var r' := OnSegment(Rcv(n, 0, at, len, false), cap, n, 1, false);
            r' == if n + 1 < at || Kept(len, cap - at) == 0 then Rcv(n + 1, 0, at, Kept(len, cap - at), false)
                  else Rcv(at + Kept(len, cap - at), 0, at, 0, false)
  {
  }

  /** The bytes in front of an interval, one at a time, deliver it. */
  lemma {:induction false} DeliveredOneByOne(n: nat, at: nat, len: nat, cap: nat)
    requires n < at <= cap && len > 0 && Kept(len, cap - at) > 0
    ensures Run(Rcv(n, 0, at, len, false), cap, OneByOne(n, at)).next == at + Kept(len, cap - at)
    decreases at - n
  {
    hide OnSegment;
    OneByteStep(n, at, len, cap);
    var es := OneByOne(n, at);
    assert es[1..] == OneByOne(n + 1, at);
    if n + 1 < at {
      DeliveredOneByOne(n + 1, at, Kept(len, cap - at), cap);
    } else {
      assert es[1..] == [];
    }
  }

  /** The run delivers a position that no segment brought. */
  lemma NotOnlyCarried(r: Rcv, cap: nat, total: nat, events: seq<Event>, x: nat)
    requires r.read <= r.next && EventsOk(events, total)
    requires x < Run(r, cap, events).next && !CarriedBy(events, x)
    ensures !DeliversOnlyCarried(r, cap, total)
  {
  }

  lemma RunIntoFromBelow(at: nat, len: nat, cap: nat, total: nat)
    requires 0 < at <= cap && at <= total && len > 0 && (at < cap || len >= U16)
    ensures !DeliversOnlyCarried(Rcv(0, 0, at, len, false), cap, total)
  {
    hide Run, DeliversOnlyCarried;
    DeliveredOneByOne(0, at, len, cap);
    NotOnlyCarried(Rcv(0, 0, at, len, false), cap, total, OneByOne(0, at), at);
  }

  /** Bytes held in front of the interval make its length a multiple of 2^16, so that
      it is not cut. */
  lemma RunIntoAtEnd(len: nat, cap: nat, total: nat)
    requires 0 < len < U16 < len + cap && cap <= total
    ensures !DeliversOnlyCarried(Rcv(0, 0, cap, len, false), cap, total)
  {
    hide Run, DeliversOnlyCarried;
    var r, at := Rcv(0, 0, cap, len, false), cap - (U16 - len);
    var e, es := Segment(at, U16 - len, false), OneByOne(0, at);
    assert OnEvent(r, cap, e) == Rcv(0, 0, at, U16, false);
    RunFirst(r, cap, e, es);
    DeliveredOneByOne(0, at, U16, cap);
    NotOnlyCarried(r, cap, total, [e] + es, cap);
  }

  lemma RunFirst(r: Rcv, cap: nat, e: Event, events: seq<Event>)
    requires r.read <= r.next <= r.read + cap
    ensures OnEvent(r, cap, e).read <= OnEvent(r, cap, e).next
    ensures Run(r, cap, [e] + events) == Run(OnEvent(r, cap, e), cap, events)
  {
    hide OnEvent;
    OnEventGrows(r, cap, e);
    assert ([e] + events)[1..] == events;
  }

  /** The first byte alone, with an interval that still reaches past it. */
  lemma FirstByteDelivers(at: int, len: nat, cap: nat)
    requires at <= 0 && at + len > 1 && 1 - at <= len % U16
    requires cap > 1 || (cap == 1 && len >= U16)
    ensures OnSegment(Rcv(0, 0, at, len, false), cap, 0, 1, false).next > 1
  {
  }

  /** Bytes held behind the interval bring its length, through 16 bits, past the first
      byte. */
  lemma RunIntoFromAbove(at: int, len: nat, cap: nat, total: nat)
    requires RunsInto(at, len, cap, total) && at <= 0
    ensures !DeliversOnlyCarried(Rcv(0, 0, at, len, false), cap, total)
  {
    hide Run, DeliversOnlyCarried;
    var r, first := Rcv(0, 0, at, len, false), Segment(0, 1, false);
    if 1 - at <= len % U16 {
      FirstByteDelivers(at, len, cap);
      RunFirst(r, cap, first, []);
      NotOnlyCarried(r, cap, total, [first] + [], 1);
    } else {
      var k := 1 - at - len % U16;
      var e := Segment(at + len, k, false);
      var r' := Rcv(0, 0, at, len + k, false);
      assert OnEvent(r, cap, e) == r';
      assert (len + k) % U16 == 1 - at;
      FirstByteDelivers(at, len + k, cap);
      RunFirst(r', cap, first, []);
      RunFirst(r, cap, e, [first] + []);
      NotOnlyCarried(r, cap, total, [e] + ([first] + []), 1);
    }
  }

  /** A flow that starts with the interval its slot was left with, wherever that lies
      and however long it is, delivers only bytes that arrive if and only if it cannot
      run into the interval. */
  lemma StaleIntervalHarmlessExactly(at: int, len: nat, cap: nat, total: nat)
    ensures DeliversOnlyCarried(Rcv(0, 0, at, len, false), cap, total) <==> !RunsInto(at, len, cap, total)
  {
    hide DeliversOnlyCarried;
    if !RunsInto(at, len, cap, total) {
      NotRunInto(at, len, cap, total);
    } else if at <= 0 {
      RunIntoFromAbove(at, len, cap, total);
    } else if at < cap || len >= U16 {
      RunIntoFromBelow(at, len, cap, total);
    } else {
      RunIntoAtEnd(len, cap, total);
    }
  }

  /** Position `x` is in the interval, behind the first byte and inside the window. */
  predicate InTheWay(at: int, len: nat, cap: nat, x: int) {
    at <= x < at + len && 0 < x < cap
  }

  /** While interval and window together fit 16 bits, the interval is harmless if and
      only if it misses the positions strictly between the first byte and the end of
      the window, or the stream is too short to reach it. */
  lemma ShortStaleIntervalHarmlessExactly(at: int, len: nat, cap: nat, total: nat)
    requires len + cap <= U16
    ensures DeliversOnlyCarried(Rcv(0, 0, at, len, false), cap, total) <==>
            total == 0 || total < at || forall x :: !InTheWay(at, len, cap, x)
  {
    hide DeliversOnlyCarried;
    StaleIntervalHarmlessExactly(at, len, cap, total);
    assert RunsInto(at, len, cap, total) ==> InTheWay(at, len, cap, if at > 0 then at else 1);
  }

  /** An interval left over from the slot's last flow is delivered as if it had been
      received: ten bytes arrive, fifteen are delivered. */
  lemma StaleIntervalIsDelivered()
    ensures var r := Rcv(next := 0, read := 0, oooAt := 10, oooLen := 5, fin := false);
            RcvInv(r, 100, 100) && OnSegment(r, 100, 0, 10, false).next == 15
  {
  }
}
