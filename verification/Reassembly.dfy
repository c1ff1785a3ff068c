/**
 TCP receive reassembly in stream positions: bytes delivered in order, and one
 interval of bytes received out of order.
 */
module Reassembly {
  import opened Basics
  import opened Trim

  /** `next` bytes have been delivered, `read` of them read by the application;
      positions `oooAt` to `oooAt + oooLen` are held out of order; `fin` is set
      once the end of the stream has been taken. A flow may start with an interval
      that lies before its first byte. */
  datatype Rcv = Rcv(next: nat, read: nat, oooAt: int, oooLen: nat, fin: bool)

  /** The end of the stream takes up one sequence number. */
  function NextPos(r: Rcv): nat {
    r.next + (if r.fin then 1 else 0)
  }

  function Window(r: Rcv, cap: nat): nat
    requires r.read <= r.next <= r.read + cap
  {
    r.read + cap - r.next
  }

  predicate RcvInv(r: Rcv, cap: nat, total: nat) {
    && r.read <= r.next <= r.read + cap && r.next <= total
    && (r.oooLen > 0 ==> r.next < r.oooAt && r.oooAt + r.oooLen <= r.read + cap && r.oooAt + r.oooLen <= total)
    && (r.fin ==> r.next == total && r.oooLen == 0)
  }

  /** A segment cut from a stream of `total` bytes. */
  predicate FromStream(at: nat, len: nat, fin: bool, total: nat) {
    len < U16 && at + len <= total && (fin ==> at + len == total)
  }

  /** Holds a segment that starts beyond the next expected byte, if it is adjacent
      to what is held already. */
  function Held(r: Rcv, at: nat, len: nat): Rcv {
    if len == 0 then r
    else if r.oooLen == 0 then r.(oooAt := at, oooLen := len)
    else if at + len == r.oooAt then r.(oooAt := at, oooLen := r.oooLen + len)
    else if r.oooAt + r.oooLen == at then r.(oooLen := r.oooLen + len)
    else r
  }

  /** After `next` has moved on: drops, cuts or delivers what is held. The length
      held is looked at through 16 bits. */
  function CaughtUp(r: Rcv, cap: nat): Rcv
    requires r.read <= r.next <= r.read + cap
  {
    if r.oooLen == 0 then r else
    match IdealCut(r.oooAt - r.next, r.oooLen % U16, Window(r, cap))
    case Drop => r.(oooLen := 0)
    case Keep(start, end) =>
      var held := r.(oooAt := r.oooAt + start, oooLen := r.oooLen - (start + end));
      if held.oooLen > 0 && held.oooAt == r.next
      then held.(next := r.next + held.oooLen, oooLen := 0) else held
  }

  /** Takes the first `len` bytes from `next` on, then what is held behind them. */
  function Delivered(r: Rcv, cap: nat, len: nat): Rcv
    requires r.read <= r.next && r.next + len <= r.read + cap
  {
    if len == 0 then r else CaughtUp(r.(next := r.next + len), cap)
  }

  /** Takes the end of the stream if it is next and nothing is held. */
  function FinTaken(r: Rcv, end: nat, fin: bool): Rcv {
    if fin && !r.fin && r.next == end && r.oooLen == 0 then r.(fin := true) else r
  }

  /** The receiver's answer to the segment of `len` bytes at position `at`. */
  function OnSegment(r: Rcv, cap: nat, at: nat, len: nat, fin: bool): Rcv
    requires r.read <= r.next <= r.read + cap
  {
    match IdealCut(at - NextPos(r), len, Window(r, cap))
    case Drop => r
    case Keep(start, end) =>
      var at', len' := at + start, len - (start + end);
      if at' != NextPos(r) then Held(r, at', len')
      else if r.fin && len' > 0 then r
      else FinTaken(Delivered(r, cap, len'), at + len, fin)
  }

  function OnRead(r: Rcv, n: nat): Rcv {
    if n <= r.next - r.read then r.(read := r.read + n) else r
  }

  /* ---------- what every step keeps ---------- */

  /** RcvInv, but `next` may have moved into or past what is held. */
  predicate Advanced(r: Rcv, cap: nat, total: nat) {
    && r.read <= r.next <= r.read + cap && r.next <= total && !r.fin
    && (r.oooLen > 0 ==> r.read < r.oooAt && r.oooAt + r.oooLen <= r.read + cap && r.oooAt + r.oooLen <= total)
  }

  lemma CaughtUpKeeps(r: Rcv, cap: nat, total: nat)
    requires Advanced(r, cap, total)
    ensures RcvInv(CaughtUp(r, cap), cap, total)
    ensures CaughtUp(r, cap).read == r.read && CaughtUp(r, cap).next >= r.next && !CaughtUp(r, cap).fin
  {
  }

  /** A segment never takes delivered bytes back, and leaves what is held strictly
      ahead of the next byte, inside the window and inside the stream. */
  lemma OnSegmentKeeps(r: Rcv, cap: nat, total: nat, at: nat, len: nat, fin: bool)
    requires RcvInv(r, cap, total) && FromStream(at, len, fin, total)
    ensures var r' := OnSegment(r, cap, at, len, fin);
            && RcvInv(r', cap, total)
            && r'.read == r.read && r'.next >= r.next && (r.fin ==> r' == r)
  {
    hide CaughtUp;
    match IdealCut(at - NextPos(r), len, Window(r, cap))
    case Drop =>
    case Keep(start, end) =>
      var len' := len - (start + end);
      if at + start == NextPos(r) && !r.fin && len' > 0 {
        CaughtUpKeeps(r.(next := r.next + len'), cap, total);
      }
  }

  /** The branches of `OnSegment`, with what each may rely on. */
  lemma OnSegmentCases(r: Rcv, cap: nat, total: nat, at: nat, len: nat, fin: bool)
    requires RcvInv(r, cap, total) && FromStream(at, len, fin, total)
    ensures var r' := OnSegment(r, cap, at, len, fin);
            match IdealCut(at - NextPos(r), len, Window(r, cap))
            case Drop => r' == r && (len > 0 || at != NextPos(r))
            case Keep(start, end) =>
              && start + end <= len
              && var n := len - (start + end);
                 && (at + start != NextPos(r) ==>
                       NextPos(r) < at + start && at + start + n <= r.read + cap
                       && r' == Held(r, at + start, n) && (len > 0 || at != NextPos(r)) && r'.fin == r.fin)
                 && (at + start == NextPos(r) ==>
                       && (n > 0 ==> len > 0) && (r.fin ==> n == 0) && r.next + n <= r.read + cap
                       && (len == 0 ==> at == NextPos(r))
                       && r' == FinTaken(Delivered(r, cap, n), at + len, fin))
    ensures OnSegment(r, cap, at, len, fin).next >= r.next
  {
    hide CaughtUp;
    OnSegmentKeeps(r, cap, total, at, len, fin);
  }

  /** Position `x` has been delivered or is held. */
  predicate Has(r: Rcv, x: nat) {
    x < r.next || (r.oooLen > 0 && r.oooAt <= x < r.oooAt + r.oooLen)
  }

  /** Nothing is invented: a position that appears was in the segment. */
  lemma NothingInvented(r: Rcv, cap: nat, total: nat, at: nat, len: nat, fin: bool, x: nat)
    requires RcvInv(r, cap, total) && FromStream(at, len, fin, total)
    requires Has(OnSegment(r, cap, at, len, fin), x)
    ensures Has(r, x) || at <= x < at + len
  {
  }

  /** Nothing is lost, as long as what is held is shorter than 2^16. */
  lemma NothingLost(r: Rcv, cap: nat, total: nat, at: nat, len: nat, fin: bool, x: nat)
    requires RcvInv(r, cap, total) && FromStream(at, len, fin, total) && r.oooLen < U16
    requires Has(r, x)
    ensures Has(OnSegment(r, cap, at, len, fin), x)
  {
  }

  /** Delivery loses held bytes if and only if the delivered part ends inside the
      interval, but beyond its end as seen through 16 bits; so it never does while
      the interval is shorter than 2^16. */
  lemma CaughtUpLosesExactly(r: Rcv, cap: nat, total: nat)
    requires Advanced(r, cap, total)
    ensures (forall x :: Has(r, x) ==> Has(CaughtUp(r, cap), x)) <==>
            !(r.oooAt + r.oooLen % U16 < r.next < r.oooAt + r.oooLen)
  {
    if r.oooAt + r.oooLen % U16 < r.next < r.oooAt + r.oooLen {
      assert Has(r, r.next) && !Has(CaughtUp(r, cap), r.next);
    }
  }

  /** Three bytes delivered in front of an interval of 65537 that starts at position 1
      drop the whole interval, and position 3 with it. */
  lemma LongIntervalDropped()
    ensures var r := Rcv(next := 0, read := 0, oooAt := 1, oooLen := 65537, fin := false);
            && RcvInv(r, 70000, 70000) && FromStream(0, 3, false, 70000)
            && Has(r, 3) && !Has(OnSegment(r, 70000, 0, 3, false), 3)
  {
  }

  /** A segment that contains the next byte is delivered as far as it fits. */
  lemma Progress(r: Rcv, cap: nat, total: nat, at: nat, len: nat, fin: bool)
    requires RcvInv(r, cap, total) && FromStream(at, len, fin, total)
    requires !r.fin && at <= r.next < at + len
    ensures var r' := OnSegment(r, cap, at, len, fin);
            r'.next >= (if at + len <= r.read + cap then at + len else r.read + cap)
  {
    hide CaughtUp;
    var len' := if at + len <= r.read + cap then at + len - r.next else r.read + cap - r.next;
    if len' > 0 {
      CaughtUpKeeps(r.(next := r.next + len'), cap, total);
    }
  }

  /** A segment that starts beyond the next byte delivers nothing, and a byte of it is
      held afterwards exactly if it was there already, or lies in the window and the
      segment starts an interval or adjoins the one held, on either side. */
  lemma HeldExactly(r: Rcv, cap: nat, total: nat, at: nat, len: nat, fin: bool, x: nat)
    requires RcvInv(r, cap, total) && FromStream(at, len, fin, total)
    requires !r.fin && r.next < at <= x < at + len
    ensures var r' := OnSegment(r, cap, at, len, fin);
            && r'.next == r.next && r'.read == r.read && !r'.fin
            && (Has(r', x) <==>
                  || Has(r, x)
                  || (x < r.read + cap && (r.oooLen == 0 || at + len == r.oooAt || at == r.oooAt + r.oooLen)))
  {
  }

  /** The end of the stream is taken exactly if a segment carries it, starts no later
      than the next byte and ends in the window. */
  lemma FinTakenExactly(r: Rcv, cap: nat, total: nat, at: nat, len: nat, fin: bool)
    requires RcvInv(r, cap, total) && FromStream(at, len, fin, total)
    ensures OnSegment(r, cap, at, len, fin).fin <==> r.fin || (fin && at <= r.next && total <= r.read + cap)
  {
  }

  /** The end of the stream is taken at most once, only when every byte before it
      has been delivered and nothing is held. */
  lemma FinOnlyAtEnd(r: Rcv, cap: nat, total: nat, at: nat, len: nat, fin: bool)
    requires RcvInv(r, cap, total) && FromStream(at, len, fin, total)
    ensures var r' := OnSegment(r, cap, at, len, fin);
            !r.fin && r'.fin ==> fin && r'.next == total == at + len && r'.oooLen == 0
  {
    OnSegmentKeeps(r, cap, total, at, len, fin);
  }

  /* ---------- runs ---------- */

  datatype Event = Segment(at: nat, len: nat, fin: bool) | Read(n: nat)

  predicate EventOk(e: Event, total: nat) {
    e.Segment? ==> FromStream(e.at, e.len, e.fin, total)
  }

  function OnEvent(r: Rcv, cap: nat, e: Event): Rcv
    requires r.read <= r.next <= r.read + cap
  {
    match e
    case Segment(at, len, fin) => OnSegment(r, cap, at, len, fin)
    case Read(n) => OnRead(r, n)
  }

  lemma OnEventKeeps(r: Rcv, cap: nat, total: nat, e: Event)
    requires RcvInv(r, cap, total) && EventOk(e, total)
    ensures RcvInv(OnEvent(r, cap, e), cap, total) && OnEvent(r, cap, e).next >= r.next
    ensures OnEvent(r, cap, e).read >= r.read && (r.fin ==> OnEvent(r, cap, e).fin)
  {
    hide OnSegment;
    if e.Segment? {
      OnSegmentKeeps(r, cap, total, e.at, e.len, e.fin);
    }
  }

  /** Whatever is held, segments only add to what has been delivered. */
  lemma OnEventGrows(r: Rcv, cap: nat, e: Event)
    requires r.read <= r.next <= r.read + cap
    ensures OnEvent(r, cap, e).read <= OnEvent(r, cap, e).next && r.next <= OnEvent(r, cap, e).next
  {
  }

  /** Runs from any interval. Held bytes delivered beyond the window stand for the
      failed enqueue that aborts the program, so nothing follows them. */
  function Run(r: Rcv, cap: nat, events: seq<Event>): (r': Rcv)
    requires r.read <= r.next
    ensures r'.read <= r'.next && r.next <= r'.next
    decreases events
  {
    if events == [] || r.next > r.read + cap then r
    else
      OnEventGrows(r, cap, events[0]);
      Run(OnEvent(r, cap, events[0]), cap, events[1..])
  }

  predicate EventsOk(events: seq<Event>, total: nat) {
    forall i :: 0 <= i < |events| ==> EventOk(events[i], total)
  }

  /** Over every run what is held stays strictly ahead of the next byte, inside the
      window and inside the stream. */
  lemma {:induction false} RunKeeps(r: Rcv, cap: nat, total: nat, events: seq<Event>)
    requires RcvInv(r, cap, total) && EventsOk(events, total)
    ensures RcvInv(Run(r, cap, events), cap, total)
    decreases events
  {
    hide OnSegment;
    if events != [] {
      OnEventKeeps(r, cap, total, events[0]);
      RunKeeps(OnEvent(r, cap, events[0]), cap, total, events[1..]);
    }
  }

  predicate Carries(e: Event, x: nat) {
    e.Segment? && e.at <= x < e.at + e.len
  }

  /** Over any arrival order, loss, duplication and overlap, every position that
      ends up delivered or held was there at the start or came in a segment. */
  lemma {:induction false} RunInventsNothing(r: Rcv, cap: nat, total: nat, events: seq<Event>, x: nat)
    requires RcvInv(r, cap, total) && EventsOk(events, total)
    requires Has(Run(r, cap, events), x)
    ensures Has(r, x) || exists i :: 0 <= i < |events| && Carries(events[i], x)
    decreases events
  {
    hide OnSegment;
    if events != [] {
      var e := events[0];
      OnEventKeeps(r, cap, total, e);
      var r1 := OnEvent(r, cap, e);
      RunInventsNothing(r1, cap, total, events[1..], x);
      if Has(r1, x) {
        if e.Segment? {
          NothingInvented(r, cap, total, e.at, e.len, e.fin, x);
        }
        assert Has(r, x) || Carries(events[0], x);
      } else {
        var i :| 0 <= i < |events[1..]| && Carries(events[1..][i], x);
        assert Carries(events[i + 1], x);
      }
    }
  }

  /** With a window below 2^16, over any run nothing delivered or held is ever lost. */
  lemma {:induction false} RunLosesNothing(r: Rcv, cap: nat, total: nat, events: seq<Event>, x: nat)
    requires RcvInv(r, cap, total) && EventsOk(events, total) && cap < U16
    requires Has(r, x)
    ensures Has(Run(r, cap, events), x)
    decreases events
  {
    hide OnSegment;
    if events != [] {
      var e := events[0];
      OnEventKeeps(r, cap, total, e);
      if e.Segment? {
        NothingLost(r, cap, total, e.at, e.len, e.fin, x);
      }
      RunLosesNothing(OnEvent(r, cap, e), cap, total, events[1..], x);
    }
  }

  /** How far the events reach from position `n`, taking only segments that contain
      the position reached so far. */
  function Reached(events: seq<Event>, n: nat): nat {
    if events == [] then n
    else Reached(events[1..], if Carries(events[0], n) then events[0].at + events[0].len else n)
  }

  lemma {:induction false} ReachedInStream(events: seq<Event>, total: nat, n: nat)
    requires EventsOk(events, total) && n <= total
    ensures Reached(events, n) <= total
    decreases events
  {
    if events != [] {
      assert EventOk(events[0], total);
      ReachedInStream(events[1..], total, if Carries(events[0], n) then events[0].at + events[0].len else n);
    }
  }

  /** Retransmission works: over any run, whatever else arrives in between, all that
      a chain of segments covers is delivered, as far as the window reached at first. */
  lemma {:induction false} RunProgress(r: Rcv, cap: nat, total: nat, events: seq<Event>, n: nat)
    requires RcvInv(r, cap, total) && EventsOk(events, total) && n <= r.next
    ensures Run(r, cap, events).next >= Min(Reached(events, n), r.read + cap)
    decreases events
  {
    hide OnSegment;
    if r.fin {
      ReachedInStream(events, total, n);
    } else if events != [] {
      var e := events[0];
      OnEventKeeps(r, cap, total, e);
      if Carries(e, n) && r.next < e.at + e.len {
        Progress(r, cap, total, e.at, e.len, e.fin);
      }
      var n' := if Carries(e, n) then e.at + e.len else n;
      if n' <= OnEvent(r, cap, e).next {
        RunProgress(OnEvent(r, cap, e), cap, total, events[1..], n');
      }
    }
  }

  /** Held bytes are delivered once the gap in front of them is filled: over any run with
      a window below 2^16, if a chain of segments reaches position `n` and all from there
      to `b` was held or delivered at the start, all up to `b` is delivered at the end. */
  lemma RunDeliversHeld(r: Rcv, cap: nat, total: nat, events: seq<Event>, b: nat)
    requires RcvInv(r, cap, total) && EventsOk(events, total) && cap < U16
    requires forall x :: Reached(events, r.next) <= x < b ==> Has(r, x)
    requires Reached(events, r.next) <= b <= r.read + cap
    ensures Run(r, cap, events).next >= b
  {
    hide Run, Reached;
    RunKeeps(r, cap, total, events);
    RunProgress(r, cap, total, events, r.next);
    var r' := Run(r, cap, events);
    if r'.next < b {
      RunLosesNothing(r, cap, total, events, r'.next);
    }
  }

  /** A segment that arrives early is not sent again: once a chain of segments fills the
      gap in front of it, over any run, it is delivered too. */
  lemma EarlySegmentDelivered(r: Rcv, cap: nat, total: nat, at: nat, len: nat, fin: bool, events: seq<Event>)
    requires RcvInv(r, cap, total) && FromStream(at, len, fin, total) && EventsOk(events, total) && cap < U16
    requires !r.fin && r.next < at && 0 < len && at + len <= r.read + cap
    requires r.oooLen == 0 || at + len == r.oooAt || at == r.oooAt + r.oooLen
    requires at <= Reached(events, r.next)
    ensures Run(OnSegment(r, cap, at, len, fin), cap, events).next >= at + len
  {
    hide OnSegment, Run, Reached;
    OnSegmentKeeps(r, cap, total, at, len, fin);
    var r' := OnSegment(r, cap, at, len, fin);
    HeldExactly(r, cap, total, at, len, fin, at);
    forall x | at <= x < at + len ensures Has(r', x) {
      HeldExactly(r, cap, total, at, len, fin, x);
    }
    if Reached(events, r'.next) <= at + len {
      RunDeliversHeld(r', cap, total, events, at + len);
    } else {
      RunProgress(r', cap, total, events, r'.next);
    }
  }

  /** Two adjoining segments deliver the same bytes in either order. */
  lemma EitherOrder(r: Rcv, cap: nat, total: nat, len1: nat, len2: nat)
    requires RcvInv(r, cap, total) && !r.fin && r.oooLen == 0 && cap < U16 && 0 < len1 && 0 < len2
    requires r.next + len1 + len2 <= Min(total, r.read + cap)
    ensures var (a, b) := (Segment(r.next, len1, false), Segment(r.next + len1, len2, false));
            && Run(r, cap, [a, b]).next == Run(r, cap, [b, a]).next == r.next + len1 + len2
            && Run(r, cap, [a, b]).oooLen == Run(r, cap, [b, a]).oooLen == 0
  {
    var (a, b) := (Segment(r.next, len1, false), Segment(r.next + len1, len2, false));
    RunTwo(r, cap, a, b);
    RunTwo(r, cap, b, a);
  }

  lemma RunTwo(r: Rcv, cap: nat, a: Event, b: Event)
    requires r.read <= r.next <= r.read + cap
    ensures var r1 := OnEvent(r, cap, a);
            && r1.read <= r1.next
            && (r1.next <= r1.read + cap ==> Run(r, cap, [a, b]) == OnEvent(r1, cap, b))
  {
    hide OnEvent;
    OnEventGrows(r, cap, a);
    var r1 := OnEvent(r, cap, a);
    assert [a, b][1..] == [b] && [b][1..] == [];
    if r1.next <= r1.read + cap {
      OnEventGrows(r1, cap, b);
      assert Run(r1, cap, [b]) == OnEvent(r1, cap, b);
    }
  }
}
