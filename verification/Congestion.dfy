/**
 Congestion control arithmetic: the fast path's RTT estimate and the window update
 of window-based DCTCP with its ECN average (section 3.3 of RFC 8257). The rules are
 stated over unbounded numbers; the code works in 32 and 64 bits.
 */
module Congestion {
  import Basics
  import opened WrapTime

  const W32: nat := Basics.U32
  const W64: nat := Basics.U64
  const UINT32_MAX: nat := W32 - 1
  const INT32_MAX: nat := 0x7FFF_FFFF
  const INT16_MAX: nat := 0x7FFF
  const CONF_MSS: nat := 1400
  const TCP_MAX_RTT: nat := 100000

  /** Unsigned machine words. */
  function U32(x: int): nat {
    x % W32
  }

  function U64(x: int): nat {
    x % W64
  }

  lemma Fits32(x: nat)
    requires x < W32
    ensures U32(x) == x
  {
    ModUnique(W32, x, 0, x);
  }

  lemma Fits64(x: nat)
    requires x < W64
    ensures U64(x) == x
  {
    ModUnique(W64, x, 0, x);
  }

  lemma ProductBound(a: nat, b: nat, x: nat, y: nat)
    requires a <= x && b <= y
    ensures a * b <= x * y
  {
    assert x * y == a * y + (x - a) * y;
    assert a * y == a * b + a * (y - b);
  }

  lemma DivBounds(x: nat, m: nat, lo: nat, hi: nat)
    requires m > 0 && lo * m <= x <= hi * m
    ensures lo <= x / m <= hi
  {
    var q, r := x / m, x % m;
    assert x == q * m + r;
    assert (q + 1) * m == q * m + m;
    assert (hi + 1) * m == hi * m + m;
    if q < lo {
      ProductBound(q + 1, m, lo, m);
    }
    if q > hi {
      ProductBound(hi + 1, m, q, m);
    }
  }

  /* ---------- RTT estimate ---------- */

  /** One sample: ignored if out of range, taken as it is if it is the first. */
  function RttUpdated(est: nat, rtt: nat): nat {
    if rtt >= TCP_MAX_RTT then est else if est != 0 then U32(U32(est * 7) + rtt) / 8 else rtt
  }

  function RttAfter(est: nat, samples: seq<nat>): nat
    decreases |samples|
  {
    if samples == [] then est else RttAfter(RttUpdated(est, samples[0]), samples[1..])
  }

  /** Over any samples the estimate stays below 100000, so no sum wraps. */
  lemma {:induction false} RttBounded(est: nat, samples: seq<nat>)
    requires est < TCP_MAX_RTT
    ensures RttAfter(est, samples) < TCP_MAX_RTT
    decreases |samples|
  {
    if samples != [] {
      if est != 0 && samples[0] < TCP_MAX_RTT {
        Fits32(est * 7);
        Fits32(est * 7 + samples[0]);
      }
      RttBounded(RttUpdated(est, samples[0]), samples[1..]);
    }
  }

  /* ---------- ECN average ---------- */

  /** The weighted mean of a new fraction and the old average, as RFC 8257 has it. */
  function Ewma(fraction: nat, average: nat, weight: nat): int
    requires weight <= UINT32_MAX
  {
    (fraction * weight + average * (UINT32_MAX - weight)) / UINT32_MAX
  }

  /** The mean lies between the two. */
  lemma EwmaBetween(f: nat, a: nat, w: nat)
    requires w <= UINT32_MAX
    ensures var (lo, hi) := (if f <= a then f else a, if f <= a then a else f); lo <= Ewma(f, a, w) <= hi
  {
    var (lo, hi) := (if f <= a then f else a, if f <= a then a else f);
    var v := UINT32_MAX - w;
    ProductBound(lo, w, f, w);
    ProductBound(lo, v, a, v);
    ProductBound(f, w, hi, w);
    ProductBound(a, v, hi, v);
    assert lo * UINT32_MAX == lo * w + lo * v;
    assert hi * UINT32_MAX == hi * w + hi * v;
    DivBounds(f * w + a * v, UINT32_MAX, lo, hi);
  }

  /** In 64 bits nothing wraps. */
  lemma EwmaFits(f: nat, a: nat, w: nat)
    requires f <= UINT32_MAX && a <= UINT32_MAX && w <= UINT32_MAX
    ensures U64(U64(f * w) + U64(a * (UINT32_MAX - w))) == f * w + a * (UINT32_MAX - w)
  {
    hide U64;
    ProductsFit(f, a, w, UINT32_MAX - w);
  }

  lemma ProductsFit(f: nat, a: nat, w: nat, v: nat)
    requires f <= UINT32_MAX && a <= UINT32_MAX && w + v == UINT32_MAX
    ensures U64(U64(f * w) + U64(a * v)) == f * w + a * v
  {
    hide U64;
    ProductBound(f, w, UINT32_MAX, w);
    ProductBound(a, v, UINT32_MAX, v);
    SumFits(f * w, a * v, w, v);
  }

  lemma SumFits(p: nat, q: nat, w: nat, v: nat)
    requires p <= UINT32_MAX * w && q <= UINT32_MAX * v && w + v == UINT32_MAX
    ensures U64(U64(p) + U64(q)) == p + q
  {
    Fits64(p);
    Fits64(q);
    Fits64(p + q);
  }

  /** The share of marked bytes, scaled to 32 bits. */
  function Fraction(marked: nat, acked: nat): (f: nat)
    requires acked > 0
    ensures f <= UINT32_MAX
  {
    var m := if marked <= acked then marked else acked;
    ProductBound(m, UINT32_MAX, acked, UINT32_MAX);
    DivBounds(m * UINT32_MAX, acked, 0, UINT32_MAX);
    m * UINT32_MAX / acked
  }

  /* ---------- the window rule ---------- */

  datatype Win = Win(window: nat, ecnRate: nat, slowstart: bool)
  datatype Stats = Stats(acked: nat, marked: nat, drops: nat, rtt: nat)

  /** A window of at least one segment, which may exceed the send buffer at first. */
  predicate WinOk(w: Win) {
    CONF_MSS <= w.window < W32 && w.ecnRate <= UINT32_MAX
  }

  predicate StatsOk(s: Stats) {
    s.acked < W32 && s.marked < W32 && s.drops < 0x1_0000 && s.rtt < TCP_MAX_RTT
  }

  /** Marks beyond the acknowledged bytes do not count, unless nothing was
      acknowledged. */
  function Marked(s: Stats): (m: nat)
    ensures m <= s.marked
  {
    if s.acked > 0 && s.marked > s.acked then s.acked else s.marked
  }

  predicate Congested(s: Stats, rexmits: nat) {
    s.drops > 0 || s.marked > 0 || rexmits > 0
  }

  function Clamped(window: nat, buffer: nat): nat {
    var w := if window < CONF_MSS then CONF_MSS else window;
    if w > buffer then buffer else w
  }

  /** Adds unless the window would no longer fit 32 bits. */
  function Grown(window: nat, more: nat): nat {
    if window + more < W32 then window + more else window
  }

  function EcnRate(average: nat, s: Stats, weight: nat): int
    requires weight <= UINT32_MAX
  {
    if s.acked > 0 then Ewma(Fraction(s.marked, s.acked), average, weight) else average
  }

  /** The window reduced by half the average fraction of marks. */
  function Reduced(window: nat, ecnRate: int): int {
    window * (UINT32_MAX - ecnRate / 2) / UINT32_MAX
  }

  /** An ECN cut leaves at least half the window, and never adds to it. */
  lemma ReducedHalf(window: nat, ecnRate: nat)
    requires ecnRate <= UINT32_MAX
    ensures window / 2 <= Reduced(window, ecnRate) <= window
  {
    var k := UINT32_MAX - ecnRate / 2;
    assert 2 * k >= UINT32_MAX;
    ProductBound(window, k, window, UINT32_MAX);
    assert window / 2 * UINT32_MAX <= window * k by {
      ProductBound(window / 2, UINT32_MAX, window / 2, 2 * k);
      ProductBound(2 * (window / 2), k, window, k);
      assert window / 2 * (2 * k) == 2 * (window / 2) * k;
    }
    DivBounds(window * k, UINT32_MAX, window / 2, window);
  }

  /** One update of the window. */
  function Updated(w: Win, s: Stats, rexmits: nat, buffer: nat, weight: nat): (r: Win)
    requires WinOk(w) && StatsOk(s) && weight <= UINT32_MAX
  {
    if w.slowstart && !Congested(s, rexmits) then
      Win(Clamped(Grown(w.window, s.acked), buffer), w.ecnRate, true)
    else if s.drops > 0 || rexmits > 0 then
      Win(Clamped(w.window / 2, buffer), w.ecnRate, false)
    else
      EcnRateOk(w.ecnRate, s, weight);
      var rate: nat := EcnRate(w.ecnRate, s, weight);
      ReducedHalf(w.window, rate);
      Win(Clamped(if Marked(s) > 0 then Reduced(w.window, rate)
                  else Grown(w.window, Increment(s.acked, w.window)), buffer),
          rate, false)
  }

  lemma EcnRateOk(average: nat, s: Stats, weight: nat)
    requires average <= UINT32_MAX && weight <= UINT32_MAX
    ensures 0 <= EcnRate(average, s, weight) <= UINT32_MAX
  {
    if s.acked > 0 {
      EwmaBetween(Fraction(s.marked, s.acked), average, weight);
    }
  }

  /** About one segment per window of acknowledged bytes. */
  function Increment(acked: nat, window: nat): (i: nat)
    requires window >= CONF_MSS
    ensures i <= acked
  {
    ProductBound(acked, CONF_MSS, acked, window);
    DivBounds(acked * CONF_MSS, window, 0, acked);
    acked * CONF_MSS / window
  }

  /** What one update does to the window, whatever the statistics: it ends between one
      segment and the send buffer, loses at most half, grows at most by the bytes
      acknowledged, and shrinks only on a sign of congestion or to fit the buffer. */
  lemma UpdatedKeeps(w: Win, s: Stats, rexmits: nat, buffer: nat, weight: nat)
    requires WinOk(w) && StatsOk(s) && weight <= UINT32_MAX && CONF_MSS <= buffer < W32
    ensures var r := Updated(w, s, rexmits, buffer, weight);
            && WinOk(r) && r.window <= buffer
            && Basics.Min(w.window / 2, buffer) <= r.window <= w.window + s.acked
            && (!Congested(s, rexmits) ==> r.window >= Basics.Min(w.window, buffer))
            && (!w.slowstart ==> !r.slowstart)
  {
    hide EcnRate, Reduced, Increment;
    EcnRateOk(w.ecnRate, s, weight);
    ReducedHalf(w.window, EcnRate(w.ecnRate, s, weight));
  }

  /** The last clamp can undo the first: one segment is kept exactly if the send
      buffer holds one. */
  lemma SegmentKeptExactly(window: nat, buffer: nat)
    ensures Clamped(window, buffer) >= CONF_MSS <==> buffer >= CONF_MSS
  {
  }

  function Run(w: Win, steps: seq<(Stats, nat)>, buffer: nat, weight: nat): (r: Win)
    requires WinOk(w) && weight <= UINT32_MAX && CONF_MSS <= buffer < W32
    requires forall i :: 0 <= i < |steps| ==> StatsOk(steps[i].0)
    ensures WinOk(r) && (steps != [] ==> r.window <= buffer)
    decreases |steps|
  {
    if steps == [] then w else
      UpdatedKeeps(w, steps[0].0, steps[0].1, buffer, weight);
      Run(Updated(w, steps[0].0, steps[0].1, buffer, weight), steps[1..], buffer, weight)
  }

  /** Over every run without congestion the window never shrinks, but to fit the
      buffer. */
  lemma {:induction false} RunGrows(w: Win, steps: seq<(Stats, nat)>, buffer: nat, weight: nat)
    requires WinOk(w) && weight <= UINT32_MAX && CONF_MSS <= buffer < W32
    requires forall i :: 0 <= i < |steps| ==> StatsOk(steps[i].0)
    requires forall i :: 0 <= i < |steps| ==> !Congested(steps[i].0, steps[i].1)
    ensures Run(w, steps, buffer, weight).window >= Basics.Min(w.window, buffer)
    decreases |steps|
  {
    hide Updated;
    if steps != [] {
      UpdatedKeeps(w, steps[0].0, steps[0].1, buffer, weight);
      RunGrows(Updated(w, steps[0].0, steps[0].1, buffer, weight), steps[1..], buffer, weight);
    }
  }

  /* ---------- window and rate ---------- */

  /** Unsigned division. */
  function Div(x: nat, m: nat): (q: nat)
    requires m > 0
    ensures q * m <= x
  {
    assert x == x / m * m + x % m;
    x / m
  }

  /** The time to send one window in nanoseconds: what the link needs, but not less
      than the round trip. */
  function SendTime(window: nat, rtt: nat, bandwidth: nat): nat
    requires bandwidth > 0
  {
    var time := Div(window * 8 * 1000, bandwidth) / 1000;
    if time < rtt * 1000 then rtt * 1000 else time
  }

  function Rate(window: nat, rtt: nat, bandwidth: nat): nat
    requires bandwidth > 0 && rtt > 0
  {
    var rate := Div(window * 8 * 1000000, SendTime(window, rtt, bandwidth));
    if rate > UINT32_MAX then UINT32_MAX else rate
  }

  /** At this rate no more than the window is sent in a round trip. */
  lemma RateWithinWindow(window: nat, rtt: nat, bandwidth: nat)
    requires bandwidth > 0 && rtt > 0
    ensures Rate(window, rtt, bandwidth) * (rtt * 1000) <= window * 8 * 1000000
  {
    hide Div;
    var time, bits := SendTime(window, rtt, bandwidth), window * 8 * 1000000;
    ProductBound(Rate(window, rtt, bandwidth), rtt * 1000, Div(bits, time), time);
  }

  /** The sender's side of a connection, in machine words. */
  class Connection {
    const buffer: nat
    const weight: nat
    const bandwidth: nat
    const rttInit: nat
    var window: nat
    var ecnRate: nat
    var slowstart: bool
    var rate: nat
    var rtt: nat
    var rexmits: nat

    ghost predicate Valid()
      reads this
    {
      && WinOk(Win(window, ecnRate, slowstart)) && CONF_MSS <= buffer < W32 && weight <= UINT32_MAX
      && 0 < bandwidth && 0 < rttInit < TCP_MAX_RTT
    }

    /** The window after slow start or additive increase. */
    method Grow(win: nat, more: nat) returns (win': nat)
      requires win < W32 && more < W32
      ensures win' == Grown(win, more)
    {
      win' := win;
      Wraps(win, more);
      if U32(win + more) > win {
        win' := U32(win + more);
      }
    }

    /** The ECN average after some bytes were acknowledged. */
    method Average(marked: nat, acked: nat) returns (average: nat)
      requires Valid() && marked <= acked < W32 && acked > 0
      ensures average == Ewma(Fraction(marked, acked), ecnRate, weight) <= UINT32_MAX
    {
      hide U64, Ewma;
      FractionFits(marked, acked);
      var f := U64(marked * UINT32_MAX) / acked;
      EwmaFits(f, ecnRate, weight);
      EwmaBetween(f, ecnRate, weight);
      EwmaIs(f, ecnRate, weight);
      average := U64(U64(f * weight) + U64(ecnRate * (UINT32_MAX - weight))) / UINT32_MAX;
    }

    /** The ECN average and the window in congestion avoidance without drops. */
    method Avoid(s: Stats) returns (win: nat)
      requires Valid() && StatsOk(s)
      modifies this`ecnRate
      ensures ecnRate == EcnRate(old(ecnRate), s, weight) <= UINT32_MAX
      ensures win == if Marked(s) > 0 then Reduced(window, ecnRate) else Grown(window, Increment(s.acked, window))
    {
      hide U64, Grown, Ewma, Fraction, Reduced, Increment;
      var marked := s.marked;
      if s.acked > 0 {
        marked := if marked <= s.acked then marked else s.acked;
        FractionCapped(s.marked, s.acked);
        ecnRate := Average(marked, s.acked);
      }
      if marked > 0 {
        ReducedFits(window, ecnRate);
        win := U64(window * (UINT32_MAX - ecnRate / 2)) / UINT32_MAX;
      } else {
        IncrementFits(s.acked, window);
        win := Grow(window, U64(s.acked * CONF_MSS) / window);
      }
    }

    method WindowToRate(win: nat, rt: nat) returns (r: nat)
      requires Valid() && win < W32 && 0 < rt < TCP_MAX_RTT
      ensures r == Rate(win, rt, bandwidth)
    {
      hide U32, U64, Div;
      Fits64(win * 8 * 1000);
      Fits32(rt * 1000);
      Fits64(win * 8 * 1000000);
      var time := Div(U64(win * 8 * 1000), bandwidth) / 1000;
      if time < U32(rt * 1000) {
        time := U32(rt * 1000);
      }
      r := Div(U64(win * 8 * 1000000), time);
      if r > UINT32_MAX {
        r := UINT32_MAX;
      }
    }

    /** One update; 32- and 64-bit arithmetic gives what the rule says. */
    method WinUpdate(s: Stats)
      requires Valid() && StatsOk(s)
      modifies this
      ensures Valid() && rexmits == 0 && rtt == (if s.rtt == 0 then rttInit else s.rtt)
      ensures Win(window, ecnRate, slowstart)
           == Updated(Win(old(window), old(ecnRate), old(slowstart)), s, old(rexmits), buffer, weight)
      ensures rate == Rate(window, rtt, bandwidth)
    {
      hide EcnRate, Reduced, Increment, Grown, Rate, U32, U64;
      ghost var w := Win(window, ecnRate, slowstart);
      UpdatedKeeps(w, s, rexmits, buffer, weight);
      var rt := if s.rtt == 0 then rttInit else s.rtt;
      var win := window;
      if slowstart {
        if s.drops == 0 && s.marked == 0 && rexmits == 0 {
          win := Grow(win, s.acked);
        } else {
          slowstart := false;
        }
      }
      if !slowstart {
        if s.drops > 0 || rexmits > 0 {
          win := win / 2;
        } else {
          win := Avoid(s);
        }
      }
      if win < CONF_MSS {
        win := CONF_MSS;
      }
      if win > buffer {
        win := buffer;
      }
      rtt := rt;
      rate := WindowToRate(win, rt);
      window := win;
      rexmits := 0;
    }
  }

  lemma FractionFits(marked: nat, acked: nat)
    requires 0 < acked < W32 && marked <= acked
    ensures U64(marked * UINT32_MAX) / acked == Fraction(marked, acked)
  {
    ProductBound(marked, UINT32_MAX, UINT32_MAX, UINT32_MAX);
    Fits64(marked * UINT32_MAX);
  }

  lemma FractionCapped(marked: nat, acked: nat)
    requires acked > 0
    ensures Fraction(marked, acked) == Fraction(if marked <= acked then marked else acked, acked)
  {
  }

  lemma EwmaIs(f: nat, a: nat, w: nat)
    requires w <= UINT32_MAX
    ensures Ewma(f, a, w) == (f * w + a * (UINT32_MAX - w)) / UINT32_MAX
  {
  }

  lemma ReducedFits(window: nat, ecnRate: nat)
    requires window < W32 && ecnRate <= UINT32_MAX
    ensures U64(window * (UINT32_MAX - ecnRate / 2)) / UINT32_MAX == Reduced(window, ecnRate) >= 0
  {
    ProductBound(window, UINT32_MAX - ecnRate / 2, UINT32_MAX, UINT32_MAX);
    Fits64(window * (UINT32_MAX - ecnRate / 2));
    ReducedHalf(window, ecnRate);
  }

  lemma IncrementFits(acked: nat, window: nat)
    requires acked < W32 && window >= CONF_MSS
    ensures U64(acked * CONF_MSS) / window == Increment(acked, window)
  {
    Fits64(acked * CONF_MSS);
  }

  lemma Wraps(win: nat, more: nat)
    requires win < W32 && more < W32
    ensures U32(win + more) == if win + more < W32 then win + more else win + more - W32
  {
    if win + more < W32 {
      Fits32(win + more);
    } else {
      ModUnique(W32, win + more, 1, win + more - W32);
    }
  }
}
