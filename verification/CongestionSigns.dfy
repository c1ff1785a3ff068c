/**
 What each sign of congestion, and the lack of any, does to window and rate: bounds
 from both sides, strict where the sender has to slow down.
 */
module CongestionSigns {
  import opened Basics
  import opened C = Congestion
  import opened Timely

  /* ---------- quotients ---------- */

  /** The quotient is the largest number of whole parts. */
  lemma QuotientIs(x: nat, m: nat)
    requires m > 0
    ensures x / m * m <= x < x / m * m + m
  {
    assert x == x / m * m + x % m;
  }

  /** A share of a whole, rounded down, falls short of it if and only if something is
      taken off. */
  lemma ShareBelow(x: nat, k: nat, m: nat)
    requires 0 < m && k <= m
    ensures x * (m - k) / m < x <==> x > 0 && k > 0
  {
    var q := x * (m - k) / m;
    QuotientIs(x * (m - k), m);
    assert x * (m - k) == x * m - x * k;
    if x > 0 && k > 0 {
      ProductBound(1, 1, x, k);
      if q >= x {
        ProductBound(x, m, q, m);
      }
    } else {
      assert x * k == 0;
      assert (q + 1) * m == q * m + m;
      if q < x {
        ProductBound(q + 1, m, x, m);
      }
    }
  }

  /* ---------- round trip ---------- */

  /** A sample moves the estimate by an eighth of the way, rounded down; the first is
      taken as it is, and one out of range is ignored. */
  lemma RttMoves(est: nat, rtt: nat)
    requires est < TCP_MAX_RTT
    ensures var r := RttUpdated(est, rtt);
            && (rtt >= TCP_MAX_RTT ==> r == est)
            && (rtt < TCP_MAX_RTT && est == 0 ==> r == rtt)
            && (rtt < TCP_MAX_RTT && est > 0 ==> 8 * r <= 7 * est + rtt < 8 * r + 8)
  {
    if rtt < TCP_MAX_RTT {
      Fits32(est * 7);
      Fits32(est * 7 + rtt);
    }
  }

  /* ---------- window ---------- */

  /** A loss halves the window, but for one segment that is always left. */
  lemma LossHalves(w: Win, s: Stats, rexmits: nat, buffer: nat, weight: nat)
    requires WinOk(w) && StatsOk(s) && weight <= UINT32_MAX && CONF_MSS <= buffer < W32
    requires s.drops > 0 || rexmits > 0
    ensures var r := C.Updated(w, s, rexmits, buffer, weight);
            && r.window == Min(Max(w.window / 2, CONF_MSS), buffer)
            && (w.window > CONF_MSS ==> r.window < w.window)
            && !r.slowstart && r.ecnRate == w.ecnRate
  {
  }

  /** Loss after loss, the window halves each time. */
  lemma {:induction false} LossesHalve(w: Win, steps: seq<(Stats, nat)>, buffer: nat, weight: nat)
    requires WinOk(w) && weight <= UINT32_MAX && CONF_MSS <= buffer < W32
    requires forall i :: 0 <= i < |steps| ==> StatsOk(steps[i].0)
    requires forall i :: 0 <= i < |steps| ==> steps[i].0.drops > 0 || steps[i].1 > 0
    ensures Run(w, steps, buffer, weight).window <= Max(Halved(w.window, |steps|), CONF_MSS)
    decreases |steps|
  {
    hide C.Updated;
    if steps != [] {
      var s := steps[0];
      LossHalves(w, s.0, s.1, buffer, weight);
      UpdatedKeeps(w, s.0, s.1, buffer, weight);
      var w' := C.Updated(w, s.0, s.1, buffer, weight);
      LossesHalve(w', steps[1..], buffer, weight);
      HalvedMonotone(w'.window, Max(w.window / 2, CONF_MSS), |steps| - 1);
      HalvedBelow(CONF_MSS, |steps| - 1);
    }
  }

  function Halved(x: nat, n: nat): nat {
    if n == 0 then x else Halved(x / 2, n - 1)
  }

  lemma {:induction false} HalvedMonotone(x: nat, y: nat, n: nat)
    requires x <= y
    ensures Halved(x, n) <= Halved(y, n)
    decreases n
  {
    if n > 0 {
      HalvedMonotone(x / 2, y / 2, n - 1);
    }
  }

  lemma {:induction false} HalvedBelow(x: nat, n: nat)
    ensures Halved(x, n) <= x
    decreases n
  {
    if n > 0 {
      HalvedBelow(x / 2, n - 1);
    }
  }

  /** The average fraction of marks is the weighted mean of RFC 8257, rounded down. */
  lemma MarksAveraged(w: Win, s: Stats, buffer: nat, weight: nat)
    requires WinOk(w) && StatsOk(s) && weight <= UINT32_MAX && s.drops == 0 && !(w.slowstart && s.marked == 0)
    ensures var e := C.Updated(w, s, 0, buffer, weight).ecnRate;
            if s.acked == 0 then e == w.ecnRate
            else
              var f := Fraction(s.marked, s.acked);
              && f * s.acked <= Min(s.marked, s.acked) * UINT32_MAX < f * s.acked + s.acked
              && e * UINT32_MAX <= f * weight + w.ecnRate * (UINT32_MAX - weight) < e * UINT32_MAX + UINT32_MAX
  {
    EcnRateOk(w.ecnRate, s, weight);
    if s.acked > 0 {
      QuotientIs(Min(s.marked, s.acked) * UINT32_MAX, s.acked);
      QuotientIs(Fraction(s.marked, s.acked) * weight + w.ecnRate * (UINT32_MAX - weight), UINT32_MAX);
    }
  }

  /** Marks cut the window by half their average fraction, rounded up, within one segment
      and the buffer; the window gets smaller as soon as that fraction is not zero. */
  lemma MarksCut(w: Win, s: Stats, buffer: nat, weight: nat)
    requires WinOk(w) && StatsOk(s) && weight <= UINT32_MAX && CONF_MSS <= buffer < W32
    requires s.drops == 0 && s.marked > 0
    ensures var r := C.Updated(w, s, 0, buffer, weight);
            && !r.slowstart && r.window <= w.window
            && (r.ecnRate >= 2 && w.window > CONF_MSS ==> r.window < w.window)
            && (CONF_MSS < r.window < buffer ==>
                  var cut := w.window - r.window;
                  w.window * (r.ecnRate / 2) <= cut * UINT32_MAX < w.window * (r.ecnRate / 2) + UINT32_MAX)
  {
    hide EcnRate, Reduced;
    EcnRateOk(w.ecnRate, s, weight);
    ReducedHalf(w.window, EcnRate(w.ecnRate, s, weight));
    ReducedIs(w.window, EcnRate(w.ecnRate, s, weight));
  }

  lemma ReducedIs(window: nat, e: nat)
    requires e <= UINT32_MAX
    ensures Reduced(window, e) < window <==> window > 0 && e >= 2
    ensures var cut := window - Reduced(window, e);
            window * (e / 2) <= cut * UINT32_MAX < window * (e / 2) + UINT32_MAX
  {
    ShareBelow(window, e / 2, UINT32_MAX);
    QuotientIs(window * (UINT32_MAX - e / 2), UINT32_MAX);
    var q := Reduced(window, e);
    assert window * (UINT32_MAX - e / 2) == window * UINT32_MAX - window * (e / 2);
    assert (window - q) * UINT32_MAX == window * UINT32_MAX - q * UINT32_MAX;
  }

  /** Without any sign of congestion the window grows, within the buffer and unless the
      sum leaves 32 bits: in slow start by all bytes acknowledged, later by a segment for
      each window acknowledged, rounded down. */
  lemma AcksGrow(w: Win, s: Stats, buffer: nat, weight: nat)
    requires WinOk(w) && StatsOk(s) && weight <= UINT32_MAX && CONF_MSS <= buffer < W32 && w.window <= buffer
    requires s.drops == 0 && s.marked == 0 && w.window + s.acked < W32
    ensures var r := C.Updated(w, s, 0, buffer, weight);
            && r.slowstart == w.slowstart
            && (w.slowstart ==> r.window == Min(w.window + s.acked, buffer))
            && (!w.slowstart && r.window < buffer ==>
                  var more := r.window - w.window;
                  more >= 0 && more * w.window <= s.acked * CONF_MSS < more * w.window + w.window)
  {
    hide EcnRate, Increment;
    EcnRateOk(w.ecnRate, s, weight);
    IncrementIs(s.acked, w.window);
  }

  lemma IncrementIs(acked: nat, window: nat)
    requires window >= CONF_MSS
    ensures var i := Increment(acked, window); i * window <= acked * CONF_MSS < i * window + window
  {
    QuotientIs(acked * CONF_MSS, window);
  }

  /** The rate set is the most that sends no more than a window in the time it takes:
      one more would. That time is the round trip, or what the link needs if that is
      more. */
  lemma RateFillsWindow(window: nat, rtt: nat, bandwidth: nat)
    requires bandwidth > 0 && rtt > 0
    ensures var (time, rate) := (SendTime(window, rtt, bandwidth), Rate(window, rtt, bandwidth));
            && time >= rtt * 1000
            && (time > rtt * 1000 ==> time * 1000 * bandwidth <= window * 8 * 1000)
            && rate * time <= window * 8 * 1000000
            && (rate < UINT32_MAX ==> window * 8 * 1000000 < rate * time + time)
  {
    var (time, bits) := (SendTime(window, rtt, bandwidth), window * 8 * 1000000);
    QuotientIs(bits, time);
    ProductBound(Rate(window, rtt, bandwidth), time, bits / time, time);
    var t := Div(window * 8 * 1000, bandwidth);
    QuotientIs(t, 1000);
    if time > rtt * 1000 {
      ProductBound(time * 1000, bandwidth, t, bandwidth);
    }
  }

  /* ---------- TIMELY ---------- */

  /** Above the upper threshold the rate is cut, strictly if and only if beta times the
      excess is at least one part in 2^32; for every beta not below the round trip it
      is. */
  lemma HighCutStrict(rate: nat, rtt: nat, thigh: nat, beta: nat)
    requires rtt > thigh && beta <= UINT32_MAX
    ensures HighCut(rate, rtt, thigh, beta) < rate <==> rate > 0 && beta * Excess(rtt, thigh) >= UINT32_MAX
    ensures rate > 0 && beta >= rtt ==> HighCut(rate, rtt, thigh, beta) < rate
  {
    var b := Excess(rtt, thigh);
    var a := Scaled(beta, b);
    ShareBelow(rate, a, UINT32_MAX);
    QuotientIs(beta * b, UINT32_MAX);
    assert a > 0 <==> beta * b >= UINT32_MAX by {
      if a > 0 {
        ProductBound(1, UINT32_MAX, a, UINT32_MAX);
      }
    }
    ExcessAtLeast(rtt, thigh);
    if beta >= rtt {
      ProductBound(rtt, b, beta, b);
    }
  }

  lemma ExcessAtLeast(rtt: nat, thigh: nat)
    requires rtt > thigh
    ensures rtt * Excess(rtt, thigh) >= UINT32_MAX
  {
    var d := Div(UINT32_MAX * thigh, rtt);
    assert rtt * (UINT32_MAX - d) == rtt * UINT32_MAX - d * rtt;
    assert rtt * UINT32_MAX - UINT32_MAX * thigh == UINT32_MAX * (rtt - thigh);
    ProductBound(UINT32_MAX, 1, UINT32_MAX, rtt - thigh);
  }

  /** A rising round trip cuts the rate, strictly if and only if half of beta times the
      gradient is at least one part in 2^15. */
  lemma GradientCutStrict(rate: nat, gradient: nat, beta: nat)
    ensures GradientCut(rate, gradient, beta) < rate <==> rate > 0 && beta / 2 * gradient >= INT16_MAX
  {
    var b := Div(beta / 2 * gradient, INT16_MAX);
    QuotientIs(beta / 2 * gradient, INT16_MAX);
    var k := if b <= INT32_MAX then b else INT32_MAX;
    ShareBelow(rate, k, INT32_MAX);
  }

  /** Outside slow start the rate is brought down to 1.2 times the rate in use, rounded
      down, and left alone if it is not above that. */
  lemma CappedIs(rate: nat, slowstart: bool, used: nat)
    ensures var r := Capped(rate, slowstart, used);
            && (slowstart ==> r == rate)
            && (!slowstart ==> r <= rate && 10 * r <= 12 * used && (r < rate ==> 12 * used < 10 * r + 10))
  {
  }

  /** What an update does to the rate in use, by the round trip and its gradient, before
      the floors at half of it and at the configured minimum. */
  lemma TimelyResponds(f: Flow, acked: nat, rtt: nat, cur: nat, c: Cfg)
    requires FlowOk(f) && SampleOk(f, acked, rtt, cur) && CfgOk(c) && rtt > 0
    ensures var r := Tuned(false, f, acked, rtt, cur, c);
            var m := Measured(false, f, acked, cur);
            var used := Capped(f.rate, r.slowstart, Max(m, r.act));
            && 8 * r.act <= 7 * f.act + m < 8 * r.act + 8
            && r.rttPrev == rtt && r.lastTs == cur
            && (r.slowstart <==> f.slowstart && rtt <= (c.tlow + c.thigh) / 2)
            && r.rate >= Max(used / 2, c.minRate)
            && (r.slowstart ==> r.rate == Max(2 * used, c.minRate))
            && (!r.slowstart && rtt < c.tlow ==> r.rate == Max(used + c.step, c.minRate) && r.hai == 0)
            && (!r.slowstart && rtt >= c.tlow && rtt > c.thigh ==>
                  r.rate <= Max(used, c.minRate) && r.hai == 0
                  && (c.beta >= rtt && used > c.minRate && used > 0 ==> r.rate < used))
  {
    hide Measured, NewDiff, NewGradient, GradientCut, Capped;
    var slow := f.slowstart && !LeavesSlowstart(f, rtt, c);
    var m := Measured(false, f, acked, cur);
    var used := Capped(f.rate, slow, Max(m, Averaged(false, f, m)));
    if rtt > c.thigh {
      HighCutStrict(used, rtt, c.thigh, c.beta);
    }
  }

  /** Truncating division is off by less than one part, toward zero. */
  lemma TruncIs(x: int, m: nat)
    requires m > 0
    ensures 0 - m < x - TruncDiv(x, m) * m < m
    ensures TruncDiv(x, m) > 0 <==> x >= m
  {
    var a: nat := if x >= 0 then x else -x;
    var q := Div(a, m);
    QuotientPositive(a, m);
    assert (0 - q) * m == 0 - q * m;
  }

  lemma QuotientPositive(a: nat, m: nat)
    requires m > 0
    ensures Div(a, m) > 0 <==> a >= m
    ensures Div(a, m) * m <= a < Div(a, m) * m + m
  {
    QuotientIs(a, m);
    if a / m > 0 {
      ProductBound(1, m, a / m, m);
    }
  }

  /** Between the thresholds: a falling or steady round trip adds one step, and five from
      the fifth time on; a rising one cuts. The difference is the weighted mean of the
      old one and the new sample's, and it rises if it is at least one part in 2^15 of the
      shortest round trip. */
  lemma TimelyGradient(f: Flow, acked: nat, rtt: nat, cur: nat, c: Cfg)
    requires FlowOk(f) && SampleOk(f, acked, rtt, cur) && CfgOk(c) && rtt > 0
    ensures var r := Tuned(false, f, acked, rtt, cur, c);
            var used := Capped(f.rate, r.slowstart, Max(Measured(false, f, acked, cur), r.act));
            var mix := (INT32_MAX - c.alpha / 2) * f.rttDiff + c.alpha / 2 * (rtt - f.rttPrev);
            var rising := f.rttPrev != 0 && r.rttDiff * INT16_MAX >= c.minRtt;
            && (if f.rttPrev == 0 then r.rttDiff == f.rttDiff
                else 0 - INT32_MAX < mix - r.rttDiff * INT32_MAX < INT32_MAX)
            && (!r.slowstart && c.tlow <= rtt <= c.thigh && !rising ==>
                  r.rate == Max(used + (if f.hai >= 4 then 5 else 1) * c.step, c.minRate) && r.hai == Min(f.hai + 1, 4))
            && (!r.slowstart && c.tlow <= rtt <= c.thigh && rising ==>
                  r.rate <= Max(used, c.minRate) && r.hai == 0)
  {
    hide Measured, Capped, TruncDiv, GradientCut, HighCut;
    var diff := NewDiff(f, rtt, c);
    if f.rttPrev != 0 {
      TruncIs((INT32_MAX - c.alpha / 2) * f.rttDiff + c.alpha / 2 * (rtt - f.rttPrev), INT32_MAX);
      TruncIs(diff * INT16_MAX, c.minRtt);
    }
    var g := NewGradient(f, diff, c);
    var slow := f.slowstart && !LeavesSlowstart(f, rtt, c);
    var m := Measured(false, f, acked, cur);
    var used := Capped(f.rate, slow, Max(m, Averaged(false, f, m)));
    if g > 0 {
      GradientCutStrict(used, g, c.beta);
      CutNotAbove(used, g, c.beta);
    }
  }

  lemma CutNotAbove(rate: nat, gradient: nat, beta: nat)
    ensures 0 <= GradientCut(rate, gradient, beta) <= rate
  {
    var b := Div(beta / 2 * gradient, INT16_MAX);
    var d := if b <= INT32_MAX then INT32_MAX - b else 0;
    ProductBound(rate, d, rate, INT32_MAX);
    QuotientBelow(rate * d, INT32_MAX, rate);
  }
}
