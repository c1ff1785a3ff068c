/**
 TIMELY: the rate update from the measured rate and the gradient of the round trip,
 over unbounded numbers and in the machine words of the code.
 */
module Timely {
  import Basics
  import opened WrapTime
  import opened Congestion

  /* ---------- TIMELY's gradient ---------- */

  /** A 64-bit word read as a signed number. */
  function I64(x: int): int {
    if U64(x) < W64 / 2 then U64(x) else U64(x) - W64
  }

  /** Division that truncates toward zero. */
  function TruncDiv(x: int, m: nat): int
    requires m > 0
  {
    if x >= 0 then Div(x, m) else 0 - Div(-x, m)
  }

  lemma Signed(x: int)
    requires 0 - W64 / 2 <= x < W64 / 2
    ensures I64(x) == x && forall y: int :: U64(y) == U64(x) ==> I64(y) == x
  {
    if x >= 0 {
      ModUnique(W64, x, 0, x);
    } else {
      ModUnique(W64, x, -1, x + W64);
    }
  }

  /** A product of unsigned words stands for the signed product. */
  lemma UnsignedProduct(k: nat, d: int)
    ensures U64(k * U64(d)) == U64(k * d)
  {
    var q := d / W64;
    assert d == q * W64 + U64(d);
    assert k * d == k * U64(d) + k * q * W64 by {
      assert k * (q * W64) == k * q * W64;
    }
    ModShift(W64, k * U64(d), k * q);
  }

  /** The smoothed RTT difference. */
  function Smoothed(diff: int, step: int, factor: nat): int
    requires factor <= INT32_MAX
  {
    TruncDiv((INT32_MAX - factor) * diff + factor * step, INT32_MAX)
  }

  predicate RttDiffOk(d: int) {
    0 - TCP_MAX_RTT < d < TCP_MAX_RTT
  }

  lemma ScaledBounds(k: nat, d: int, hi: nat)
    requires 0 - hi <= d <= hi
    ensures 0 - k * hi <= k * d <= k * hi
  {
    assert k * hi - k * d == k * (hi - d);
    assert k * hi + k * d == k * (hi + d);
  }

  lemma MixBounds(diff: int, step: int, factor: nat)
    requires RttDiffOk(diff) && RttDiffOk(step) && factor <= INT32_MAX
    ensures var (x, hi) := ((INT32_MAX - factor) * diff + factor * step, INT32_MAX * (TCP_MAX_RTT - 1));
            0 - hi <= x <= hi
  {
    ScaledBounds(INT32_MAX - factor, diff, TCP_MAX_RTT - 1);
    ScaledBounds(factor, step, TCP_MAX_RTT - 1);
    assert (INT32_MAX - factor) * (TCP_MAX_RTT - 1) + factor * (TCP_MAX_RTT - 1) == INT32_MAX * (TCP_MAX_RTT - 1);
  }

  lemma TruncBounds(x: int, m: nat, hi: nat)
    requires m > 0 && 0 - m * hi <= x <= m * hi
    ensures 0 - hi <= TruncDiv(x, m) <= hi
  {
    DivBounds(if x >= 0 then x else -x, m, 0, hi);
  }

  /** The difference stays below 100000 in size, and the unsigned 64-bit arithmetic
      in which the code computes it gives the signed result. */
  lemma SmoothedExact(diff: int, step: int, factor: nat)
    requires RttDiffOk(diff) && RttDiffOk(step) && factor <= INT32_MAX
    ensures RttDiffOk(Smoothed(diff, step, factor))
    ensures I64(U64((INT32_MAX - factor) * U64(diff)) + U64(factor * U64(step)))
         == (INT32_MAX - factor) * diff + factor * step
  {
    hide U64, I64;
    var k := INT32_MAX - factor;
    var x := k * diff + factor * step;
    MixBounds(diff, step, factor);
    TruncBounds(x, INT32_MAX, TCP_MAX_RTT - 1);
    UnsignedProduct(k, diff);
    UnsignedProduct(factor, step);
    WordSum(k * diff, factor * step);
    Signed(x);
  }

  lemma WordSum(a: int, b: int)
    ensures U64(U64(a) + U64(b)) == U64(a + b)
  {
    ModAdd(W64, a, b);
  }

  /** The difference after a run of RTT samples; the first only sets the mark. */
  function DiffAfter(prev: nat, diff: int, rtts: seq<nat>, factor: nat): int
    requires factor <= INT32_MAX
    decreases |rtts|
  {
    if rtts == [] then diff
    else if rtts[0] == 0 then DiffAfter(prev, diff, rtts[1..], factor)
    else DiffAfter(rtts[0], if prev != 0 then Smoothed(diff, rtts[0] - prev, factor) else diff, rtts[1..], factor)
  }

  lemma {:induction false} DiffBounded(prev: nat, diff: int, rtts: seq<nat>, factor: nat)
    requires prev < TCP_MAX_RTT && RttDiffOk(diff) && factor <= INT32_MAX
    requires forall i :: 0 <= i < |rtts| ==> rtts[i] < TCP_MAX_RTT
    ensures RttDiffOk(DiffAfter(prev, diff, rtts, factor))
    decreases |rtts|
  {
    hide Smoothed;
    if rtts != [] {
      if rtts[0] == 0 {
        DiffBounded(prev, diff, rtts[1..], factor);
      } else if prev != 0 {
        SmoothedExact(diff, rtts[0] - prev, factor);
        DiffBounded(rtts[0], Smoothed(diff, rtts[0] - prev, factor), rtts[1..], factor);
      } else {
        DiffBounded(rtts[0], diff, rtts[1..], factor);
      }
    }
  }

  function Gradient(diff: int, minRtt: nat): int
    requires minRtt > 0
  {
    TruncDiv(diff * INT16_MAX, minRtt)
  }

  /** The rate reduced by beta times the gradient. */
  function GradientCut(rate: nat, gradient: nat, beta: nat): int {
    var b := Div(beta / 2 * gradient, INT16_MAX);
    var d := if b <= INT32_MAX then INT32_MAX - b else 0;
    Div(rate * d, INT32_MAX)
  }

  /** With a minimum RTT of at least one, no product of the cut leaves 63 bits, and
      the cut rate is no more than the rate. */
  lemma GradientCutFits(rate: nat, diff: int, minRtt: nat, beta: nat)
    requires rate <= UINT32_MAX && RttDiffOk(diff) && minRtt > 0 && beta <= UINT32_MAX
    requires Gradient(diff, minRtt) > 0
    ensures var g := Gradient(diff, minRtt);
            && g < W64 / 2 && 0 <= beta / 2 * g < W64 / 2 && rate * INT32_MAX < W64 / 2
            && 0 <= GradientCut(rate, g, beta) <= rate
  {
    hide Div;
    var g, hi := Gradient(diff, minRtt), (TCP_MAX_RTT - 1) * INT16_MAX;
    ProductBound(1, hi, minRtt, hi);
    TruncBounds(diff * INT16_MAX, minRtt, hi);
    ProductBound(beta / 2, g, INT32_MAX, hi);
    ProductBound(rate, INT32_MAX, UINT32_MAX, INT32_MAX);
    var b := Div(beta / 2 * g, INT16_MAX);
    var d := if b <= INT32_MAX then INT32_MAX - b else 0;
    ProductBound(rate, d, rate, INT32_MAX);
    QuotientBelow(rate * d, INT32_MAX, rate);
  }

  lemma QuotientBelow(x: nat, m: nat, hi: nat)
    requires m > 0 && x <= hi * m
    ensures 0 <= Div(x, m) <= hi
  {
    DivBounds(x, m, 0, hi);
  }

  /** The share by which the round trip exceeds the upper threshold, scaled to 32 bits. */
  function Excess(rtt: nat, thigh: nat): (b: nat)
    requires rtt > thigh
    ensures b <= UINT32_MAX
  {
    ProductBound(UINT32_MAX, thigh, UINT32_MAX, rtt);
    QuotientBelow(UINT32_MAX * thigh, rtt, UINT32_MAX);
    UINT32_MAX - Div(UINT32_MAX * thigh, rtt)
  }

  /** A number scaled down by `k` of 2^32 - 1. */
  function Scaled(x: nat, k: nat): (r: nat)
    requires k <= UINT32_MAX
    ensures r <= x
  {
    ProductBound(x, k, x, UINT32_MAX);
    QuotientBelow(x * k, UINT32_MAX, x);
    Div(x * k, UINT32_MAX)
  }

  /** The rate reduced by beta times the excess. */
  function HighCut(rate: nat, rtt: nat, thigh: nat, beta: nat): (r: nat)
    requires rtt > thigh && beta <= UINT32_MAX
    ensures r <= rate
  {
    Scaled(rate, UINT32_MAX - Scaled(beta, Excess(rtt, thigh)))
  }

  lemma ProductFits(a: nat, b: nat)
    requires a <= UINT32_MAX && b <= UINT32_MAX
    ensures 0 <= a * b < W64 && U64(a * b) == a * b
  {
    ProductBound(a, b, UINT32_MAX, UINT32_MAX);
    Fits64(a * b);
  }

  /* ---------- the update ---------- */

  datatype Cfg = Cfg(tlow: nat, thigh: nat, step: nat, alpha: nat, beta: nat, minRtt: nat, minRate: nat)

  predicate CfgOk(c: Cfg) {
    && c.tlow + c.thigh < W32 && c.step < W32 && c.alpha <= UINT32_MAX && c.beta <= UINT32_MAX
    && 0 < c.minRtt < W32 && c.minRate < W32
  }

  datatype Flow = Flow(rate: nat, act: nat, rttPrev: nat, rttDiff: int, hai: nat, lastTs: nat, slowstart: bool)

  predicate FlowOk(f: Flow) {
    f.rate < W32 && f.act < W32 && f.rttPrev < TCP_MAX_RTT && RttDiffOk(f.rttDiff) && f.hai <= 4 && f.lastTs < W32
  }

  predicate SampleOk(f: Flow, acked: nat, rtt: nat, cur: nat) {
    acked < W32 && rtt < TCP_MAX_RTT && cur < W32 && (f.lastTs != 0 ==> cur != f.lastTs)
  }

  /** A number as it is, or cut to 32 bits. */
  function Cut(wrap: bool, x: nat): nat {
    if wrap then U32(x) else x
  }

  function Elapsed(f: Flow, cur: nat): nat {
    U32(cur - f.lastTs)
  }

  lemma ElapsedPositive(f: Flow, cur: nat)
    requires f.lastTs < W32 && cur < W32 && cur != f.lastTs
    ensures 0 < Elapsed(f, cur) < W32
  {
    if cur > f.lastTs {
      Fits32(cur - f.lastTs);
    } else {
      ModUnique(W32, cur - f.lastTs, -1, cur - f.lastTs + W32);
    }
  }

  /** Bits acknowledged per millisecond since the last update. */
  function Measured(wrap: bool, f: Flow, acked: nat, cur: nat): (m: nat)
    requires f.lastTs < W32 && cur < W32 && (f.lastTs != 0 ==> cur != f.lastTs)
  {
    if f.lastTs == 0 then 0 else
      ElapsedPositive(f, cur);
      Div(Cut(wrap, acked * 8000), Elapsed(f, cur))
  }

  /** The average of measured rates. */
  function Averaged(wrap: bool, f: Flow, m: nat): nat {
    Cut(wrap, 7 * f.act + m) / 8
  }

  /** Outside slow start the rate is at most 1.2 times the rate in use. */
  function Capped(rate: nat, slowstart: bool, used: nat): nat {
    if !slowstart && rate > used * 12 / 10 then used * 12 / 10 else rate
  }

  function LeavesSlowstart(f: Flow, rtt: nat, c: Cfg): bool {
    f.slowstart && rtt > (c.tlow + c.thigh) / 2
  }

  function NewDiff(f: Flow, rtt: nat, c: Cfg): int
    requires c.alpha <= UINT32_MAX
  {
    if f.rttPrev != 0 then Smoothed(f.rttDiff, rtt - f.rttPrev, c.alpha / 2) else f.rttDiff
  }

  function NewGradient(f: Flow, diff: int, c: Cfg): int
    requires c.minRtt > 0
  {
    if f.rttPrev != 0 then Gradient(diff, c.minRtt) else 0
  }

  /** The new rate before the floors, and the counter of quick increases. */
  function Changed(wrap: bool, rate: nat, slowstart: bool, rtt: nat, gradient: int, hai: nat, c: Cfg): (int, nat)
    requires c.beta <= UINT32_MAX
  {
    if slowstart then (Cut(wrap, 2 * rate), hai)
    else if rtt < c.tlow then (Cut(wrap, rate + c.step), 0)
    else if rtt > c.thigh then (HighCut(rate, rtt, c.thigh, c.beta), 0)
    else if gradient <= 0 then
      if hai + 1 >= 5 then (Cut(wrap, rate + 5 * c.step), hai) else (Cut(wrap, rate + c.step), hai + 1)
    else (GradientCut(rate, gradient, c.beta), 0)
  }

  /** Not below half the rate before, nor below the configured minimum. */
  function Floored(rate: int, before: nat, least: nat): int {
    var r := if rate < before / 2 then before / 2 else rate;
    if r < least then least else r
  }

  function Tuned(wrap: bool, f: Flow, acked: nat, rtt: nat, cur: nat, c: Cfg): (r: Flow)
    requires FlowOk(f) && SampleOk(f, acked, rtt, cur) && CfgOk(c)
  {
    var m := Measured(wrap, f, acked, cur);
    var act := Averaged(wrap, f, m);
    if rtt == 0 then f.(act := act) else
      var slow := f.slowstart && !LeavesSlowstart(f, rtt, c);
      var rate := Capped(f.rate, slow, Basics.Max(m, act));
      var diff := NewDiff(f, rtt, c);
      var ch := Changed(wrap, rate, slow, rtt, NewGradient(f, diff, c), f.hai, c);
      Flow(Floored(ch.0, rate, c.minRate), act, rtt, diff, ch.1, cur, slow)
  }

  /* ---------- what an update keeps ---------- */

  lemma CutBelow(x: nat)
    ensures Cut(true, x) < W32 && Cut(true, x) <= x && (Cut(true, x) == x <==> x < W32)
  {
    assert x == x / W32 * W32 + x % W32;
    if x < W32 {
      Fits32(x);
    }
  }

  lemma ChangedFits(rate: nat, slowstart: bool, rtt: nat, diff: int, hai: nat, c: Cfg)
    requires rate < W32 && RttDiffOk(diff) && hai <= 4 && CfgOk(c)
    ensures var (r, h) := Changed(true, rate, slowstart, rtt, Gradient(diff, c.minRtt), hai, c); r < W32 && h <= 4
    ensures var (r, h) := Changed(true, rate, slowstart, rtt, 0, hai, c); r < W32 && h <= 4
  {
    hide HighCut, GradientCut, Gradient, Cut;
    CutBelow(2 * rate);
    CutBelow(rate + c.step);
    CutBelow(rate + 5 * c.step);
    if Gradient(diff, c.minRtt) > 0 {
      GradientCutFits(rate, diff, c.minRtt, c.beta);
    }
  }

  lemma NewDiffOk(f: Flow, rtt: nat, c: Cfg)
    requires FlowOk(f) && 0 < rtt < TCP_MAX_RTT && CfgOk(c)
    ensures RttDiffOk(NewDiff(f, rtt, c))
  {
    if f.rttPrev != 0 {
      SmoothedExact(f.rttDiff, rtt - f.rttPrev, c.alpha / 2);
    }
  }

  /** In machine words every field stays in its range over any sample; the rate is never
      less than half of what was in use before, nor than the configured minimum. */
  lemma TunedKeeps(f: Flow, acked: nat, rtt: nat, cur: nat, c: Cfg)
    requires FlowOk(f) && SampleOk(f, acked, rtt, cur) && CfgOk(c)
    ensures var r := Tuned(true, f, acked, rtt, cur, c);
            && FlowOk(r)
            && (rtt != 0 ==>
                  && r.rate >= c.minRate
                  && var m := Measured(true, f, acked, cur);
                     r.rate >= Capped(f.rate, r.slowstart, Basics.Max(m, r.act)) / 2)
  {
    hide Changed, NewDiff, Measured, Cut, Gradient;
    var m := Measured(true, f, acked, cur);
    CutBelow(7 * f.act + m);
    if rtt != 0 {
      NewDiffOk(f, rtt, c);
      var slow := f.slowstart && !LeavesSlowstart(f, rtt, c);
      var rate := Capped(f.rate, slow, Basics.Max(m, Averaged(true, f, m)));
      ChangedFits(rate, slow, rtt, NewDiff(f, rtt, c), f.hai, c);
    }
  }

  /* ---------- where words fall short ---------- */

  /** A quotient shows whether its dividend was cut. */
  lemma QuotientShows(x: nat, m: nat)
    requires 0 < m < W32
    ensures Div(U32(x), m) == Div(x, m) <==> x < W32
  {
    var u := U32(x);
    assert x == x / W32 * W32 + u;
    if x < W32 {
      Fits32(x);
    } else {
      ProductBound(1, W32, x / W32, W32);
      var q := Div(u, m);
      assert (q + 1) * m == q * m + m;
      QuotientAbove(x, m, q + 1);
    }
  }

  lemma QuotientAbove(x: nat, m: nat, lo: nat)
    requires m > 0 && lo * m <= x
    ensures Div(x, m) >= lo
  {
    ProductBound(x, 1, x, m);
    DivBounds(x, m, lo, x);
  }

  /** The measured rate is right if and only if eight thousand times the acknowledged
      bytes fit 32 bits, that is, up to 536870 bytes. */
  lemma MeasuredExactly(f: Flow, acked: nat, cur: nat)
    requires f.lastTs < W32 && cur < W32 && (f.lastTs != 0 ==> cur != f.lastTs)
    ensures Measured(true, f, acked, cur) == Measured(false, f, acked, cur) <==> f.lastTs == 0 || acked <= 536870
  {
    hide Div;
    if f.lastTs != 0 {
      ElapsedPositive(f, cur);
      QuotientShows(acked * 8000, Elapsed(f, cur));
    }
  }

  /** The new rate fits 32 bits. */
  predicate RateFits(rate: nat, slowstart: bool, rtt: nat, gradient: int, hai: nat, c: Cfg) {
    if slowstart then 2 * rate < W32
    else if rtt < c.tlow then rate + c.step < W32
    else if rtt <= c.thigh && gradient <= 0 then rate + (if hai + 1 >= 5 then 5 else 1) * c.step < W32
    else true
  }

  /** What keeps one update within 32 bits, in numbers known before it. */
  predicate NoWrap(f: Flow, acked: nat, rtt: nat, cur: nat, c: Cfg)
    requires FlowOk(f) && SampleOk(f, acked, rtt, cur) && CfgOk(c)
  {
    var m := Measured(false, f, acked, cur);
    && (f.lastTs == 0 || acked <= 536870)
    && 7 * f.act + m < W32
    && (rtt != 0 ==>
          var slow := f.slowstart && !LeavesSlowstart(f, rtt, c);
          var rate := Capped(f.rate, slow, Basics.Max(m, Averaged(false, f, m)));
          RateFits(rate, slow, rtt, NewGradient(f, NewDiff(f, rtt, c), c), f.hai, c))
  }

  lemma ChangedExactly(rate: nat, slowstart: bool, rtt: nat, gradient: int, hai: nat, c: Cfg)
    requires rate < W32 && CfgOk(c)
    ensures var w := Changed(true, rate, slowstart, rtt, gradient, hai, c);
            var i := Changed(false, rate, slowstart, rtt, gradient, hai, c);
            (Floored(w.0, rate, c.minRate) == Floored(i.0, rate, c.minRate) && w.1 == i.1
             <==> RateFits(rate, slowstart, rtt, gradient, hai, c))
  {
    hide HighCut, GradientCut, Cut;
    CutBelow(2 * rate);
    CutBelow(rate + c.step);
    CutBelow(rate + 5 * c.step);
    CutNone(2 * rate);
    CutNone(rate + c.step);
    CutNone(rate + 5 * c.step);
  }

  lemma AveragedExactly(f: Flow, m: nat)
    ensures Averaged(true, f, m) == Averaged(false, f, m) <==> 7 * f.act + m < W32
  {
    var x := 7 * f.act + m;
    assert x == x / W32 * W32 + x % W32;
    if x < W32 {
      Fits32(x);
    }
  }

  /** The update in 32-bit words gives the measured rate and the new state of the rule if
      and only if nothing wraps: the bytes acknowledged, the average, the doubling in
      slow start and the additive steps. */
  lemma TunedExactly(f: Flow, acked: nat, rtt: nat, cur: nat, c: Cfg)
    requires FlowOk(f) && SampleOk(f, acked, rtt, cur) && CfgOk(c)
    ensures Measured(true, f, acked, cur) == Measured(false, f, acked, cur)
         && Tuned(true, f, acked, rtt, cur, c) == Tuned(false, f, acked, rtt, cur, c)
       <==> NoWrap(f, acked, rtt, cur, c)
  {
    hide Measured, Averaged, NewDiff, NewGradient, Changed, Capped, Floored, RateFits, LeavesSlowstart;
    MeasuredExactly(f, acked, cur);
    var m := Measured(false, f, acked, cur);
    AveragedExactly(f, m);
    if rtt != 0 {
      var slow := f.slowstart && !LeavesSlowstart(f, rtt, c);
      var rate := Capped(f.rate, slow, Basics.Max(m, Averaged(false, f, m)));
      CappedBelow(f.rate, slow, Basics.Max(m, Averaged(false, f, m)));
      ChangedExactly(rate, slow, rtt, NewGradient(f, NewDiff(f, rtt, c), c), f.hai, c);
    }
  }

  lemma CappedBelow(rate: nat, slowstart: bool, used: nat)
    ensures Capped(rate, slowstart, used) <= rate
  {
  }

  lemma CutNone(x: nat)
    ensures Cut(false, x) == x
  {
  }

  const DEFAULTS: Cfg := Cfg(30, 150, 10000, 85899345, 3435973836, 11, 10000)

  /** 536871 bytes in a microsecond are measured as 704 instead of 4294968000. */
  lemma MeasuredTooLow()
    ensures var f := Flow(10000, 0, 0, 0, 0, 1, true);
            && FlowOk(f) && SampleOk(f, 536871, 10, 2)
            && Measured(true, f, 536871, 2) == 704 && Measured(false, f, 536871, 2) == 4294968000
  {
    var f := Flow(10000, 0, 0, 0, 0, 1, true);
    Fits32(1);
    assert Elapsed(f, 2) == 1;
    ModUnique(W32, 4294968000, 1, 704);
  }

  /** In slow start a rate of 2^31 is halved instead of doubled. */
  lemma DoublingHalves()
    ensures CfgOk(DEFAULTS)
    ensures var f := Flow(0x8000_0000, 0, 0, 0, 0, 0, true);
            && FlowOk(f) && SampleOk(f, 0, 10, 1)
            && Tuned(true, f, 0, 10, 1, DEFAULTS).rate == 0x4000_0000
            && Tuned(false, f, 0, 10, 1, DEFAULTS).rate == 0x1_0000_0000
  {
    ModUnique(W32, W32, 1, 0);
  }

  /* ---------- the update in machine words ---------- */

  lemma CutSum(a: nat, b: nat)
    ensures U32(U32(a) + b) == U32(a + b)
  {
    ModAddLow(W32, a, b);
  }

  lemma CutProduct(a: nat, k: nat)
    ensures U32(U32(a) * k) == U32(a * k)
  {
    var q := a / W32;
    assert a == q * W32 + U32(a);
    assert a * k == U32(a) * k + q * k * W32 by {
      assert q * W32 * k == q * k * W32;
    }
    ModShift(W32, U32(a) * k, q * k);
  }

  class TimelyFlow {
    const cfg: Cfg
    var rate: nat
    var act: nat
    var rttPrev: nat
    var rttDiff: int
    var hai: nat
    var lastTs: nat
    var slowstart: bool

    function State(): Flow
      reads this
    {
      Flow(rate, act, rttPrev, rttDiff, hai, lastTs, slowstart)
    }

    method Measure(acked: nat, cur: nat) returns (m: nat)
      requires FlowOk(State()) && acked < W32 && cur < W32 && (lastTs != 0 ==> cur != lastTs)
      modifies this`act
      ensures m == Measured(true, old(State()), acked, cur) && act == Averaged(true, old(State()), m)
    {
      hide U32, Div;
      m := 0;
      if lastTs != 0 {
        ElapsedPositive(State(), cur);
        CutProduct(acked * 8, 1000);
        m := Div(U32(U32(acked * 8) * 1000), U32(cur - lastTs));
      }
      CutSum(7 * act, m);
      act := U32(U32(7 * act) + m) / 8;
    }

    /** The smoothed difference and its gradient. */
    method Gradients(rtt: nat) returns (gradient: int)
      requires FlowOk(State()) && 0 < rtt < TCP_MAX_RTT && CfgOk(cfg)
      modifies this`rttDiff
      ensures rttDiff == NewDiff(old(State()), rtt, cfg) && RttDiffOk(rttDiff)
      ensures gradient == NewGradient(old(State()), rttDiff, cfg)
    {
      hide U64, I64, Div;
      gradient := 0;
      if rttPrev != 0 {
        var step, factor := rtt - rttPrev, cfg.alpha / 2;
        SmoothedExact(rttDiff, step, factor);
        var x := I64(U64((INT32_MAX - factor) * U64(rttDiff)) + U64(factor * U64(step)));
        rttDiff := TruncDiv(x, INT32_MAX);
        gradient := TruncDiv(rttDiff * INT16_MAX, cfg.minRtt);
      }
    }

    method CutForHighRtt(r: nat, rtt: nat) returns (r': nat)
      requires r < W32 && CfgOk(cfg) && rtt > cfg.thigh
      ensures r' == HighCut(r, rtt, cfg.thigh, cfg.beta) <= r
    {
      hide U64, Div;
      ProductFits(UINT32_MAX, cfg.thigh);
      var b := UINT32_MAX - Div(U64(UINT32_MAX * cfg.thigh), rtt);
      assert b == Excess(rtt, cfg.thigh);
      ProductFits(cfg.beta, b);
      var a := Div(U64(cfg.beta * b), UINT32_MAX);
      assert a == Scaled(cfg.beta, b);
      ProductFits(r, UINT32_MAX - a);
      r' := Div(U64(r * (UINT32_MAX - a)), UINT32_MAX);
    }

    method CutForGradient(r: nat, gradient: int) returns (r': nat)
      requires r < W32 && CfgOk(cfg) && RttDiffOk(rttDiff) && gradient == Gradient(rttDiff, cfg.minRtt) > 0
      ensures r' == GradientCut(r, gradient, cfg.beta) <= r
    {
      hide U64, I64, Div, Gradient;
      GradientCutFits(r, rttDiff, cfg.minRtt, cfg.beta);
      Signed(cfg.beta / 2 * gradient);
      var b := Div(I64(cfg.beta / 2 * gradient), INT16_MAX);
      var d := if b <= INT32_MAX then INT32_MAX - b else 0;
      ProductBound(r, d, r, INT32_MAX);
      ProductNonNegative(r, d);
      Signed(r * d);
      r' := Div(I64(r * d), INT32_MAX);
    }

    /** The branch taken, in 32-bit words. */
    method Change(rtt: nat, gradient: int)
      requires FlowOk(State()) && 0 < rtt < TCP_MAX_RTT && CfgOk(cfg)
      requires gradient == (if rttPrev != 0 then Gradient(rttDiff, cfg.minRtt) else 0)
      modifies this`rate, this`hai
      ensures (rate, hai) == Changed(true, old(rate), slowstart, rtt, gradient, old(hai), cfg)
    {
      hide U32, HighCut, GradientCut, Gradient;
      CutProduct(5 * cfg.step, 1);
      if slowstart {
        rate := U32(rate * 2);
      } else if rtt < cfg.tlow {
        rate := U32(rate + cfg.step);
        hai := 0;
      } else if rtt > cfg.thigh {
        rate := CutForHighRtt(rate, rtt);
        hai := 0;
      } else if gradient <= 0 {
        hai := hai + 1;
        if hai >= 5 {
          CutSum(5 * cfg.step, rate);
          rate := U32(U32(5 * cfg.step) + rate);
          hai := hai - 1;
        } else {
          rate := U32(rate + cfg.step);
        }
      } else {
        rate := CutForGradient(rate, gradient);
        hai := 0;
      }
    }

    /** The rate for a new round trip, when `used` is the rate in use. */
    method Retune(rtt: nat, used: nat)
      requires FlowOk(State()) && 0 < rtt < TCP_MAX_RTT && CfgOk(cfg)
      modifies this`rate, this`slowstart, this`rttDiff, this`hai
      ensures var f := old(State());
              && slowstart == (f.slowstart && !LeavesSlowstart(f, rtt, cfg))
              && rttDiff == NewDiff(f, rtt, cfg)
              && var before := Capped(f.rate, slowstart, used);
                 var ch := Changed(true, before, slowstart, rtt, NewGradient(f, rttDiff, cfg), f.hai, cfg);
                 rate == Floored(ch.0, before, cfg.minRate) && hai == ch.1
    {
      hide NewDiff, NewGradient, Gradient, Changed;
      ghost var f := State();
      if slowstart && rtt > (cfg.tlow + cfg.thigh) / 2 {
        slowstart := false;
      }
      if !slowstart && rate > used * 12 / 10 {
        rate := used * 12 / 10;
      }
      DiffAlone(f, State(), rtt, cfg);
      var gradient := Gradients(rtt);
      GradientAlone(f, rttDiff, cfg);
      var orig := rate;
      Change(rtt, gradient);
      if rate < orig / 2 {
        rate := orig / 2;
      }
      if rate < cfg.minRate {
        rate := cfg.minRate;
      }
    }

    method TimelyUpdate(acked: nat, rtt: nat, cur: nat)
      requires FlowOk(State()) && SampleOk(State(), acked, rtt, cur) && CfgOk(cfg)
      modifies this
      ensures State() == Tuned(true, old(State()), acked, rtt, cur, cfg) && FlowOk(State())
    {
      hide Measured, Averaged, NewDiff, NewGradient, Changed, Capped, Floored;
      ghost var f := State();
      TunedKeeps(f, acked, rtt, cur, cfg);
      var m := Measure(acked, cur);
      AverageFits(f, m);
      var used := if m >= act then m else act;
      if rtt == 0 {
        return;
      }
      DiffAlone(f, State(), rtt, cfg);
      Retune(rtt, used);
      rttPrev := rtt;
      lastTs := cur;
    }
  }

  lemma AverageFits(f: Flow, m: nat)
    ensures Averaged(true, f, m) < W32
  {
    CutBelow(7 * f.act + m);
  }

  lemma ProductNonNegative(a: nat, b: nat)
    ensures 0 <= a * b
  {
  }

  /** The difference depends on the last round trip and difference only. */
  lemma DiffAlone(f: Flow, g: Flow, rtt: nat, c: Cfg)
    requires f.rttPrev == g.rttPrev && f.rttDiff == g.rttDiff && c.alpha <= UINT32_MAX
    ensures NewDiff(f, rtt, c) == NewDiff(g, rtt, c)
    ensures c.minRtt > 0 ==> forall d :: NewGradient(f, d, c) == NewGradient(g, d, c)
  {
  }

  lemma GradientAlone(f: Flow, diff: int, c: Cfg)
    requires c.minRtt > 0
    ensures NewGradient(f, diff, c) == if f.rttPrev != 0 then Gradient(diff, c.minRtt) else 0
  {
  }
}
