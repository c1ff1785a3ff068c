/**
 Wrapping time stamps. Both the queue manager (32 bits) and the timer library
 (28 bits) store only the low-order bits of a clock and compare two stamps by
 their signed distance from a reference stamp.
 */
module WrapTime {

  /** Signed distance of stamp `ts` from stamp `cur`, both taken modulo `m`. */
  function RelTime(m: nat, cur: nat, ts: nat): int
    requires m > 0 && m % 2 == 0
    requires cur < m && ts < m
  {
    var middle := m / 2;
    if cur < middle then
      // stamps from `start` on lie behind `cur`, across the clock's zero
      var start := (cur - middle) % m;
      if start <= ts then ts - start - middle else ts - cur
    else if cur == middle then
      ts - cur
    else
      // stamps below `end` lie ahead of `cur`, across the clock's zero
      var end := (cur + middle) % m + 1;
      if ts < end then ts + (m - cur) else ts - cur
  }

  /** The distances that `RelTime` can express from `cur`: half the clock each
      way, with the far end on the negative side for the lower half of the
      clock and on the positive side for the upper half. */
  predicate Expressible(m: nat, cur: nat, d: int)
    requires m > 0
  {
    if cur <= m / 2 then -(m / 2) <= d < m / 2 else -(m / 2) < d <= m / 2
  }

  lemma NoSmallMultiple(m: nat, k: int)
    requires m > 0
    ensures 0 - m < k * m < m <==> k == 0
  {
    if k >= 1 {
      assert k * m == m + (k - 1) * m;
    } else if k <= -1 {
      assert k * m == (k + 1) * m - m;
    }
  }

  lemma ModUnique(m: nat, a: int, q: int, r: int)
    requires m > 0 && 0 <= r < m && a == q * m + r
    ensures a % m == r && a / m == q
  {
    assert a == a / m * m + a % m;
    assert (a / m - q) * m == r - a % m by {
      assert (a / m - q) * m == a / m * m - q * m;
    }
    NoSmallMultiple(m, a / m - q);
  }

  lemma ModShift(m: nat, a: int, k: int)
    requires m > 0
    ensures (a + k * m) % m == a % m
  {
    assert a + k * m == (a / m + k) * m + a % m by {
      assert (a / m + k) * m == a / m * m + k * m;
    }
    ModUnique(m, a + k * m, a / m + k, a % m);
  }

  /** Adding to a stamp only needs its low-order bits. */
  lemma ModAdd(m: nat, a: int, b: int)
    requires m > 0
    ensures (a % m + b) % m == (a + b) % m
    ensures (a + b % m) % m == (a + b) % m
  {
    ModAddLow(m, a, b);
    ModAddLow(m, b, a);
  }

  lemma ModAddLow(m: nat, a: int, b: int)
    requires m > 0
    ensures (a % m + b) % m == (a + b) % m
  {
    var i := a / m;
    assert a == i * m + a % m;
    assert (-i) * m == -(i * m);
    ModShift(m, a + b, -i);
  }

  /** `RelTime` always answers with an expressible distance that leads from
      `cur` to `ts`. */
  lemma RelTimeLeadsToStamp(m: nat, cur: nat, ts: nat)
    requires m > 0 && m % 2 == 0
    requires cur < m && ts < m
    ensures Expressible(m, cur, RelTime(m, cur, ts))
    ensures (cur + RelTime(m, cur, ts)) % m == ts
  {
    var middle := m / 2;
    if cur < middle {
      ModUnique(m, cur - middle, -1, cur - middle + m);
    } else if cur > middle {
      ModUnique(m, cur + middle, 1, cur + middle - m);
    }
    var d := RelTime(m, cur, ts);
    assert d == ts - cur || d == ts - cur - m || d == ts - cur + m;
    ModShift(m, ts, 1);
    ModShift(m, ts, -1);
    ModUnique(m, ts, 0, ts);
  }

  /** The stamps of two unbounded times compare exactly as the times do, if and
      only if the times are at an expressible distance. */
  lemma RelTimeExact(m: nat, a: int, b: int)
    requires m > 0 && m % 2 == 0
    ensures RelTime(m, a % m, b % m) == b - a <==> Expressible(m, a % m, b - a)
  {
    var cur, ts := a % m, b % m;
    var d := RelTime(m, cur, ts);
    RelTimeLeadsToStamp(m, cur, ts);
    if Expressible(m, cur, b - a) {
      // d and b - a are congruent and less than one turn apart
      CongruentApart(m, cur + d, a, b, d);
    }
  }

  lemma CongruentApart(m: nat, x: int, a: int, b: int, d: int)
    requires m > 0
    requires x == a % m + d && x % m == b % m
    requires 0 - m < d - (b - a) < m
    ensures d == b - a
  {
    var t := x / m - b / m + a / m;
    assert d - (b - a) == t * m by {
      assert x == x / m * m + b % m;
      assert a == a / m * m + a % m;
      assert b == b / m * m + b % m;
      assert t * m == x / m * m - b / m * m + a / m * m;
    }
    NoSmallMultiple(m, t);
  }

  /** The usable half of `RelTimeExact`. */
  lemma RelTimeNear(m: nat, a: int, b: int)
    requires m > 0 && m % 2 == 0
    requires -(m / 2) < b - a < m / 2
    ensures RelTime(m, a % m, b % m) == b - a
  {
    RelTimeExact(m, a, b);
  }
}
