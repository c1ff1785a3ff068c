/**
 Load spreading over cores, seen as the number of redirection table entries each
 core owns: scaling up takes entries from the fullest old core, scaling down
 gives each orphaned entry to the core that a scan takes for the emptiest.
 */
module RssBalance {
  /** What the scan for the emptiest core starts from: a count is 16 bits wide,
      but the scan begins at the largest 8-bit value. */
  const SCAN_START: nat := 255

  function Sum(b: seq<nat>, n: nat): nat
    requires n <= |b|
  {
    if n == 0 then 0 else Sum(b, n - 1) + b[n - 1]
  }

  /** No two of the first `n` cores differ by more than one entry. */
  predicate Balanced(b: seq<nat>, n: nat)
    requires n <= |b|
  {
    forall i, j :: 0 <= i < n && 0 <= j < n ==> b[i] <= b[j] + 1
  }

  /** The last of the fullest cores. */
  function CoreMax(b: seq<nat>, n: nat): (r: nat)
    requires 0 < n <= |b|
    ensures r < n && (forall j :: 0 <= j < n ==> b[j] <= b[r]) && (forall j :: r < j < n ==> b[j] < b[r])
  {
    if n == 1 then 0 else
      var m := CoreMax(b, n - 1);
      if b[n - 1] >= b[m] then n - 1 else m
  }

  /** The first of the emptiest cores, if that has fewer than 255 entries, else
      core 0. */
  function CoreMin(b: seq<nat>, n: nat): (r: nat)
    requires n <= |b|
    ensures n > 0 ==> r < n
    ensures (forall j :: 0 <= j < n ==> b[j] >= SCAN_START) ==> r == 0
    ensures (exists j :: 0 <= j < n && b[j] < SCAN_START) ==>
              r < n && (forall j :: 0 <= j < n ==> b[r] <= b[j]) && (forall j :: 0 <= j < r ==> b[r] < b[j])
  {
    if n == 0 then 0 else
      var m := CoreMin(b, n - 1);
      var least := if n > 1 && b[m] < SCAN_START then b[m] else SCAN_START;
      if b[n - 1] < least then n - 1 else m
  }

  /** The scan finds an emptiest core exactly if there is one below its start
      value or core 0 is one. */
  lemma CoreMinExactly(b: seq<nat>, n: nat)
    requires 0 < n <= |b|
    ensures (forall j :: 0 <= j < n ==> b[CoreMin(b, n)] <= b[j])
       <==> (exists j :: 0 <= j < n && b[j] < SCAN_START) || (forall j :: 0 <= j < n ==> b[0] <= b[j])
  {
    hide CoreMin;
    if forall j :: 0 <= j < n ==> b[j] >= SCAN_START {
      assert CoreMin(b, n) == 0;
    }
  }

  /* ---------- sums ---------- */

  lemma {:induction false} SumUpdate(b: seq<nat>, n: nat, i: nat, v: nat)
    requires n <= |b| && i < |b|
    ensures Sum(b[i := v], n) == if i < n then Sum(b, n) - b[i] + v else Sum(b, n)
  {
    if n > 0 {
      SumUpdate(b, n - 1, i, v);
    }
  }

  lemma {:induction false} SumAtMost(b: seq<nat>, n: nat, hi: nat)
    requires n <= |b| && forall i :: 0 <= i < n ==> b[i] <= hi
    ensures Sum(b, n) <= n * hi
    ensures (exists i :: 0 <= i < n && b[i] < hi) ==> Sum(b, n) < n * hi
  {
    if n > 0 {
      SumAtMost(b, n - 1, hi);
      assert n * hi == (n - 1) * hi + hi;
    }
  }

  lemma {:induction false} SumAtLeast(b: seq<nat>, n: nat, lo: nat)
    requires n <= |b| && forall i :: 0 <= i < n ==> b[i] >= lo
    ensures Sum(b, n) >= n * lo
    ensures (exists i :: 0 <= i < n && b[i] > lo) ==> Sum(b, n) > n * lo
  {
    if n > 0 {
      SumAtLeast(b, n - 1, lo);
      assert n * lo == (n - 1) * lo + lo;
    }
  }

  /** In a balanced share-out of at least `n * q` entries nobody has fewer than
      `q`; of at most `n * q`, nobody has more. */
  lemma BalancedBand(b: seq<nat>, n: nat, q: nat)
    requires 0 < n <= |b| && Balanced(b, n)
    ensures Sum(b, n) >= n * q ==> forall i :: 0 <= i < n ==> b[i] >= q
    ensures Sum(b, n) <= n * q ==> forall i :: 0 <= i < n ==> b[i] <= q
    ensures Sum(b, n) > n * q ==> exists i :: 0 <= i < n && b[i] > q
  {
    hide Sum;
    if i :| 0 <= i < n && b[i] < q {
      SumAtMost(b, n, q);
    }
    if i :| 0 <= i < n && b[i] > q {
      SumAtLeast(b, n, q);
    }
    if forall i :: 0 <= i < n ==> b[i] <= q {
      SumAtMost(b, n, q);
    }
  }

  /* ---------- scaling up ---------- */

  /** One entry moves from the fullest of the first `from` cores to core `j`. */
  function Shed(b: seq<nat>, from: nat, j: nat): (r: seq<nat>)
    requires 0 < from <= j < |b| && Sum(b, from) > 0
    ensures |r| == |b| && Sum(r, from) == Sum(b, from) - 1 && r[j] == b[j] + 1
    ensures forall i :: from <= i < |b| && i != j ==> r[i] == b[i]
    ensures Balanced(b, from) ==> Balanced(r, from)
  {
    var c := CoreMax(b, from);
    MaxPositive(b, from);
    SumUpdate(b, from, c, b[c] - 1);
    SumUpdate(b[c := b[c] - 1], from, j, b[j] + 1);
    b[c := b[c] - 1][j := b[j] + 1]
  }

  lemma MaxPositive(b: seq<nat>, n: nat)
    requires 0 < n <= |b| && Sum(b, n) > 0
    ensures b[CoreMax(b, n)] > 0
  {
    hide CoreMax;
    if b[CoreMax(b, n)] == 0 {
      SumAtMost(b, n, 0);
    }
  }

  function GiveTo(b: seq<nat>, from: nat, j: nat, k: nat): (r: seq<nat>)
    requires 0 < from <= j < |b| && Sum(b, from) >= k
    ensures |r| == |b| && Sum(r, from) == Sum(b, from) - k && r[j] == b[j] + k
    ensures forall i :: from <= i < |b| && i != j ==> r[i] == b[i]
    ensures Balanced(b, from) ==> Balanced(r, from)
  {
    if k == 0 then b else Shed(GiveTo(b, from, j, k - 1), from, j)
  }

  lemma OneShare(n: nat, share: nat)
    requires n > 0
    ensures n * share == (n - 1) * share + share
  {
  }

  /** Each of the cores from `from` to `to` gets `share` entries. */
  function Up(b: seq<nat>, from: nat, to: nat, share: nat): (r: seq<nat>)
    requires 0 < from <= to <= |b| && Sum(b, from) >= (to - from) * share
    ensures |r| == |b| && Sum(r, from) == Sum(b, from) - (to - from) * share
    ensures forall i :: from <= i < to ==> r[i] == b[i] + share
    ensures forall i :: to <= i < |b| ==> r[i] == b[i]
    ensures Balanced(b, from) ==> Balanced(r, from)
  {
    if to == from then b else
      OneShare(to - from, share);
      GiveTo(Up(b, from, to - 1, share), from, to - 1, share)
  }

  /** There are always enough entries: the old cores keep more than they give. */
  lemma EnoughToShare(size: nat, from: nat, to: nat)
    requires 0 < from <= to
    ensures size - (to - from) * (size / to) == from * (size / to) + size % to >= 0
  {
    var q := size / to;
    assert size == to * q + size % to;
    assert to * q == (to - from) * q + from * q;
  }

  /** Scaling up from balanced cores: the old ones stay balanced, each new one
      has exactly its share and no old one has less. All of them together are
      balanced exactly when the remainder is at most the number of old cores. */
  lemma UpBalanced(b: seq<nat>, from: nat, to: nat, size: nat)
    requires 0 < from < to <= |b| && Sum(b, from) == size && Balanced(b, from)
    requires forall i :: from <= i < |b| ==> b[i] == 0
    ensures Sum(b, from) >= (to - from) * (size / to)
    ensures var r := Up(b, from, to, size / to);
            && Balanced(r, from)
            && (forall i :: from <= i < to ==> r[i] == size / to)
            && (forall i :: 0 <= i < from ==> r[i] >= size / to)
            && (Balanced(r, to) <==> size % to <= from)
  {
    hide Up, Sum, Balanced;
    EnoughToShare(size, from, to);
    SharesBalanced(Up(b, from, to, size / to), from, to, size / to, size % to);
  }

  /** Cores with `q` entries each beside balanced ones with `rest` more than that. */
  lemma SharesBalanced(r: seq<nat>, from: nat, to: nat, q: nat, rest: nat)
    requires 0 < from < to <= |r| && Balanced(r, from) && Sum(r, from) == from * q + rest
    requires forall i :: from <= i < to ==> r[i] == q
    ensures forall i :: 0 <= i < from ==> r[i] >= q
    ensures Balanced(r, to) <==> rest <= from
  {
    hide Sum;
    BalancedBand(r, from, q);
    BalancedBand(r, from, q + 1);
    assert from * (q + 1) == from * q + from;
    assert r[from] == q;
  }

  lemma {:induction false} SumZeros(b: seq<nat>, n: nat, k: nat)
    requires n <= k <= |b| && forall i :: n <= i < k ==> b[i] == 0
    ensures Sum(b, k) == Sum(b, n)
  {
    if n < k {
      SumZeros(b, n, k - 1);
    }
  }

  lemma {:induction false} SumShares(b: seq<nat>, n: nat, k: nat, q: nat)
    requires n <= k <= |b| && forall i :: n <= i < k ==> b[i] == q
    ensures Sum(b, k) == Sum(b, n) + (k - n) * q
  {
    if n < k {
      SumShares(b, n, k - 1, q);
      assert (k - n) * q == (k - 1 - n) * q + q;
    }
  }

  /* ---------- scaling down ---------- */

  /** `m` orphaned entries, one after another, go to where the scan points. */
  function Down(b: seq<nat>, n: nat, m: nat): (r: seq<nat>)
    requires 0 < n <= |b|
    ensures |r| == |b| && Sum(r, n) == Sum(b, n) + m
    ensures forall i :: n <= i < |b| ==> r[i] == b[i]
  {
    if m == 0 then b else
      var a := Down(b, n, m - 1);
      var c := CoreMin(a, n);
      SumUpdate(a, n, c, a[c] + 1);
      a[c := a[c] + 1]
  }

  lemma {:induction false} DownInTwo(b: seq<nat>, n: nat, k: nat, m: nat)
    requires 0 < n <= |b|
    ensures Down(b, n, k + m) == Down(Down(b, n, k), n, m)
  {
    hide CoreMin, Sum;
    if m > 0 {
      DownInTwo(b, n, k, m - 1);
    }
  }

  /** As long as somebody has fewer than 255 entries, the emptiest is found. */
  lemma {:induction false} DownFair(b: seq<nat>, n: nat, m: nat)
    requires 0 < n <= |b| && Balanced(b, n) && Sum(b, n) + m <= SCAN_START * n
    ensures Balanced(Down(b, n, m), n)
  {
    hide CoreMin, Sum;
    if m > 0 {
      DownFair(b, n, m - 1);
      var a := Down(b, n, m - 1);
      if forall j :: 0 <= j < n ==> a[j] >= SCAN_START {
        SumAtLeast(a, n, SCAN_START);
      }
    }
  }

  /** Once everybody has 255, all goes to core 0. */
  lemma {:induction false} DownToFirst(b: seq<nat>, n: nat, m: nat)
    requires 0 < n <= |b| && forall i :: 0 <= i < n ==> b[i] >= SCAN_START
    ensures Down(b, n, m) == b[0 := b[0] + m]
  {
    hide CoreMin, Sum;
    if m > 0 {
      DownToFirst(b, n, m - 1);
    }
  }

  /** When handing out `m` entries to `n` balanced cores keeps them balanced. */
  predicate KeepsBalance(b: seq<nat>, n: nat, m: nat)
    requires 0 < n <= |b|
  {
    || n == 1
    || Sum(b, n) + m <= SCAN_START * n + 1
    || (Sum(b, n) > SCAN_START * n && forall c :: 0 < c < n ==> b[0] + m <= b[c] + 1)
  }

  lemma DownAboveStart(b: seq<nat>, n: nat, m: nat)
    requires 0 < n <= |b| && Balanced(b, n) && Sum(b, n) >= SCAN_START * n
    ensures Down(b, n, m) == b[0 := b[0] + m]
    ensures Balanced(Down(b, n, m), n) <==> forall c :: 0 < c < n ==> b[0] + m <= b[c] + 1
  {
    hide Down, Sum;
    BalancedBand(b, n, SCAN_START);
    DownToFirst(b, n, m);
    var r := b[0 := b[0] + m];
    if forall c :: 0 < c < n ==> b[0] + m <= b[c] + 1 {
      forall i, j | 0 <= i < n && 0 <= j < n ensures r[i] <= r[j] + 1 {
        assert b[i] <= b[j] + 1;
      }
    } else {
      var c :| 0 < c < n && b[0] + m > b[c] + 1;
      assert r[0] > r[c] + 1;
    }
  }

  /** Scaling down from balanced cores keeps the rest balanced exactly then. */
  lemma DownBalanced(b: seq<nat>, n: nat, m: nat)
    requires 0 < n <= |b| && Balanced(b, n)
    ensures Balanced(Down(b, n, m), n) <==> KeepsBalance(b, n, m)
  {
    hide Down, Sum;
    if Sum(b, n) + m <= SCAN_START * n {
      DownFair(b, n, m);
    } else if Sum(b, n) > SCAN_START * n {
      DownAboveStart(b, n, m);
    } else {
      var k := SCAN_START * n - Sum(b, n);
      DownFair(b, n, k);
      DownInTwo(b, n, k, m - k);
      var a := Down(b, n, k);
      BalancedBand(a, n, SCAN_START);
      DownAboveStart(a, n, m - k);
      if n > 1 {
        assert a[1] == SCAN_START;
      }
    }
  }

  /* ---------- runs of scaling steps ---------- */

  ghost predicate CountsOk(b: seq<nat>, cur: nat, size: nat) {
    0 < cur <= |b| && Sum(b, cur) == size && forall i :: cur <= i < |b| ==> b[i] == 0
  }

  function Cleared(b: seq<nat>, n: nat): (r: seq<nat>)
    requires n <= |b|
    ensures |r| == |b| && r[..n] == b[..n] && forall i :: n <= i < |b| ==> r[i] == 0
  {
    b[..n] + seq(|b| - n, _ => 0)
  }

  lemma {:induction false} SumPrefix(a: seq<nat>, b: seq<nat>, n: nat)
    requires n <= |a| && n <= |b| && a[..n] == b[..n]
    ensures Sum(a, n) == Sum(b, n)
  {
    if n > 0 {
      assert a[..n - 1] == a[..n][..n - 1] == b[..n - 1];
      assert a[..n][n - 1] == b[..n][n - 1];
      SumPrefix(a, b, n - 1);
    }
  }

  lemma {:induction false} SumMonotone(b: seq<nat>, n: nat, k: nat)
    requires n <= k <= |b|
    ensures Sum(b, n) <= Sum(b, k)
  {
    if n < k {
      SumMonotone(b, n, k - 1);
    }
  }

  lemma UpCounts(b: seq<nat>, cur: nat, to: nat, size: nat)
    requires CountsOk(b, cur, size) && cur < to <= |b|
    ensures Sum(b, cur) >= (to - cur) * (size / to)
    ensures CountsOk(Up(b, cur, to, size / to), to, size)
  {
    hide Up, Sum;
    EnoughToShare(size, cur, to);
    SumShares(Up(b, cur, to, size / to), cur, to, size / to);
  }

  lemma DownCounts(b: seq<nat>, cur: nat, to: nat, size: nat)
    requires CountsOk(b, cur, size) && 0 < to < cur
    ensures Sum(b, to) <= size
    ensures CountsOk(Down(Cleared(b, to), to, size - Sum(b, to)), to, size)
  {
    hide Down, Sum, Cleared;
    SumMonotone(b, to, cur);
    SumPrefix(Cleared(b, to), b, to);
  }

  /** The counts after scaling from `cur` to `to` cores. */
  function Scaled(b: seq<nat>, cur: nat, to: nat, size: nat): (r: seq<nat>)
    requires CountsOk(b, cur, size) && 0 < to <= |b|
    ensures CountsOk(r, to, size) && |r| == |b|
  {
    if to > cur then
      UpCounts(b, cur, to, size);
      Up(b, cur, to, size / to)
    else if to < cur then
      DownCounts(b, cur, to, size);
      Down(Cleared(b, to), to, size - Sum(b, to))
    else b
  }

  /** One step keeps balanced cores balanced exactly when the remainder fits the
      old cores (up), or the orphaned entries can be handed out fairly (down). */
  lemma StepBalanced(b: seq<nat>, cur: nat, to: nat, size: nat)
    requires CountsOk(b, cur, size) && 0 < to <= |b| && Balanced(b, cur)
    ensures Sum(b, to) <= size
    ensures Balanced(Scaled(b, cur, to, size), to)
       <==> (to > cur ==> size % to <= cur) && (to < cur ==> KeepsBalance(b, to, size - Sum(b, to)))
  {
    hide Up, Down, Sum, Cleared;
    if to > cur {
      UpBalanced(b, cur, to, size);
      SumZeros(b, cur, to);
    } else {
      SumMonotone(b, to, cur);
      var a := Cleared(b, to);
      SumPrefix(a, b, to);
      if to < cur {
        forall i | 0 <= i < to ensures a[i] == b[i] {
          assert a[..to][i] == b[..to][i];
        }
        DownBalanced(a, to, size - Sum(b, to));
      }
    }
  }

  /** What keeps one step balanced, in numbers known before it. */
  ghost predicate StepFair(b: seq<nat>, cur: nat, to: nat, size: nat)
    requires CountsOk(b, cur, size) && 0 < to <= |b|
  {
    if to > cur then size % to <= cur
    else
      SumMonotone(b, to, cur);
      to < cur ==> KeepsBalance(b, to, size - Sum(b, to))
  }

  ghost predicate AllStepsFair(b: seq<nat>, cur: nat, targets: seq<nat>, size: nat)
    requires CountsOk(b, cur, size) && forall i :: 0 <= i < |targets| ==> 0 < targets[i] <= |b|
    decreases |targets|
  {
    targets == [] ||
    (&& StepFair(b, cur, targets[0], size)
     && AllStepsFair(Scaled(b, cur, targets[0], size), targets[0], targets[1..], size))
  }

  ghost predicate AlwaysBalanced(b: seq<nat>, cur: nat, targets: seq<nat>, size: nat)
    requires CountsOk(b, cur, size) && forall i :: 0 <= i < |targets| ==> 0 < targets[i] <= |b|
    decreases |targets|
  {
    && Balanced(b, cur)
    && (targets == [] || AlwaysBalanced(Scaled(b, cur, targets[0], size), targets[0], targets[1..], size))
  }

  /** Over every run of scaling steps: cores stay balanced throughout if and only if
      every step is fair. */
  lemma {:induction false} RunBalancedExactly(b: seq<nat>, cur: nat, targets: seq<nat>, size: nat)
    requires CountsOk(b, cur, size) && forall i :: 0 <= i < |targets| ==> 0 < targets[i] <= |b|
    requires Balanced(b, cur)
    ensures AlwaysBalanced(b, cur, targets, size) <==> AllStepsFair(b, cur, targets, size)
    decreases |targets|
  {
    hide Scaled, Sum, Balanced, KeepsBalance;
    if targets != [] {
      var to := targets[0];
      StepBalanced(b, cur, to, size);
      var b1 := Scaled(b, cur, to, size);
      if Balanced(b1, to) {
        RunBalancedExactly(b1, to, targets[1..], size);
      } else {
        assert !AlwaysBalanced(b1, to, targets[1..], size);
      }
    }
  }

  /** The load monitor's steps: one core more or one core less. */
  predicate ByOne(cur: nat, targets: seq<nat>)
    decreases |targets|
  {
    targets != [] ==> cur - 1 <= targets[0] <= cur + 1 && ByOne(targets[0], targets[1..])
  }

  /** Runs of steps by one core keep the cores balanced for every table size, as long
      as the scan can tell the cores apart wherever more than one is left. */
  lemma {:induction false} RunBalanced(b: seq<nat>, cur: nat, targets: seq<nat>, size: nat)
    requires CountsOk(b, cur, size) && forall i :: 0 <= i < |targets| ==> 0 < targets[i] <= |b|
    requires Balanced(b, cur) && ByOne(cur, targets)
    requires forall i :: 0 <= i < |targets| ==> targets[i] == 1 || size <= SCAN_START * targets[i] + 1
    ensures AlwaysBalanced(b, cur, targets, size)
    decreases |targets|
  {
    hide Scaled, Sum;
    if targets != [] {
      StepBalanced(b, cur, targets[0], size);
      RunBalanced(Scaled(b, cur, targets[0], size), targets[0], targets[1..], size);
    }
  }

  /** In particular for every table of at most 511 entries. */
  lemma SmallTablesBalanced(b: seq<nat>, cur: nat, targets: seq<nat>, size: nat)
    requires CountsOk(b, cur, size) && forall i :: 0 <= i < |targets| ==> 0 < targets[i] <= |b|
    requires Balanced(b, cur) && ByOne(cur, targets) && size <= 2 * SCAN_START + 1
    ensures AlwaysBalanced(b, cur, targets, size)
  {
    RunBalanced(b, cur, targets, size);
  }

  /** With 512 entries, going from three balanced cores to two is not balanced. */
  lemma UnbalancedAfterScaleDown()
    ensures var b := [171, 171, 170];
            CountsOk(b, 3, 512) && Balanced(b, 3) && !Balanced(Scaled(b, 3, 2, 512), 2)
  {
    var b: seq<nat> := [171, 171, 170];
    assert Sum(b, 0) == 0 && Sum(b, 1) == 171 && Sum(b, 2) == 342 && Sum(b, 3) == 512;
    StepBalanced(b, 3, 2, 512);
  }
}
