/**
 The redirection table that spreads flow groups over the active cores: scaling
 up and down rewrites the fewest entries, marks them for the device and keeps
 the steering table and the per-core counts in step.
 */
module Rss {
  import opened RssBalance

  /** Table entries owned by each of `cores` cores. */
  ghost function CountsOf(reta: seq<nat>, cores: nat): (b: seq<nat>)
    ensures |b| == cores && forall c :: 0 <= c < cores ==> b[c] == multiset(reta)[c]
  {
    seq(cores, c requires 0 <= c < cores => multiset(reta)[c])
  }

  /** What the device holds after an update of the marked entries. */
  ghost function DeviceUpdated(device: seq<nat>, reta: seq<nat>, mask: seq<bool>): (r: seq<nat>)
    requires |device| == |reta| == |mask|
    ensures |r| == |device| && forall i :: 0 <= i < |r| ==> r[i] == if mask[i] then reta[i] else device[i]
  {
    seq(|device|, i requires 0 <= i < |device| => if mask[i] then reta[i] else device[i])
  }

  lemma CountsAdd(reta: seq<nat>, cores: nat, x: nat)
    requires x < cores
    ensures var b := CountsOf(reta, cores); CountsOf(reta + [x], cores) == b[x := b[x] + 1]
  {
  }

  lemma {:induction false} CountsSum(reta: seq<nat>, cores: nat, n: nat)
    requires n <= cores && forall i :: 0 <= i < |reta| ==> reta[i] < n
    ensures Sum(CountsOf(reta, cores), n) == |reta|
  {
    hide Sum;
    if reta == [] {
      SumAtMost(CountsOf(reta, cores), n, 0);
    } else {
      var k := |reta| - 1;
      var (rest, x) := (reta[..k], reta[k]);
      CountsSum(rest, cores, n);
      assert reta == rest + [x];
      var b := CountsOf(rest, cores);
      CountsAdd(rest, cores, x);
      SumUpdate(b, n, x, b[x] + 1);
    }
  }

  lemma CountsMove(reta: seq<nat>, cores: nat, k: nat, to: nat)
    requires k < |reta| && reta[k] < cores && to < cores && reta[k] != to
    ensures var (b, c) := (CountsOf(reta, cores), reta[k]);
            b[c] > 0 && CountsOf(reta[k := to], cores) == b[c := b[c] - 1][to := b[to] + 1]
  {
    var (b, c) := (CountsOf(reta, cores), reta[k]);
    var s := reta[k := to];
    assert multiset(s) == multiset(reta) - multiset{c} + multiset{to};
    assert c in multiset(reta);
  }

  lemma CountsTables(reta: seq<nat>, cores: nat, n: nat)
    requires 0 < n <= cores && forall i :: 0 <= i < |reta| ==> reta[i] < n
    ensures CountsOk(CountsOf(reta, cores), n, |reta|)
  {
    hide Sum;
    CountsSum(reta, cores, n);
    forall c | n <= c < cores ensures multiset(reta)[c] == 0 {
      assert c !in reta;
    }
  }

  lemma {:induction false} CoreMinPrefix(a: seq<nat>, b: seq<nat>, n: nat)
    requires n <= |a| && n <= |b| && forall i :: 0 <= i < n ==> a[i] == b[i]
    ensures CoreMin(a, n) == CoreMin(b, n)
  {
    if n > 0 {
      CoreMinPrefix(a, b, n - 1);
    }
  }

  class RedirectionTable {
    const size: nat
    const cores: nat
    const reta: array<nat>
    const mask: array<bool>
    const steering: array<nat>
    const buckets: array<nat>
    var cur: nat
    var scaleTo: nat

    /** The table as the network device has it. */
    ghost var device: seq<nat>

    ghost predicate Shape()
      reads this
    {
      && reta.Length == mask.Length == steering.Length == |device| == size && buckets.Length == cores <= 256
      && reta != steering && reta != buckets && steering != buckets
    }

    /** Steering table and counts follow the redirection table. */
    ghost predicate Agree()
      reads this, reta, steering, buckets
    {
      Shape() && steering[..] == reta[..] && buckets[..] == CountsOf(reta[..], cores)
    }

    ghost predicate Active(n: nat)
      reads reta
    {
      forall i :: 0 <= i < reta.Length ==> reta[i] < n
    }

    ghost predicate Valid()
      reads this, reta, steering, buckets
    {
      Agree() && Active(cur) && device == reta[..] && CountsOk(buckets[..], cur, size)
    }

    /** Flow groups are dealt out to the cores in turn. */
    constructor (size: nat, cores: nat, cur: nat)
      requires 0 < cur <= cores <= 256
      ensures Valid() && this.size == size && this.cores == cores && this.cur == cur && scaleTo == 0
      ensures Balanced(buckets[..], cur)
      ensures fresh(reta) && fresh(mask) && fresh(steering) && fresh(buckets)
    {
      this.size, this.cores, this.cur, scaleTo := size, cores, cur, 0;
      reta, mask, steering := new nat[size], new bool[size], new nat[size];
      buckets := new nat[cores](_ => 0);
      device := seq(size, _ => 0);
      new;
      Deal();
      CountsTables(reta[..], cores, cur);
      device := DeviceUpdated(device, reta[..], mask[..]);
    }

    method DealOne(i: nat, c: nat)
      requires Shape() && i < size && c < cores && buckets[..] == CountsOf(reta[..i], cores)
      modifies reta, mask, steering, buckets
      ensures reta[..] == old(reta[..])[i := c] && mask[..] == old(mask[..])[i := true]
      ensures steering[..] == old(steering[..])[i := c]
      ensures buckets[..] == old(buckets[..])[c := old(buckets[c]) + 1] == CountsOf(reta[..i + 1], cores)
    {
      hide CountsOf;
      ghost var was := reta[..i];
      CountsAdd(was, cores, c);
      buckets[c] := buckets[c] + 1;
      mask[i], reta[i], steering[i] := true, c, c % 256;
      assert reta[..i + 1] == was + [c];
    }

    method Deal()
      requires Shape() && 0 < cur <= cores && forall c :: 0 <= c < cores ==> buckets[c] == 0
      modifies reta, mask, steering, buckets
      ensures Agree() && Active(cur) && Balanced(buckets[..], cur)
      ensures forall i :: 0 <= i < size ==> mask[i]
    {
      hide CountsOf;
      var i, c := 0, 0;
      ghost var rounds := 0;
      assert buckets[..] == CountsOf(reta[..0], cores);
      while i < size
        invariant i <= size && c < cur
        invariant forall j :: 0 <= j < i ==> reta[j] < cur && mask[j] && steering[j] == reta[j]
        invariant buckets[..] == CountsOf(reta[..i], cores)
        invariant forall j :: 0 <= j < cur ==> buckets[..][j] == if j < c then rounds + 1 else rounds
        modifies reta, mask, steering, buckets
      {
        ghost var (r, s, m, b) := (reta[..], steering[..], mask[..], buckets[..]);
        DealOne(i, c);
        forall j | 0 <= j <= i ensures reta[j] < cur && mask[j] && steering[j] == reta[j] {
          assert reta[..][j] == r[i := c][j] && steering[..][j] == s[i := c][j] && mask[..][j] == m[i := true][j];
        }
        i := i + 1;
        if c + 1 == cur {
          rounds := rounds + 1;
        }
        c := if c + 1 == cur then 0 else c + 1;
      }
      assert reta[..] == reta[..i];
    }

    method CoreMinScan(n: nat) returns (least: nat)
      requires n <= buckets.Length
      ensures least == CoreMin(buckets[..], n)
    {
      least := 0;
      var value := SCAN_START;
      for i := 0 to n
        invariant least == CoreMin(buckets[..], i)
        invariant value == if i > 0 && buckets[least] < SCAN_START then buckets[least] else SCAN_START
      {
        if buckets[i] < value {
          value, least := buckets[i], i;
        }
      }
    }

    method CoreMaxScan(n: nat) returns (most: nat)
      requires 0 < n <= buckets.Length
      ensures most == CoreMax(buckets[..], n)
    {
      most := 0;
      var value := 0;
      for i := 0 to n
        invariant i == 0 ==> most == 0 && value == 0
        invariant i > 0 ==> most == CoreMax(buckets[..], i) && value == buckets[most]
      {
        if buckets[i] >= value {
          value, most := buckets[i], i;
        }
      }
    }

    /** Looks for an entry of core `c`, from `start` around the table. */
    method FindEntry(start: nat, c: nat) returns (k: nat)
      requires start < reta.Length && c in reta[..]
      ensures k < reta.Length && reta[k] == c
    {
      ghost var p :| 0 <= p < reta.Length && reta[p] == c;
      k := start;
      while reta[k] != c
        invariant k < reta.Length
        decreases if p >= k then p - k else p + reta.Length - k
      {
        k := if k + 1 < reta.Length then k + 1 else 0;
      }
    }

    method ClearMask()
      modifies mask
      ensures forall i :: 0 <= i < mask.Length ==> !mask[i]
    {
      for i := 0 to mask.Length
        invariant forall j :: 0 <= j < i ==> !mask[j]
      {
        mask[i] := false;
      }
    }

    method MoveEntry(k: nat, to: nat)
      requires Agree() && k < size && reta[k] < cores && to < cores && reta[k] != to
      modifies reta, mask, steering, buckets
      ensures Agree() && reta[..] == old(reta[..])[k := to] && mask[..] == old(mask[..])[k := true]
      ensures var (b, c) := (old(buckets[..]), old(reta[k]));
              b[c] > 0 && buckets[..] == b[c := b[c] - 1][to := b[to] + 1]
    {
      ghost var was := reta[..];
      CountsMove(was, cores, k, to);
      var c := reta[k];
      assert buckets[..][c] > 0;
      mask[k], reta[k] := true, to;
      steering[k] := to % 256;
      buckets[c] := buckets[c] - 1;
      buckets[to] := buckets[to] + 1;
      assert reta[..] == was[k := to];
      assert steering[..] == was[k := to];
    }

    /** Gives core `j` one entry of the fullest of the first `from` cores. */
    method GiveEntry(from: nat, j: nat, start: nat) returns (k: nat)
      requires Agree() && 0 < from <= j < cores && start < size && Sum(buckets[..], from) > 0
      modifies reta, mask, steering, buckets
      ensures Agree() && k < size && old(reta[k]) < from
      ensures buckets[..] == Shed(old(buckets[..]), from, j)
      ensures reta[..] == old(reta[..])[k := j] && mask[..] == old(mask[..])[k := true]
    {
      hide CoreMax, Sum, CountsOf;
      MaxPositive(buckets[..], from);
      var c := CoreMaxScan(from);
      Owned(reta[..], cores, c);
      k := FindEntry(start, c);
      MoveEntry(k, j);
    }

    /** Gives core `j` its share, entry by entry. */
    method GiveShare(from: nat, j: nat, share: nat, start: nat) returns (k: nat)
      requires Agree() && 0 < from <= j < cores && (size > 0 ==> start < size)
      requires share <= size && Sum(buckets[..], from) >= share
      modifies reta, mask, steering, buckets
      ensures Agree() && (size > 0 ==> k < size)
      ensures buckets[..] == GiveTo(old(buckets[..]), from, j, share)
      ensures Moved(old(reta[..]), old(mask[..]), reta[..], mask[..], from, j)
    {
      hide GiveTo, Shed, Sum, CountsOf, Moved, Balanced;
      ghost var (b, r, m) := (buckets[..], reta[..], mask[..]);
      NoneMoved(r, m, from, j);
      k := start;
      GiveNone(b, from, j);
      for i := 0 to share
        invariant Agree() && (size > 0 ==> k < size)
        invariant buckets[..] == GiveTo(b, from, j, i)
        invariant Moved(r, m, reta[..], mask[..], from, j)
        modifies reta, mask, steering, buckets
      {
        GiveOne(b, from, j, i);
        ghost var (r1, m1) := (reta[..], mask[..]);
        k := GiveEntry(from, j, k);
        OneMoved(r, m, r1, m1, from, j, k);
      }
    }

    /** Gives core `j` its share; the cores before it have got theirs, starting from
        counts `b` and table `r`. */
    method FillCore(j: nat, to: nat, share: nat, start: nat, ghost b: seq<nat>, ghost r: seq<nat>) returns (k: nat)
      requires Agree() && Active(j) && 0 < cur <= j < to <= cores && (size > 0 ==> start < size)
      requires CountsOk(b, cur, size) && |b| == cores && share == Share(size, to)
      requires buckets[..] == UpTo(b, cur, j, to, size)
      requires Rewritten(r, reta[..], mask[..]) && GoesUp(r, reta[..], cur)
      modifies reta, mask, steering, buckets
      ensures Agree() && Active(j + 1) && (size > 0 ==> k < size)
      ensures buckets[..] == UpTo(b, cur, j + 1, to, size)
      ensures Rewritten(r, reta[..], mask[..]) && GoesUp(r, reta[..], cur)
    {
      hide Share, UpTo, Sum, GiveTo, CountsOf, Moved, Rewritten, GoesUp, Balanced;
      UpToNext(b, cur, j, to, size);
      ghost var (r1, m1) := (reta[..], mask[..]);
      k := GiveShare(cur, j, share, start);
      MovedOn(r, r1, m1, reta[..], mask[..], cur, j);
    }

    /** Spreads entries of the active cores over the cores up to `to`. */
    method ScaleUp(to: nat)
      requires Valid() && cur < to <= cores
      modifies this`device, reta, mask, steering, buckets
      ensures Agree() && Active(to) && device == reta[..]
      ensures buckets[..] == Scaled(old(buckets[..]), cur, to, size)
      ensures Rewritten(old(reta[..]), reta[..], mask[..]) && GoesUp(old(reta[..]), reta[..], cur)
    {
      hide Share, UpTo, Sum, GiveTo, CountsOf, Moved, Scaled, Rewritten, GoesUp, Balanced;
      var share: nat := Share(size, to);
      ClearMask();
      ghost var (b, r) := (buckets[..], reta[..]);
      NotRewritten(r, mask[..], cur);
      UpToEnds(b, cur, to, size);
      var k: nat := 0;
      for j := cur to to
        invariant Agree() && Active(j) && (size > 0 ==> k < size)
        invariant buckets[..] == UpTo(b, cur, j, to, size)
        invariant Rewritten(r, reta[..], mask[..]) && GoesUp(r, reta[..], cur)
        modifies reta, mask, steering, buckets
      {
        k := FillCore(j, to, share, k, b, r);
      }
      DeviceSynced(r, reta[..], mask[..]);
      device := DeviceUpdated(device, reta[..], mask[..]);
    }

    /** Gives entry `i` away if its core goes; `m` have been given away before,
        starting from table `r` and counts `b`. */
    method HandOver(i: nat, to: nat, ghost b: seq<nat>, ghost r: seq<nat>, ghost m: nat) returns (ghost m': nat)
      requires Agree() && Active(cur) && i < size && 0 < to < cur <= cores
      requires HandedOut(b, buckets[..], to, m) && Rewritten(r, reta[..], mask[..]) && GoesDown(r, reta[..], i, to)
      modifies reta, mask, steering, buckets
      ensures Agree() && Active(cur)
      ensures HandedOut(b, buckets[..], to, m') && Rewritten(r, reta[..], mask[..]) && GoesDown(r, reta[..], i + 1, to)
    {
      hide CountsOf, Rewritten, GoesDown, CoreMin, HandedOut;
      ghost var (r1, m1, b1) := (reta[..], mask[..], buckets[..]);
      if reta[i] >= to {
        var c := CoreMinScan(to);
        MoveEntry(i, c);
        HandedOne(b, b1, to, m, r1[i]);
        WentDown(r, r1, m1, i, to, c);
        m' := m + 1;
      } else {
        StayedDown(r, r1, i, to);
        m' := m;
      }
    }

    /** Hands the entries of the cores from `to` on to the others. */
    method ScaleDown(to: nat)
      requires Valid() && 0 < to < cur
      modifies this`device, reta, mask, steering, buckets
      ensures Agree() && Active(to) && device == reta[..]
      ensures buckets[..] == Scaled(old(buckets[..]), cur, to, size)
      ensures Rewritten(old(reta[..]), reta[..], mask[..]) && GoesDown(old(reta[..]), reta[..], size, to)
    {
      hide Down, Sum, CountsOf, Scaled, Rewritten, GoesDown, Cleared, HandedOut;
      ClearMask();
      ghost var (b, r) := (buckets[..], reta[..]);
      ghost var m: nat := 0;
      NotRewritten(r, mask[..], to);
      HandedNone(b, to);
      for i := 0 to size
        invariant Agree() && Active(cur)
        invariant HandedOut(b, buckets[..], to, m)
        invariant Rewritten(r, reta[..], mask[..]) && GoesDown(r, reta[..], i, to)
        modifies reta, mask, steering, buckets
      {
        m := HandOver(i, to, b, r, m);
      }
      AllDown(r, reta[..], to);
      CountsTables(reta[..], cores, to);
      HandedAll(b, buckets[..], cur, to, m, size);
      DeviceSynced(r, reta[..], mask[..]);
      device := DeviceUpdated(device, reta[..], mask[..]);
    }

    /** Carries out a pending request to run on `scaleTo` cores. */
    method PollScale()
      requires Valid() && scaleTo <= cores
      modifies this`device, this`cur, this`scaleTo, reta, mask, steering, buckets
      ensures Valid() && scaleTo == 0 && cur == if old(scaleTo) == 0 then old(cur) else old(scaleTo)
      ensures buckets[..] == Scaled(old(buckets[..]), old(cur), cur, size)
    {
      hide CountsOf, Rewritten, GoesUp, GoesDown, Scaled;
      var st := scaleTo;
      ScaledSame(buckets[..], cur, size);
      if st == 0 {
        return;
      }
      if st < cur {
        ScaleDown(st);
      } else if st > cur {
        ScaleUp(st);
      }
      CountsTables(reta[..], cores, st);
      cur, scaleTo := st, 0;
    }
  }

  /** Exactly the changed entries are marked. */
  ghost predicate Rewritten(r: seq<nat>, r': seq<nat>, m: seq<bool>) {
    |r| == |r'| == |m| && forall i :: 0 <= i < |r| ==> (m[i] <==> r'[i] != r[i])
  }

  /** Entries only move from old cores to new ones. */
  ghost predicate GoesUp(r: seq<nat>, r': seq<nat>, from: nat) {
    |r| == |r'| && forall i :: 0 <= i < |r| ==> r'[i] == r[i] || r[i] < from <= r'[i]
  }

  /** Only entries of the cores that go away move, and of the first `n` all. */
  ghost predicate GoesDown(r: seq<nat>, r': seq<nat>, n: nat, to: nat) {
    |r| == |r'| && forall i :: 0 <= i < |r| ==> (r'[i] == r[i] && (i < n ==> r[i] < to)) || r'[i] < to <= r[i]
  }

  /** Every entry stays where it is, unmarked if it was, or moves from an old
      core to core `j` and is marked. */
  ghost predicate Moved(r: seq<nat>, m: seq<bool>, r': seq<nat>, m': seq<bool>, from: nat, j: nat) {
    && |r| == |m| == |r'| == |m'|
    && (forall i :: 0 <= i < |r| ==> r'[i] == r[i] || (r[i] < from && r'[i] == j))
    && (forall i :: 0 <= i < |r| ==> m'[i] == (m[i] || r'[i] != r[i]))
  }

  lemma NoneMoved(r: seq<nat>, m: seq<bool>, from: nat, j: nat)
    requires |r| == |m|
    ensures Moved(r, m, r, m, from, j)
  {
  }

  lemma OneMoved(r: seq<nat>, m: seq<bool>, r': seq<nat>, m': seq<bool>, from: nat, j: nat, k: nat)
    requires Moved(r, m, r', m', from, j) && from <= j && k < |r'| && r'[k] < from
    ensures Moved(r, m, r'[k := j], m'[k := true], from, j)
  {
  }

  lemma GiveNone(b: seq<nat>, from: nat, j: nat)
    requires 0 < from <= j < |b|
    ensures GiveTo(b, from, j, 0) == b
  {
  }

  lemma GiveOne(b: seq<nat>, from: nat, j: nat, i: nat)
    requires 0 < from <= j < |b| && i < Sum(b, from)
    ensures GiveTo(b, from, j, i + 1) == Shed(GiveTo(b, from, j, i), from, j)
  {
    hide Shed, Sum;
  }

  lemma Owned(reta: seq<nat>, cores: nat, c: nat)
    requires c < cores && CountsOf(reta, cores)[c] > 0
    ensures c in reta
  {
  }

  lemma NotRewritten(r: seq<nat>, m: seq<bool>, n: nat)
    requires |r| == |m| && forall i :: 0 <= i < |m| ==> !m[i]
    ensures Rewritten(r, r, m) && GoesUp(r, r, n) && GoesDown(r, r, 0, n)
  {
  }

  lemma DeviceSynced(r: seq<nat>, r': seq<nat>, m: seq<bool>)
    requires Rewritten(r, r', m)
    ensures DeviceUpdated(r, r', m) == r'
  {
  }

  function Share(size: nat, to: nat): (q: nat)
    requires to > 0
    ensures q <= size
  {
    QuotientAtMost(size / to, size % to, to);
    size / to
  }

  lemma QuotientAtMost(q: nat, r: nat, to: nat)
    requires to > 0
    ensures q <= to * q + r
  {
    assert to * q == (to - 1) * q + q;
  }

  lemma SharesFit(total: nat, a: nat, d: nat, q: nat)
    requires total >= a * q && d <= a
    ensures total >= d * q && (d < a ==> total >= (d + 1) * q == d * q + q)
  {
    assert a * q == d * q + (a - d) * q;
    assert (d + 1) * q == d * q + q;
    if d < a {
      assert (a - d) * q == (a - d - 1) * q + q;
    }
  }

  lemma EnoughForAll(size: nat, cur: nat, to: nat)
    requires 0 < cur <= to
    ensures size >= (to - cur) * Share(size, to)
  {
    EnoughToShare(size, cur, to);
  }

  lemma EnoughLeft(b: seq<nat>, cur: nat, j: nat, to: nat, size: nat)
    requires CountsOk(b, cur, size) && cur <= j <= to && cur < to <= |b|
    ensures Sum(b, cur) >= (j - cur) * Share(size, to)
    ensures j < to ==> Sum(b, cur) >= (j + 1 - cur) * Share(size, to) == (j - cur) * Share(size, to) + Share(size, to)
  {
    hide Share, Sum;
    EnoughForAll(size, cur, to);
    SharesFit(size, to - cur, j - cur, Share(size, to));
  }

  /** The counts once the new cores up to `j` have their share. */
  ghost function UpTo(b: seq<nat>, cur: nat, j: nat, to: nat, size: nat): (r: seq<nat>)
    requires CountsOk(b, cur, size) && cur <= j <= to && cur < to <= |b|
    ensures |r| == |b|
  {
    EnoughLeft(b, cur, j, to, size);
    Up(b, cur, j, Share(size, to))
  }

  lemma UpToEnds(b: seq<nat>, cur: nat, to: nat, size: nat)
    requires CountsOk(b, cur, size) && cur < to <= |b|
    ensures UpTo(b, cur, cur, to, size) == b && UpTo(b, cur, to, to, size) == Scaled(b, cur, to, size)
  {
    hide Sum;
  }

  lemma UpToNext(b: seq<nat>, cur: nat, j: nat, to: nat, size: nat)
    requires CountsOk(b, cur, size) && cur <= j < to <= |b|
    ensures Sum(UpTo(b, cur, j, to, size), cur) >= Share(size, to)
    ensures UpTo(b, cur, j + 1, to, size) == GiveTo(UpTo(b, cur, j, to, size), cur, j, Share(size, to))
  {
    hide Sum, GiveTo, Share;
    EnoughLeft(b, cur, j, to, size);
  }

  lemma MovedOn(r: seq<nat>, r1: seq<nat>, m1: seq<bool>, r2: seq<nat>, m2: seq<bool>, from: nat, j: nat)
    requires Rewritten(r, r1, m1) && GoesUp(r, r1, from) && Moved(r1, m1, r2, m2, from, j)
    requires from <= j && forall i :: 0 <= i < |r1| ==> r1[i] < j
    ensures Rewritten(r, r2, m2) && GoesUp(r, r2, from)
    ensures forall i :: 0 <= i < |r2| ==> r2[i] < j + 1
  {
  }

  /** The first `to` counts are what handing out `m` entries leads to. */
  ghost predicate HandedOut(b: seq<nat>, b': seq<nat>, to: nat, m: nat) {
    && 0 < to <= |b| == |b'|
    && forall i :: 0 <= i < to ==> b'[i] == Down(Cleared(b, to), to, m)[i]
  }

  lemma HandedNone(b: seq<nat>, to: nat)
    requires 0 < to <= |b|
    ensures HandedOut(b, b, to, 0)
  {
    hide Cleared;
    var a := Cleared(b, to);
    forall i | 0 <= i < to ensures b[i] == a[i] {
      assert b[..to][i] == a[..to][i];
    }
  }

  lemma HandedOne(b: seq<nat>, b': seq<nat>, to: nat, m: nat, c: nat)
    requires HandedOut(b, b', to, m) && to <= c < |b'| && b'[c] > 0
    ensures var k := CoreMin(b', to); HandedOut(b, b'[c := b'[c] - 1][k := b'[k] + 1], to, m + 1)
  {
    hide Cleared, CoreMin, Sum;
    CoreMinPrefix(b', Down(Cleared(b, to), to, m), to);
  }

  lemma HandedAll(b: seq<nat>, b': seq<nat>, cur: nat, to: nat, m: nat, size: nat)
    requires CountsOk(b, cur, size) && to < cur && HandedOut(b, b', to, m) && CountsOk(b', to, size)
    ensures b' == Scaled(b, cur, to, size)
  {
    hide Cleared, Sum, Down;
    var a := Cleared(b, to);
    var d := Down(a, to, m);
    assert b'[..to] == d[..to];
    SumPrefix(b', d, to);
    SumPrefix(a, b, to);
    assert b' == d;
  }

  lemma WentDown(r: seq<nat>, r': seq<nat>, m: seq<bool>, i: nat, to: nat, c: nat)
    requires Rewritten(r, r', m) && GoesDown(r, r', i, to) && i < |r'| && c < to <= r'[i]
    ensures Rewritten(r, r'[i := c], m[i := true]) && GoesDown(r, r'[i := c], i + 1, to)
  {
  }

  lemma StayedDown(r: seq<nat>, r': seq<nat>, i: nat, to: nat)
    requires GoesDown(r, r', i, to) && i < |r'| && r'[i] < to
    ensures GoesDown(r, r', i + 1, to)
  {
  }

  lemma AllDown(r: seq<nat>, r': seq<nat>, to: nat)
    requires GoesDown(r, r', |r'|, to)
    ensures forall i :: 0 <= i < |r'| ==> r'[i] < to
  {
  }

  lemma ScaledSame(b: seq<nat>, cur: nat, size: nat)
    requires CountsOk(b, cur, size)
    ensures Scaled(b, cur, cur, size) == b
  {
  }
}
