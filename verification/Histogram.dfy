/** The log-scale latency histogram: sixteen buckets that double from 250 us, the last one unbounded. */
module Histogram {
  import opened Bytes

  const BUCKETS: nat := 16

  /** Inclusive upper bound of each bucket in microseconds. */
  const UPPER_US: seq<U64> :=
    [250, 500, 1_000, 2_000, 4_000, 8_000, 16_000, 32_000, 64_000, 128_000,
     256_000, 512_000, 1_000_000, 2_000_000, 4_000_000, U64_MAX]

  /** The bucket `i` is the one a sample of `us` microseconds belongs to. */
  predicate InBucket(us: U64, i: nat)
    requires i < BUCKETS
  {
    us <= UPPER_US[i] && (i > 0 ==> UPPER_US[i - 1] < us)
  }

  lemma {:induction false} UpperIncreasing(i: nat, j: nat)
    requires i < j < BUCKETS
    ensures UPPER_US[i] < UPPER_US[j]
  {
  }

  function CountBucket(samples: seq<U64>, i: nat): (n: nat)
    requires i < BUCKETS
    ensures n <= |samples|
  {
    if samples == [] then 0
    else CountBucket(samples[..|samples| - 1], i) + if InBucket(samples[|samples| - 1], i) then 1 else 0
  }

  function Total(samples: seq<U64>): (n: nat) {
    if samples == [] then 0 else Total(samples[..|samples| - 1]) + samples[|samples| - 1]
  }

  function Largest(samples: seq<U64>): (n: U64) {
    if samples == [] then 0
    else
      var (m, x) := (Largest(samples[..|samples| - 1]), samples[|samples| - 1]);
      if m < x then x else m
  }

  function Wrap(n: nat): (r: U64) {
    n % 0x1_0000_0000_0000_0000
  }

  lemma {:induction false} WrapAdd(n: nat, x: U64)
    ensures WrappingAdd(Wrap(n), x) == Wrap(n + x)
    ensures n <= U64_MAX ==> Wrap(n) == n
  {
    var (q, r) := (n / 0x1_0000_0000_0000_0000, Wrap(n));
    assert n == 0x1_0000_0000_0000_0000 * q + r;
    if r + x <= U64_MAX {
      ModUnique(r + x, q);
    } else {
      ModUnique(r + x - U64_MAX - 1, q + 1);
    }
  }

  datatype HistSnapshot = HistSnapshot(counts: seq<U64>, sumUs: U64, maxUs: U64)

  /** What the counters read after recording `samples`; every counter wraps at 2^64. */
  function Snap(samples: seq<U64>): (s: HistSnapshot)
    ensures |s.counts| == BUCKETS
  {
    HistSnapshot(seq(BUCKETS, i requires 0 <= i < BUCKETS => Wrap(CountBucket(samples, i))),
                 Wrap(Total(samples)), Largest(samples))
  }

  class Recorder {
    const buckets: array<U64>
    var sumUs: U64
    var maxUs: U64
    ghost var samples: seq<U64>

    ghost predicate Valid()
      reads this, buckets
    {
      && buckets.Length == BUCKETS
      && HistSnapshot(buckets[..], sumUs, maxUs) == Snap(samples)
    }

    constructor ()
      ensures Valid() && fresh(buckets) && samples == []
    {
      buckets := new U64[BUCKETS](_ => 0);
      sumUs, maxUs, samples := 0, 0, [];
      new;
      assert buckets[..] == Snap([]).counts;
    }

    /** Record an elapsed time; more microseconds than 64 bits hold count as the largest value. */
    method Record(elapsedUs: nat)
      requires Valid()
      modifies this, buckets
      ensures Valid() && samples == old(samples) + [if elapsedUs <= U64_MAX then elapsedUs else U64_MAX]
    {
      var us: U64 := if elapsedUs <= U64_MAX then elapsedUs else U64_MAX;
      var idx := Position(us);
      ghost var was := buckets[..];
      buckets[idx] := WrappingAdd(buckets[idx], 1);
      sumUs := WrappingAdd(sumUs, us);
      maxUs := if maxUs < us then us else maxUs;
      SnapStep(samples, us, idx);
      samples := samples + [us];
      assert buckets[..] == was[idx := WrappingAdd(was[idx], 1)];
    }

    method Snapshot() returns (s: HistSnapshot)
      requires Valid()
      ensures s == Snap(samples)
    {
      var counts: seq<U64> := [];
      for i := 0 to BUCKETS
        invariant counts == buckets[..i]
      {
        counts := counts + [buckets[i]];
      }
      assert buckets[..BUCKETS] == buckets[..];
      s := HistSnapshot(counts, sumUs, maxUs);
    }
  }

  /** `position(|b| us <= *b)`; the unbounded last bucket makes the default unreachable. */
  method Position(us: U64) returns (idx: nat)
    ensures idx < BUCKETS && InBucket(us, idx)
    ensures forall i :: 0 <= i < BUCKETS && i != idx ==> !InBucket(us, i)
  {
    idx := 0;
    while idx < BUCKETS - 1 && us > UPPER_US[idx]
      invariant idx < BUCKETS && (idx > 0 ==> UPPER_US[idx - 1] < us)
    {
      idx := idx + 1;
    }
    forall i | 0 <= i < BUCKETS && i != idx
      ensures !InBucket(us, i)
    {
      if i < idx {
        if i < idx - 1 {
          UpperIncreasing(i, idx - 1);
        }
      } else if idx < i - 1 {
        UpperIncreasing(idx, i - 1);
      }
    }
  }

  lemma {:induction false} SnapStep(samples: seq<U64>, us: U64, idx: nat)
    requires idx < BUCKETS && InBucket(us, idx)
    requires forall i :: 0 <= i < BUCKETS && i != idx ==> !InBucket(us, i)
    ensures var (s, t) := (Snap(samples), Snap(samples + [us]));
            && t.counts == s.counts[idx := WrappingAdd(s.counts[idx], 1)]
            && t.sumUs == WrappingAdd(s.sumUs, us)
            && t.maxUs == if s.maxUs < us then us else s.maxUs
  {
    var more := samples + [us];
    assert more[..|more| - 1] == samples;
    WrapAdd(Total(samples), us);
    forall i | 0 <= i < BUCKETS
      ensures Snap(more).counts[i] == Snap(samples).counts[idx := WrappingAdd(Snap(samples).counts[idx], 1)][i]
    {
      WrapAdd(CountBucket(samples, i), 1);
    }
  }

  // ---------- percentiles ----------

  function Count(counts: seq<U64>): (n: nat) {
    if counts == [] then 0 else Count(counts[..|counts| - 1]) + counts[|counts| - 1]
  }

  /** `ceil(p% of n)`, at least 1; the product saturates. */
  function Rank(p: U32, total: nat): (r: nat) {
    var product := if p * total <= U64_MAX then p * total else U64_MAX;
    var up := (product + 99) / 100;
    if up < 1 then 1 else up
  }

  /** The first bucket whose running count reaches the rank, else the last. */
  function RankBucket(counts: seq<U64>, rank: nat, i: nat): (b: nat)
    requires |counts| == BUCKETS && i < BUCKETS
    ensures i <= b < BUCKETS
    decreases BUCKETS - i
  {
    if i == BUCKETS - 1 || Wrap(Count(counts[..i + 1])) >= rank then i else RankBucket(counts, rank, i + 1)
  }

  function Percentile(counts: seq<U64>, p: U32): (us: U64)
    requires |counts| == BUCKETS
  {
    var total := Wrap(Count(counts));
    if total == 0 then 0 else UPPER_US[RankBucket(counts, Rank(p, total), 0)]
  }

  lemma {:induction false} CountNext(counts: seq<U64>, i: nat)
    requires i < |counts|
    ensures Count(counts[..i + 1]) == Count(counts[..i]) + counts[i] && Count(counts[..0]) == 0 == Wrap(0)
  {
    assert counts[..i + 1][..i] == counts[..i];
  }

  /** The accumulating loop, for any counts: as in a release build, both sums wrap. */
  method PercentileUs(s: HistSnapshot, p: U32) returns (us: U64)
    requires |s.counts| == BUCKETS
    ensures us == Percentile(s.counts, p)
  {
    hide Wrap, Rank, WrappingAdd, Count;
    var total := SumCounts(s.counts);
    if total == 0 {
      return 0;
    }
    var rank := Rank(p, total);
    CountNext(s.counts, 0);
    var seen: U64 := 0;
    var i: nat := 0;
    while i < BUCKETS
      invariant i <= BUCKETS && seen == Wrap(Count(s.counts[..i]))
      invariant i < BUCKETS ==> RankBucket(s.counts, rank, i) == RankBucket(s.counts, rank, 0)
      invariant i == BUCKETS ==> RankBucket(s.counts, rank, 0) == BUCKETS - 1
    {
      CountNext(s.counts, i);
      WrapAdd(Count(s.counts[..i]), s.counts[i]);
      seen := WrappingAdd(seen, s.counts[i]);
      if seen >= rank {
        return UPPER_US[i];
      }
      i := i + 1;
    }
    us := UPPER_US[BUCKETS - 1];
  }

  method SumCounts(counts: seq<U64>) returns (n: U64)
    ensures n == Wrap(Count(counts))
  {
    n := 0;
    for i := 0 to |counts|
      invariant n == Wrap(Count(counts[..i]))
    {
      CountNext(counts, i);
      WrapAdd(Count(counts[..i]), counts[i]);
      n := WrappingAdd(n, counts[i]);
    }
    assert counts[..|counts|] == counts;
  }

  /** Samples at most `v`. */
  function CountLe(samples: seq<U64>, v: int): (n: nat)
    ensures n <= |samples|
  {
    if samples == [] then 0
    else CountLe(samples[..|samples| - 1], v) + if samples[|samples| - 1] <= v then 1 else 0
  }

  /** `x` is the sample of rank `r` in sorted order: fewer than `r` samples are below it, at least `r` are not above it. */
  predicate IsOrderStatistic(samples: seq<U64>, r: nat, x: int) {
    CountLe(samples, x - 1) < r <= CountLe(samples, x)
  }

  lemma {:induction false} CountLeMono(samples: seq<U64>, v: int, w: int)
    requires v <= w
    ensures CountLe(samples, v) <= CountLe(samples, w)
  {
    if samples != [] {
      CountLeMono(samples[..|samples| - 1], v, w);
    }
  }

  lemma {:induction false} CountLeAll(samples: seq<U64>)
    ensures CountLe(samples, U64_MAX) == |samples| && CountLe(samples, -1) == 0
  {
    if samples != [] {
      CountLeAll(samples[..|samples| - 1]);
    }
  }

  lemma {:induction false} LeastWithRank(samples: seq<U64>, r: nat, v: nat) returns (x: int)
    requires 1 <= r <= CountLe(samples, v)
    ensures 0 <= x <= v && IsOrderStatistic(samples, r, x)
    decreases v
  {
    CountLeAll(samples);
    if v == 0 || CountLe(samples, v - 1) < r {
      x := v;
    } else {
      x := LeastWithRank(samples, r, v - 1);
    }
  }

  /** Every rank has exactly one order statistic. */
  lemma {:induction false} OrderStatisticUnique(samples: seq<U64>, r: nat) returns (x: int)
    requires 1 <= r <= |samples|
    ensures forall y :: IsOrderStatistic(samples, r, y) <==> y == x
  {
    CountLeAll(samples);
    x := LeastWithRank(samples, r, U64_MAX);
    forall y | IsOrderStatistic(samples, r, y)
      ensures y == x
    {
      if y < x {
        CountLeMono(samples, y, x - 1);
      } else if x < y {
        CountLeMono(samples, x, y - 1);
      }
    }
  }

  lemma {:induction false} BucketIsDifference(samples: seq<U64>, i: nat)
    requires i < BUCKETS
    ensures CountBucket(samples, i) ==
            CountLe(samples, UPPER_US[i]) - if i == 0 then 0 else CountLe(samples, UPPER_US[i - 1])
  {
    if samples != [] {
      BucketIsDifference(samples[..|samples| - 1], i);
      if i > 0 {
        UpperIncreasing(i - 1, i);
      }
    }
  }

  /** The running count through bucket `i` is the number of samples at most its bound. */
  lemma {:induction false} RunningCount(samples: seq<U64>, i: nat)
    requires i < BUCKETS && |samples| <= U64_MAX
    ensures Count(Snap(samples).counts[..i + 1]) == CountLe(samples, UPPER_US[i])
  {
    hide Wrap, Count, CountBucket, CountLe;
    var counts := Snap(samples).counts;
    CountNext(counts, i);
    WrapAdd(CountBucket(samples, i), 0);
    BucketIsDifference(samples, i);
    if i > 0 {
      RunningCount(samples, i - 1);
    }
  }

  /** Counts that fit one `u64` together fit it on the way. */
  lemma {:induction false} PrefixCount(counts: seq<U64>, i: nat)
    requires i <= |counts| && Count(counts) <= U64_MAX
    ensures Wrap(Count(counts[..i])) == Count(counts[..i]) <= Count(counts)
  {
    if i < |counts| {
      assert counts[..|counts| - 1][..i] == counts[..i];
      PrefixCount(counts[..|counts| - 1], i);
    } else {
      assert counts[..i] == counts;
      WrapAdd(Count(counts), 0);
    }
  }

  lemma {:induction false} RankBucketReaches(counts: seq<U64>, rank: nat, i: nat)
    requires |counts| == BUCKETS && i < BUCKETS && rank <= Count(counts[..BUCKETS]) && Count(counts) <= U64_MAX
    requires i > 0 ==> Count(counts[..i]) < rank
    ensures var b := RankBucket(counts, rank, i);
            Count(counts[..b + 1]) >= rank && (b > 0 ==> Count(counts[..b]) < rank)
    decreases BUCKETS - i
  {
    PrefixCount(counts, i + 1);
    if i < BUCKETS - 1 && Count(counts[..i + 1]) < rank {
      RankBucketReaches(counts, rank, i + 1);
    }
  }

  lemma {:induction false} ScaledAtMost(p: nat, n: nat)
    requires p <= 100
    ensures 0 <= p * n <= 100 * n
  {
    assert (100 - p) * n >= 0;
    assert 100 * n == p * n + (100 - p) * n;
  }

  /** `r` is `ceil(x / 100)`. */
  lemma {:induction false} CeilOfHundredth(x: nat)
    ensures var r := (x + 99) / 100; 100 * r - 100 < x <= 100 * r
  {
  }

  lemma {:induction false} RankWithin(p: U32, n: nat)
    requires p <= 100 && 1 <= n
    ensures 1 <= Rank(p, n) <= n
  {
    var x := p * n;
    ScaledAtMost(p, n);
    CeilOfHundredth(x);
    CeilOfHundredth(U64_MAX);
    if p > 0 {
      assert x >= n;
    }
  }

  /** The largest product whose hundredth, rounded up, the saturating product still gets right. */
  const MAX_PRODUCT: nat := 18_446_744_073_709_551_700

  /** `r` is `ceil(p * n / 100)`, but at least 1. */
  predicate IsCeiling(p: nat, n: nat, r: nat) {
    if p * n == 0 then r == 1 else 100 * r - 100 < p * n <= 100 * r
  }

  /** The rank is the documented ceiling exactly while the product does not saturate past it. */
  lemma {:induction false} RankIsCeiling(p: U32, n: nat)
    ensures IsCeiling(p, n, Rank(p, n)) <==> p * n <= MAX_PRODUCT
  {
    var x := p * n;
    assert x >= 0;
    CeilOfHundredth(x);
    CeilOfHundredth(U64_MAX);
    assert (U64_MAX + 99) / 100 == MAX_PRODUCT / 100;
  }

  /**
    The meaning of a percentile: the order statistic of rank `ceil(p * n / 100)` (at least 1) lies at
    or below the returned bound and strictly above the bound of the bucket before.
   */
  lemma {:induction false} PercentileBracketsOrderStatistic(samples: seq<U64>, p: U32, x: int) returns (i: nat)
    requires 1 <= |samples| <= U64_MAX && p <= 100
    requires IsOrderStatistic(samples, Rank(p, |samples|), x)
    ensures i < BUCKETS && Percentile(Snap(samples).counts, p) == UPPER_US[i]
    ensures x <= UPPER_US[i] && (i > 0 ==> UPPER_US[i - 1] < x)
  {
    hide Rank, Count, CountLe, RankBucket, Wrap, Snap;
    var (counts, n) := (Snap(samples).counts, |samples|);
    RunningCount(samples, BUCKETS - 1);
    CountLeAll(samples);
    assert counts[..BUCKETS] == counts && Count(counts) == n;
    PrefixCount(counts, BUCKETS);
    RankWithin(p, n);
    var rank := Rank(p, n);
    i := RankBucket(counts, rank, 0);
    RankBucketReaches(counts, rank, 0);
    RunningCount(samples, i);
    if UPPER_US[i] < x {
      CountLeMono(samples, UPPER_US[i], x - 1);
    }
    if i > 0 {
      RunningCount(samples, i - 1);
      if x <= UPPER_US[i - 1] {
        CountLeMono(samples, x, UPPER_US[i - 1]);
      }
    }
  }

  // ---------- interval deltas ----------

  /** Without samples there is no percentile but 0. */
  lemma {:induction false} NoSamplesNoPercentile(before: seq<U64>, p: U32)
    requires |before| <= U64_MAX
    ensures Percentile(Snap([]).counts, p) == 0
    ensures Percentile(Since(Snap(before), Snap(before)).counts, p) == 0
  {
    hide RankBucket, Rank;
    RunningCount([], BUCKETS - 1);
    assert Snap([]).counts[..BUCKETS] == Snap([]).counts;
    assert before + [] == before;
    DeltaCounts(before, []);
  }

  function Since(now: HistSnapshot, prev: HistSnapshot): (d: HistSnapshot)
    requires |now.counts| == |prev.counts| == BUCKETS
  {
    HistSnapshot(seq(BUCKETS, i requires 0 <= i < BUCKETS => SatSub(now.counts[i], prev.counts[i])),
                 SatSub(now.sumUs, prev.sumUs), now.maxUs)
  }

  lemma {:induction false} CountBucketConcat(a: seq<U64>, b: seq<U64>, i: nat)
    requires i < BUCKETS
    ensures CountBucket(a + b, i) == CountBucket(a, i) + CountBucket(b, i)
    decreases |b|
  {
    if b == [] {
      assert a + b == a;
    } else {
      assert (a + b)[..|a + b| - 1] == a + b[..|b| - 1];
      CountBucketConcat(a, b[..|b| - 1], i);
    }
  }

  lemma {:induction false} TotalConcat(a: seq<U64>, b: seq<U64>)
    ensures Total(a + b) == Total(a) + Total(b)
    decreases |b|
  {
    if b == [] {
      assert a + b == a;
    } else {
      assert (a + b)[..|a + b| - 1] == a + b[..|b| - 1];
      TotalConcat(a, b[..|b| - 1]);
    }
  }

  lemma {:induction false} DeltaOfBucket(before: seq<U64>, more: seq<U64>, i: nat)
    requires |before + more| <= U64_MAX && i < BUCKETS
    ensures SatSub(Snap(before + more).counts[i], Snap(before).counts[i]) == Snap(more).counts[i]
  {
    CountBucketConcat(before, more, i);
    WrapAdd(CountBucket(before, i), 0);
    WrapAdd(CountBucket(more, i), 0);
    WrapAdd(CountBucket(before + more, i), 0);
  }

  lemma {:induction false} DeltaCounts(before: seq<U64>, more: seq<U64>)
    requires |before + more| <= U64_MAX
    ensures Since(Snap(before + more), Snap(before)).counts == Snap(more).counts
  {
    forall i | 0 <= i < BUCKETS
      ensures Since(Snap(before + more), Snap(before)).counts[i] == Snap(more).counts[i]
    {
      DeltaOfBucket(before, more, i);
    }
  }

  lemma {:induction false} DeltaSum(before: seq<U64>, more: seq<U64>)
    ensures SatSub(Snap(before + more).sumUs, Snap(before).sumUs) == Total(more) <==>
            Wrap(Total(before)) + Total(more) <= U64_MAX
  {
    TotalConcat(before, more);
    DeltaOfWrapped(Total(before), Total(more), Total(before + more));
  }

  /**
    The difference of two snapshots counts exactly the samples recorded between them, bucket by
    bucket. Its sum is theirs exactly when adding them does not carry the wrapped sum past 2^64.
   */
  lemma {:induction false} DeltaIsInterval(before: seq<U64>, more: seq<U64>)
    requires |before + more| <= U64_MAX
    ensures var d := Since(Snap(before + more), Snap(before));
            && d.counts == Snap(more).counts
            && (d.sumUs == Total(more) <==> Wrap(Total(before)) + Total(more) <= U64_MAX)
            && d.maxUs == Largest(before + more)
  {
    DeltaCounts(before, more);
    DeltaSum(before, more);
  }

  lemma {:induction false} DeltaOfWrapped(t: nat, x: nat, s: nat)
    requires s == t + x
    ensures SatSub(Wrap(s), Wrap(t)) == x <==> Wrap(t) + x <= U64_MAX
  {
    if Wrap(t) + x <= U64_MAX {
      WrapAdd(t, x);
    }
  }

  lemma {:induction false} AllAtMost(samples: seq<U64>, v: int, i: nat)
    requires CountLe(samples, v) == |samples| && i < |samples|
    ensures samples[i] <= v
  {
    var init := samples[..|samples| - 1];
    if i < |init| {
      AllAtMost(init, v, i);
      assert init[i] == samples[i];
    }
  }

  lemma {:induction false} SomeAbove(samples: seq<U64>, v: int) returns (i: nat)
    requires CountLe(samples, v) < |samples|
    ensures i < |samples| && samples[i] > v
  {
    if samples[|samples| - 1] > v {
      i := |samples| - 1;
    } else {
      i := SomeAbove(samples[..|samples| - 1], v);
    }
  }

  lemma {:induction false} FullRank(n: nat)
    requires n >= 1 && 100 * n <= MAX_PRODUCT
    ensures Rank(100, n) == n
  {
    RankIsCeiling(100, n);
  }

  lemma {:induction false} OrderStatisticMeans(samples: seq<U64>, r: nat, x: int)
    requires IsOrderStatistic(samples, r, x)
    ensures CountLe(samples, x - 1) < r <= CountLe(samples, x) <= |samples|
  {
  }

  /**
    The ceiling an interval reports: `percentile_us(100)` of a snapshot difference is at least every
    sample recorded in between, and some such sample lies above the bucket bound before it.
   */
  lemma {:induction false} IntervalCeiling(before: seq<U64>, more: seq<U64>) returns (i: nat, top: nat)
    requires more != [] && |before + more| <= U64_MAX && 100 * |more| <= MAX_PRODUCT
    ensures i < BUCKETS && Percentile(Since(Snap(before + more), Snap(before)).counts, 100) == UPPER_US[i]
    ensures forall j :: 0 <= j < |more| ==> more[j] <= UPPER_US[i]
    ensures top < |more| && (i > 0 ==> UPPER_US[i - 1] < more[top])
  {
    hide Rank, Percentile, Snap, Since, CountLe;
    var n := |more|;
    DeltaCounts(before, more);
    FullRank(n);
    var x := OrderStatisticUnique(more, n);
    OrderStatisticMeans(more, n, x);
    i := PercentileBracketsOrderStatistic(more, 100, x);
    CountLeMono(more, x, UPPER_US[i]);
    forall j | 0 <= j < n
      ensures more[j] <= UPPER_US[i]
    {
      AllAtMost(more, UPPER_US[i], j);
    }
    top := SomeAbove(more, x - 1);
  }

  /** The maximum is at least every sample, and one of them. */
  lemma {:induction false} LargestIsMaximum(samples: seq<U64>, i: nat)
    requires i < |samples|
    ensures samples[i] <= Largest(samples) && Largest(samples) in samples
    decreases |samples|
  {
    var init := samples[..|samples| - 1];
    if i < |init| {
      LargestIsMaximum(init, i);
      assert init[i] == samples[i];
    } else if init != [] {
      LargestIsMaximum(init, 0);
    }
    assert samples[|samples| - 1] in samples;
  }

  lemma {:induction false} TotalOfOne(x: U64)
    ensures Total([x]) == x
  {
    assert [x][..0] == [];
  }
}
