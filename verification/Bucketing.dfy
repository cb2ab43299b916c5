/** The exponential histogram (src/distribution_bucketer.cc, src/distribution_bucketer.h), over
    exact reals: the floating-point log and pow of the source become exact ones. */
module Bucketing {
  import opened Wrappers
  import opened RealPowers
  import opened RealSums
  import opened BucketDump

  datatype Params = Params(maxBucket: real, scale: real, base: real) {
    predicate Valid() { base > 1.0 && maxBucket > scale > 0.0 }
  }

  /** The exclusive upper bound of bucket `i`. */
  function Bound(p: Params, i: nat): real {
    p.scale * Power(p.base, i)
  }

  /** The first bucket ends at the scale, and each later one the base times as far on. */
  lemma BoundsAre(p: Params, i: nat)
    ensures Bound(p, 0) == p.scale && Bound(p, i + 1) == p.base * Bound(p, i)
  {
    assert Power(p.base, i + 1) == p.base * Power(p.base, i);
    assert p.scale * (p.base * Power(p.base, i)) == p.base * (p.scale * Power(p.base, i));
  }

  function CeilLog(base: real, y: real): (m: int)
    requires base > 1.0 && y > 0.0
    ensures PowerInt(base, m - 1) < y <= PowerInt(base, m)
  {
    var k := FloorLog(base, y);
    PowerIntGrowsStrictly(base, k - 1);
    if y == PowerInt(base, k) then k else k + 1
  }

  lemma PowerIntGrowsStrictly(base: real, k: int)
    requires base > 1.0
    ensures PowerInt(base, k) < PowerInt(base, k + 1)
  {
    PowerIntStep(base, k);
    var p := PowerInt(base, k);
    Products(base - 1.0, p);
    assert (base - 1.0) * p == base * p - p;
  }

  /** How far max_bucket is above the first bound. */
  function Span(p: Params): (y: real)
    requires p.Valid()
    ensures y > 1.0 && p.scale * y == p.maxBucket
  {
    var y := p.maxBucket / p.scale;
    Quotient(p.scale, p.maxBucket, y);
    Cancel(p.scale, 1.0, y);
    y
  }

  lemma CeilLogPositive(base: real, y: real)
    requires base > 1.0 && y > 1.0
    ensures CeilLog(base, y) >= 1
  {
    var m := CeilLog(base, y);
    if m < 1 {
      PowerIntGrows(base, m, 0);
    }
  }

  function BucketCount(p: Params): (n: nat)
    requires p.Valid()
    ensures n >= 2
  {
    CeilLogPositive(p.base, Span(p));
    CeilLog(p.base, Span(p)) + 1
  }

  lemma BoundAgainst(p: Params, i: nat, x: real, q: real)
    requires p.Valid() && q == x / p.scale
    ensures Bound(p, i) <= x <==> PowerInt(p.base, i) <= q
    ensures Bound(p, i) > 0.0
  {
    Quotient(p.scale, x, q);
    Cancel(p.scale, Power(p.base, i), q);
    PowerPositive(p.base, i);
    Products(p.scale, Power(p.base, i));
  }

  lemma BoundsGrow(p: Params, i: nat, j: nat)
    requires p.Valid() && i < j
    ensures 0.0 < Bound(p, i) < Bound(p, j)
  {
    BoundAgainst(p, i, 0.0, 0.0 / p.scale);
    PowerIntGrowsStrictly(p.base, i);
    PowerIntGrows(p.base, i + 1, j);
    Cancel(p.scale, Power(p.base, i), Power(p.base, j));
  }

  lemma BoundAgainstMax(p: Params, i: nat)
    requires p.Valid()
    ensures Bound(p, i) >= p.maxBucket <==> PowerInt(p.base, i) >= Span(p)
  {
    Cancel(p.scale, Span(p), PowerInt(p.base, i));
    assert Bound(p, i) == p.scale * PowerInt(p.base, i);
  }

  /** There are as few buckets as reach max_bucket, but at least two. */
  lemma LeastBucketCount(p: Params, m: nat)
    requires p.Valid() && m >= 2
    ensures Bound(p, m - 1) >= p.maxBucket <==> BucketCount(p) <= m
  {
    BoundAgainstMax(p, m - 1);
    var c := CeilLog(p.base, Span(p));
    CeilLogPositive(p.base, Span(p));
    if c <= m - 1 {
      PowerIntGrows(p.base, c, m - 1);
    } else {
      PowerIntGrows(p.base, m - 1, c - 1);
    }
  }

  /** floor(log(x / scale) / log(base) + 1), cut to the valid range; the logarithm of
      zero or of a negative number counts as below every bound. */
  function Index(p: Params, n: nat, x: real): (i: nat)
    requires p.Valid() && n >= 1
    ensures i < n
  {
    Quotient(p.scale, x, x / p.scale);
    var i := if x <= 0.0 then 0 else FloorLog(p.base, x / p.scale) + 1;
    if i <= 0 then 0 else if i >= n then n - 1 else i
  }

  /** The linear search: how many of the first `n` exclusive upper bounds `x` has passed. */
  function Passed(p: Params, n: nat, x: real): nat {
    if n == 0 then 0 else Passed(p, n - 1, x) + if Bound(p, n - 1) <= x then 1 else 0
  }

  lemma PassedBound(p: Params, i: nat, x: real)
    requires p.Valid() && x > 0.0
    ensures x / p.scale > 0.0 && (Bound(p, i) <= x <==> i <= FloorLog(p.base, x / p.scale))
  {
    var q := x / p.scale;
    Quotient(p.scale, x, q);
    BoundAgainst(p, i, x, q);
    var k := FloorLog(p.base, q);
    if i <= k {
      PowerIntGrows(p.base, i, k);
    } else {
      PowerIntGrows(p.base, k + 1, i);
    }
  }

  lemma {:induction false} PassedIsClosedForm(p: Params, n: nat, x: real)
    requires p.Valid() && x > 0.0 && x / p.scale > 0.0
    ensures var i := FloorLog(p.base, x / p.scale) + 1;
            Passed(p, n, x) == if i <= 0 then 0 else if i >= n then n else i
  {
    if n == 0 {
    } else {
      PassedIsClosedForm(p, n - 1, x);
      PassedBound(p, n - 1, x);
    }
  }

  lemma {:induction false} NothingPassed(p: Params, n: nat, x: real)
    requires p.Valid() && x <= 0.0
    ensures Passed(p, n, x) == 0
  {
    if n == 0 {
    } else {
      NothingPassed(p, n - 1, x);
      BoundAgainst(p, n - 1, x, x / p.scale);
    }
  }

  /** The closed form finds what a linear search over the bounds would. */
  lemma {:induction false} IndexIsLinearSearch(p: Params, n: nat, x: real)
    requires p.Valid() && n >= 1
    ensures Index(p, n, x) == if Passed(p, n, x) < n then Passed(p, n, x) else n - 1
  {
    if x <= 0.0 {
      NothingPassed(p, n, x);
    } else {
      PassedBound(p, 0, x);
      PassedIsClosedForm(p, n, x);
    }
  }

  /** A bucket holds the samples from the bound below it up to its own, which is excluded;
      the first one is open below and the last one is open above. */
  lemma {:induction false} BucketRange(p: Params, n: nat, x: real)
    requires p.Valid() && n >= 1
    ensures var i := Index(p, n, x);
            && (i > 0 ==> Bound(p, i - 1) <= x)
            && (i < n - 1 ==> x < Bound(p, i))
  {
    var i := Index(p, n, x);
    if x <= 0.0 {
      BoundAgainst(p, 0, x, x / p.scale);
    } else {
      PassedBound(p, i, x);
      if i > 0 {
        PassedBound(p, i - 1, x);
      }
    }
  }

  // ---------- What a history of samples amounts to ----------

  function Indices(p: Params, n: nat, samples: seq<real>): (r: seq<nat>)
    requires p.Valid() && n >= 1
    ensures |r| == |samples| && forall k :: 0 <= k < |r| ==> r[k] < n
  {
    seq(|samples|, k requires 0 <= k < |samples| => Index(p, n, samples[k]))
  }

  /** How many of the first `m` indices are `i`. */
  function Tally(indices: seq<nat>, m: nat, i: nat): nat
    requires m <= |indices|
  {
    if m == 0 then 0 else Tally(indices, m - 1, i) + if indices[m - 1] == i then 1 else 0
  }

  function TallyTotal(indices: seq<nat>, m: nat, n: nat): nat
    requires m <= |indices|
  {
    if n == 0 then 0 else TallyTotal(indices, m, n - 1) + Tally(indices, m, n - 1)
  }

  lemma {:induction false} TallyPrefix(a: seq<nat>, x: nat, m: nat, i: nat)
    requires m <= |a|
    ensures Tally(a + [x], m, i) == Tally(a, m, i)
  {
    if m == 0 {
    } else {
      TallyPrefix(a, x, m - 1, i);
    }
  }

  lemma {:induction false} TallyTotalStep(indices: seq<nat>, m: nat, n: nat)
    requires m < |indices|
    ensures TallyTotal(indices, m + 1, n) == TallyTotal(indices, m, n) + if indices[m] < n then 1 else 0
  {
    if n == 0 {
    } else {
      TallyTotalStep(indices, m, n - 1);
    }
  }

  lemma {:induction false} TallyTotalNone(indices: seq<nat>, n: nat)
    ensures TallyTotal(indices, 0, n) == 0
  {
    if n == 0 {
    } else {
      TallyTotalNone(indices, n - 1);
    }
  }

  /** Every sample is counted in exactly one bucket. */
  lemma {:induction false} TalliesSum(indices: seq<nat>, m: nat, n: nat)
    requires m <= |indices| && forall k :: 0 <= k < |indices| ==> indices[k] < n
    ensures TallyTotal(indices, m, n) == m
  {
    if m == 0 {
      TallyTotalNone(indices, n);
    } else {
      TalliesSum(indices, m - 1, n);
      TallyTotalStep(indices, m - 1, n);
    }
  }

  function Smallest(samples: seq<real>, n: nat, top: real): real
    requires n <= |samples|
  {
    if n == 0 then top else
      var m := Smallest(samples, n - 1, top);
      if samples[n - 1] < m then samples[n - 1] else m
  }

  function Greatest(samples: seq<real>, n: nat, bottom: real): real
    requires n <= |samples|
  {
    if n == 0 then bottom else
      var m := Greatest(samples, n - 1, bottom);
      if samples[n - 1] > m then samples[n - 1] else m
  }

  lemma {:induction false} ExtremesPrefix(a: seq<real>, x: real, n: nat, top: real, bottom: real)
    requires n <= |a|
    ensures Smallest(a + [x], n, top) == Smallest(a, n, top)
    ensures Greatest(a + [x], n, bottom) == Greatest(a, n, bottom)
  {
    if n == 0 {
    } else {
      ExtremesPrefix(a, x, n - 1, top, bottom);
    }
  }

  predicate Within(samples: seq<real>, n: nat, bottom: real, top: real)
    requires n <= |samples|
  {
    forall k :: 0 <= k < n ==> bottom <= samples[k] <= top
  }

  /** The running extremes are samples, and bound every sample. */
  lemma {:induction false} ExtremesBound(samples: seq<real>, n: nat, bottom: real, top: real)
    requires 0 < n <= |samples| && Within(samples, n, bottom, top)
    ensures var lo, hi := Smallest(samples, n, top), Greatest(samples, n, bottom);
            lo in samples[..n] && hi in samples[..n] && Within(samples, n, lo, hi)
  {
    if n == 1 {
      assert Smallest(samples, 0, top) == top && Greatest(samples, 0, bottom) == bottom;
      assert samples[..1] == [samples[0]];
    } else {
      ExtremesBound(samples, n - 1, bottom, top);
      assert samples[..n] == samples[..n - 1] + [samples[n - 1]];
    }
  }

  lemma OneMoreBetween(m: real, lo: real, hi: real, sum: real, x: real)
    requires m * lo <= sum <= m * hi && lo <= x <= hi
    ensures (m + 1.0) * lo <= sum + x <= (m + 1.0) * hi
  {
    assert (m + 1.0) * lo == m * lo + lo;
    assert (m + 1.0) * hi == m * hi + hi;
  }

  lemma {:induction false} SumBetween(samples: seq<real>, n: nat, lo: real, hi: real)
    requires n <= |samples| && Within(samples, n, lo, hi)
    ensures n as real * lo <= SumTo(samples, n) <= n as real * hi
  {
    if n == 0 {
    } else {
      SumBetween(samples, n - 1, lo, hi);
      var m := (n - 1) as real;
      OneMoreBetween(m, lo, hi, SumTo(samples, n - 1), samples[n - 1]);
      assert m + 1.0 == n as real;
    }
  }

  lemma AverageBetween(samples: seq<real>, n: nat, sum: real, avg: real, lo: real, hi: real, bottom: real, top: real)
    requires n == |samples| > 0 && Within(samples, n, bottom, top) && sum == Sum(samples) && avg == sum / n as real
    requires lo == Smallest(samples, n, top) && hi == Greatest(samples, n, bottom)
    ensures lo <= avg <= hi
  {
    ExtremesBound(samples, n, bottom, top);
    SumBetween(samples, n, lo, hi);
    QuotientWithin(n as real, sum, lo, hi);
  }

  lemma QuotientWithin(n: real, sum: real, lo: real, hi: real)
    requires n > 0.0 && n * lo <= sum <= n * hi
    ensures lo <= sum / n <= hi
  {
    var avg := sum / n;
    Quotient(n, sum, avg);
    Cancel(n, lo, avg);
    Cancel(n, avg, hi);
  }

  // ---------- The object ----------

  class DistributionBucketer {
    const params: Params
    /** The largest finite double. */
    const largest: real
    const buckets: array<Bucket>
    var count: nat
    var sum: real
    var min: real
    var max: real
    /** Submitted since the last reset. */
    ghost var samples: seq<real>

    ghost predicate Valid()
      reads this, buckets
    {
      && params.Valid() && buckets.Length == BucketCount(params)
      && count == |samples| && sum == Sum(samples)
      && Within(samples, |samples|, -largest, largest)
      && min == Smallest(samples, |samples|, largest)
      && max == Greatest(samples, |samples|, -largest)
      && Counted(buckets[..], params, Indices(params, buckets.Length, samples))
    }

    constructor (maxBucket: real, scale: real, base: real, largest: real)
      requires Params(maxBucket, scale, base).Valid()
      ensures Valid() && fresh(buckets) && samples == []
      ensures params == Params(maxBucket, scale, base) && this.largest == largest
    {
      params := Params(maxBucket, scale, base);
      this.largest := largest;
      count, sum, min, max, samples := 0, 0.0, largest, -largest, [];
      var p := Params(maxBucket, scale, base);
      var n := BucketCount(p);
      var b := new Bucket[n](_ => Bucket(0.0, 0));
      buckets := b;
      new;
      var i := 0;
      while i < n
        modifies b
        invariant i <= n
        invariant forall j :: 0 <= j < i ==> b[j] == Bucket(Bound(p, j), 0)
      {
        b[i] := Bucket(Bound(p, i), 0);
        i := i + 1;
      }
      NoSamples(buckets[..], p);
    }

    method Submit(sample: real)
      requires Valid() && -largest <= sample <= largest
      modifies this`count, this`sum, this`min, this`max, this`samples, buckets
      ensures Valid() && samples == old(samples) + [sample]
    {
      OneMoreSample(buckets[..], params, samples, sample, largest);
      Increment(Index(params, buckets.Length, sample));
      sum := sum + sample;
      count := count + 1;
      if sample < min {
        min := sample;
      }
      if sample > max {
        max := sample;
      }
      samples := samples + [sample];
    }

    method Increment(index: nat)
      requires index < buckets.Length
      modifies buckets
      ensures buckets[..] == old(buckets[..])[index := old(buckets[index]).(count := old(buckets[index]).count + 1)]
    {
      buckets[index] := buckets[index].(count := buckets[index].count + 1);
    }

    method Reset()
      requires Valid()
      modifies this`count, this`sum, this`min, this`max, this`samples, buckets
      ensures Valid() && samples == []
    {
      sum, min, max, count := 0.0, largest, -largest, 0;
      samples := [];
      var i := 0;
      while i < buckets.Length
        modifies buckets
        invariant i <= buckets.Length
        invariant forall j :: 0 <= j < buckets.Length ==> buckets[j].upperBound == Bound(params, j)
        invariant forall j :: 0 <= j < i ==> buckets[j].count == 0
      {
        buckets[i] := buckets[i].(count := 0);
        i := i + 1;
      }
      NoSamples(buckets[..], params);
    }

    method GetMin() returns (r: Option<real>)
      requires Valid()
      ensures r.None? <==> samples == []
      ensures r.Some? ==> r.value in samples && forall x :: x in samples ==> r.value <= x
    {
      if count > 0 {
        ExtremesBound(samples, |samples|, -largest, largest);
        assert samples[..|samples|] == samples;
        return Some(min);
      }
      return None;
    }

    method GetMax() returns (r: Option<real>)
      requires Valid()
      ensures r.None? <==> samples == []
      ensures r.Some? ==> r.value in samples && forall x :: x in samples ==> x <= r.value
    {
      if count > 0 {
        ExtremesBound(samples, |samples|, -largest, largest);
        assert samples[..|samples|] == samples;
        return Some(max);
      }
      return None;
    }

    method GetAvg() returns (r: Option<real>)
      requires Valid()
      ensures r.None? <==> samples == []
      ensures r.Some? ==> r.value == Sum(samples) / |samples| as real && min <= r.value <= max
    {
      if count > 0 {
        var avg := sum / count as real;
        AverageBetween(samples, count, sum, avg, min, max, -largest, largest);
        return Some(avg);
      }
      return None;
    }

    /** Every sample is in exactly one bucket, the one whose range contains it. */
    method GetBucketCounts() returns (counts: seq<nat>)
      requires Valid()
      ensures |counts| == BucketCount(params)
      ensures var indices := Indices(params, |counts|, samples);
              && (forall i :: 0 <= i < |counts| ==> counts[i] == Tally(indices, |indices|, i))
              && TallyTotal(indices, |indices|, |counts|) == count
    {
      counts := [];
      for i := 0 to buckets.Length
        invariant |counts| == i
        invariant forall j :: 0 <= j < i ==> counts[j] == buckets[j].count
      {
        counts := counts + [buckets[i].count];
      }
      ghost var indices := Indices(params, buckets.Length, samples);
      TalliesSum(indices, |indices|, buckets.Length);
    }

    method DumpRanges() returns (ranges: seq<Range>)
      requires Valid()
      ensures Tiles(ranges) && End(ranges) == Bound(params, BucketCount(params) - 1)
      ensures Coalesced(ranges) && Exact(ranges, buckets[..]) && Recovers(ranges, buckets[..])
    {
      var b := buckets[..];
      ghost var n := BucketCount(params);
      CountedIncreasing(b, params, Indices(params, n, samples));
      assert Start(b, n) == Bound(params, n - 1);
      ranges := Dump(b);
      assert End(ranges) == Start(b, n);
    }
  }

  ghost predicate Counted(buckets: seq<Bucket>, p: Params, indices: seq<nat>) {
    forall i :: 0 <= i < |buckets| ==> buckets[i] == Bucket(Bound(p, i), Tally(indices, |indices|, i))
  }

  lemma NoSamples(buckets: seq<Bucket>, p: Params)
    requires p.Valid() && buckets != [] && forall i :: 0 <= i < |buckets| ==> buckets[i] == Bucket(Bound(p, i), 0)
    ensures Counted(buckets, p, Indices(p, |buckets|, [])) && Sum([]) == 0.0
  {
    assert Indices(p, |buckets|, []) == [];
  }

  lemma OneMoreSample(buckets: seq<Bucket>, p: Params, samples: seq<real>, x: real, largest: real)
    requires p.Valid() && |buckets| >= 1 && Counted(buckets, p, Indices(p, |buckets|, samples))
    ensures var i := Index(p, |buckets|, x);
            Counted(buckets[i := buckets[i].(count := buckets[i].count + 1)], p, Indices(p, |buckets|, samples + [x]))
    ensures Sum(samples + [x]) == Sum(samples) + x
    ensures Smallest(samples + [x], |samples|, largest) == Smallest(samples, |samples|, largest)
    ensures Greatest(samples + [x], |samples|, -largest) == Greatest(samples, |samples|, -largest)
  {
    SumSnoc(samples, x);
    ExtremesPrefix(samples, x, |samples|, largest, -largest);
    CountedSnoc(buckets, p, Indices(p, |buckets|, samples), Index(p, |buckets|, x));
    assert Indices(p, |buckets|, samples + [x]) == Indices(p, |buckets|, samples) + [Index(p, |buckets|, x)];
  }

  lemma CountedSnoc(buckets: seq<Bucket>, p: Params, indices: seq<nat>, i: nat)
    requires i < |buckets| && Counted(buckets, p, indices)
    ensures Counted(buckets[i := buckets[i].(count := buckets[i].count + 1)], p, indices + [i])
  {
    forall j | 0 <= j < |buckets|
      ensures Tally(indices + [i], |indices| + 1, j) == Tally(indices, |indices|, j) + if i == j then 1 else 0
    {
      TallyPrefix(indices, i, |indices|, j);
    }
  }

  lemma CountedIncreasing(buckets: seq<Bucket>, p: Params, indices: seq<nat>)
    requires p.Valid() && Counted(buckets, p, indices)
    ensures Increasing(buckets)
    ensures buckets != [] ==> Start(buckets, |buckets|) == Bound(p, |buckets| - 1)
  {
    forall i | 0 <= i < |buckets| ensures buckets[i].upperBound > 0.0 {
      BoundsGrow(p, i, i + 1);
    }
    forall i, j | 0 <= i < j < |buckets| ensures buckets[i].upperBound < buckets[j].upperBound {
      BoundsGrow(p, i, j);
    }
  }
}
