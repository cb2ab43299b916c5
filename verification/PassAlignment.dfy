/** Where the clock makes a pass over the bandwidth buckets begin, against where the pass before
    it ended (src/nccl_stats_aggregator.cc, src/millisecond_bandwidth_output.cc). */
module PassAlignment {
  import opened Arithmetic
  import opened BandwidthWindow
  import opened BatchBuffer
  import opened BatchRecord
  import opened BatchTimes

  /** The bucket of its second in which millisecond `t` lies. */
  function BucketOfSecond(t: nat, d: nat): nat
    requires d > 0
  {
    (t % 1000) / d
  }

  /** By how many buckets the place within the second moves between two clock readings; it moves
      back where a second ends. */
  function Advance(t: nat, t2: nat, d: nat): int
    requires d > 0
  {
    BucketOfSecond(t2, d) - BucketOfSecond(t, d)
  }

  /** The pass at `t2` begins in the cell after the last one of the pass at `t`, which copied
      `n` buckets. */
  predicate Abuts(t: nat, t2: nat, n: nat, S: nat, d: nat)
    requires S > 0 && d > 0
  {
    ClockOffset(t2, d, S) == (ClockOffset(t, d, S) + n) % S
  }

  /** For every batch and bucket length: it does exactly when the place within the second has
      moved by as many buckets as were copied, up to whole batches. */
  lemma {:induction false} NextPassAbutsIff(t: nat, t2: nat, n: nat, S: nat, d: nat)
    requires S > 0 && d > 0
    ensures Abuts(t, t2, n, S, d) <==> (Advance(t, t2, d) - n) % S == 0
  {
    var p, p2 := BucketOfSecond(t, d), BucketOfSecond(t2, d);
    AddRemainder(p, n, S);
    SameRemainder(p + n, p2 - p - n, S);
  }

  /** Where whole buckets divide a second, `c` of them: the buckets that began between the two
      readings, less `c` for every second that ended. */
  lemma AdvanceInSeconds(t: nat, t2: nat, d: nat, c: nat)
    requires d > 0 && c * d == 1000
    ensures Advance(t, t2, d) == t2 / d - t / d - (t2 / 1000 - t / 1000) * c
  {
    BucketsOfSeconds(t, d, c);
    BucketsOfSeconds(t2, d, c);
    assert (t2 / 1000 - t / 1000) * c == (t2 / 1000) * c - (t / 1000) * c;
  }

  lemma BucketsOfSeconds(t: nat, d: nat, c: nat)
    requires d > 0 && c * d == 1000
    ensures t / d == (t / 1000) * c + BucketOfSecond(t, d)
  {
    var m, s := t % 1000, t / 1000;
    ProductNonNegative(s, c);
    assert (s * c) * d == s * (c * d);
    ShiftQuotient(m, s * c, d);
  }

  lemma WithinSecond(t: nat, n: nat, d: nat)
    requires d > 0 && n * d >= 0 && (t + n * d) / 1000 == t / 1000
    ensures Advance(t, t + n * d, d) == n
  {
    assert (t + n * d) % 1000 == t % 1000 + n * d;
    ShiftQuotient(t % 1000, n, d);
  }

  lemma AdvanceOfBuckets(t: nat, t2: nat, n: nat, d: nat, c: nat)
    requires d > 0 && c * d == 1000 && t2 == t + n * d
    ensures Advance(t, t2, d) == n - (t2 / 1000 - t / 1000) * c
  {
    ShiftQuotient(t, n, d);
    AdvanceInSeconds(t, t2, d, c);
  }

  /** A pass over `n` buckets, followed `n` bucket lengths later: the next one abuts exactly if the
      seconds that ended in between, if any, are whole batches. */
  lemma {:induction false} PassesAbutIff(t: nat, t2: nat, n: nat, S: nat, d: nat, c: nat)
    requires S > 0 && d > 0 && c * d == 1000 && t2 == t + n * d
    ensures Abuts(t, t2, n, S, d) <==> ((t2 / 1000 - t / 1000) * c) % S == 0
  {
    AdvanceOfBuckets(t, t2, n, d, c);
    NextPassAbutsIff(t, t2, n, S, d);
    Opposite((t2 / 1000 - t / 1000) * c, S);
  }

  lemma Opposite(x: int, S: nat)
    requires S > 0
    ensures (-x) % S == 0 <==> x % S == 0
  {
    SameRemainder(x, -x, S);
    SameRemainder(-x, x, S);
    RemainderIs(0, S, 0, 0);
  }

  /** Where whole batches divide a second they always are. */
  lemma {:induction false} PassesAbut(t: nat, t2: nat, n: nat, S: nat, d: nat, perSecond: nat)
    requires S > 0 && d > 0 && perSecond * (S * d) == 1000 && t2 == t + n * d
    ensures Abuts(t, t2, n, S, d)
  {
    ProductNonNegative(perSecond, S);
    assert (perSecond * S) * d == 1000;
    PassesAbutIff(t, t2, n, S, d, perSecond * S);
    WholeBatches(t2 / 1000 - t / 1000, perSecond, S);
  }

  lemma WholeBatches(seconds: int, perSecond: nat, S: nat)
    requires S > 0
    ensures (seconds * (perSecond * S)) % S == 0
  {
    assert seconds * (perSecond * S) == (seconds * perSecond) * S;
    RemainderIs(seconds * (perSecond * S), S, seconds * perSecond, 0);
  }

  /** Batches of 300 one-millisecond buckets: 50 buckets copied 50 milliseconds before a second
      ends are not followed by the next cell. */
  lemma BatchesThatDoNotDivideASecond()
    ensures !Abuts(950, 1000, 50, 300, 1) && (1000 / 1 - 950 / 1) % 300 == 50 % 300
  {
  }

  /** Ticks at equal distances of `k` buckets, with a whole number of carry-over buckets: each
      pass copies one bucket more than the time until the next. That one therefore does not
      abut within the second, unless a batch is a single bucket, but begins one cell early.
      `skew` is the difference between the two clocks. */
  lemma {:induction false} SteadyTicksOverlap(previous: int, now: int, maxLatency: nat, size: nat, k: nat, skew: int,
                                              S: nat, d: nat)
    requires S > 0 && d > 0 && OnTime(previous, now, maxLatency, d, size) && maxLatency % d == 0
    requires now - previous == k * d && now + skew >= 0 && k * d >= 0
    ensures var t, t2, n := now + skew, now + skew + k * d, TickLimit(previous, now, maxLatency, d, size);
            && n == k + 1
            && (Abuts(t, t2, n, S, d) <==> (Advance(t, t2, d) - k - 1) % S == 0)
            && (t2 / 1000 == t / 1000 ==>
                  (Abuts(t, t2, n, S, d) <==> S == 1) && ClockOffset(t2, d, S) == (ClockOffset(t, d, S) + k) % S)
  {
    var t, t2 := now + skew, now + skew + k * d;
    SteadyLimit(previous, now, maxLatency, size, k, d);
    NextPassAbutsIff(t, t2, k + 1, S, d);
    if t2 / 1000 == t / 1000 {
      WithinSecond(t, k, d);
      NextPassAbutsIff(t, t2, k, S, d);
      OneEarly(S);
    }
  }

  lemma SteadyLimit(previous: int, now: int, maxLatency: nat, size: nat, k: nat, d: nat)
    requires d > 0 && OnTime(previous, now, maxLatency, d, size) && maxLatency % d == 0
    requires now - previous == k * d
    ensures TickLimit(previous, now, maxLatency, d, size) == k + 1
  {
    ProductNonNegative(k, d);
    TickArithmetic(previous, now, maxLatency, d, size, 0);
    QuotientUnique(k * d, d, k);
  }

  lemma OneEarly(S: nat)
    requires S > 0
    ensures 0 % S == 0 && ((-1) % S == 0 <==> S == 1)
  {
    RemainderIs(0, S, 0, 0);
    RemainderIs(-1, S, -1, S - 1);
  }

  /** The same across seconds, for every batch length: the next pass abuts exactly if the seconds
      that ended and one bucket are whole batches. */
  lemma {:induction false} SteadyTicksAbutIff(previous: int, now: int, maxLatency: nat, size: nat, k: nat, skew: int,
                                              S: nat, d: nat, c: nat)
    requires S > 0 && d > 0 && c * d == 1000 && OnTime(previous, now, maxLatency, d, size) && maxLatency % d == 0
    requires now - previous == k * d && now + skew >= 0 && k * d >= 0
    ensures var t, t2 := now + skew, now + skew + k * d;
            Abuts(t, t2, TickLimit(previous, now, maxLatency, d, size), S, d)
            <==> ((t2 / 1000 - t / 1000) * c + 1) % S == 0
  {
    var t, t2 := now + skew, now + skew + k * d;
    SteadyTicksOverlap(previous, now, maxLatency, size, k, skew, S, d);
    AdvanceOfBuckets(t, t2, k, d, c);
    Opposite((t2 / 1000 - t / 1000) * c + 1, S);
  }

  predicate Fits(r: Record, offset: nat, n: nat, S: nat) {
    offset < S && Cell(r.next, offset, S) + n < Cell(|r.rows|, 0, S)
  }

  /** A pass that begins on the last cell of its predecessor replaces that sample. */
  lemma {:induction false} LastSampleOverwritten(r: Record, data: seq<real>, mid: Record, data2: seq<real>,
      after: Record,
                              o: nat, o2: nat, S: nat)
    requires Shaped(r.rows, |r.rows|, S) && data != [] && data2 != []
    requires StepTo(r, Pass(o, data), mid, S) && StepTo(mid, Pass(o2, data2), after, S)
    requires Fits(r, o, |data|, S) && Fits(mid, o2, |data2|, S)
    requires o2 == (o + |data| - 1) % S && (o + |data|) % S != 0
    ensures mid.next < |r.rows| && mid.rows[mid.next][o2] == data[|data| - 1] && after.rows[mid.next][o2] == data2[0]
  {
    var n := |data|;
    SameBatch(o + n - 1, S);
    AbuttingCells(r.next, o, n - 1, S);
    CellOrder(|r.rows|, 0, mid.next, o2, S);
  }

  lemma SameBatch(x: nat, S: nat)
    requires S > 0 && (x + 1) % S != 0
    ensures (x + 1) / S == x / S
  {
    QuotientAndRemainder(x, S, x / S, x % S);
    var q, r := x / S, x % S;
    if r + 1 == S {
      assert (q + 1) * S == q * S + S;
      RemainderIs(x + 1, S, q + 1, 0);
    } else {
      RemainderIs(x + 1, S, q, r + 1);
    }
  }

  /** When the predecessor ends with its batch, all but one of the cells of the next batch are
      skipped instead. */
  lemma {:induction false} BatchSkipped(b: nat, o: nat, n: nat, S: nat)
    requires 0 < S && o < S && n > 0 && (o + n) % S == 0
    ensures (o + n - 1) % S == S - 1
    ensures Cell(b + (o + n) / S, S - 1, S) == Cell(b, o, S) + n + S - 1
  {
    AbuttingCells(b, o, n, S);
    var q := (o + n) / S;
    QuotientAndRemainder(o + n, S, q, 0);
    MulStep(q, 1, S);
    MulStep(0, q, S);
    assert (q - 1) * S == q * S - S;
    RemainderIs(o + n - 1, S, q - 1, S - 1);
  }

  // ---------- How long ticks can keep abutting ----------

  /** After every tick but the last, as many buckets begin until the next one as it hands on. */
  predicate AllInStep(clocks: seq<int>, skew: int, maxLatency: nat, size: nat, d: nat)
    requires d > 0
  {
    |clocks| < 3
    || (var n := |clocks| - 1;
        && AllInStep(clocks[..n], skew, maxLatency, size, d)
        && clocks[n - 2] <= clocks[n - 1]
        && (clocks[n] + skew) / d - (clocks[n - 1] + skew) / d
           == TickLimit(clocks[n - 2], clocks[n - 1], maxLatency, d, size))
  }

  /** Where whole batches divide a second, passes that abut are in step, unless the distances of ticks
      differ by a batch or more. */
  lemma AbuttingMeansInStep(t: nat, t2: nat, n: nat, S: nat, d: nat, perSecond: nat)
    requires S > 0 && d > 0 && perSecond * (S * d) == 1000 && Abuts(t, t2, n, S, d)
    requires n - S < t2 / d - t / d < n + S
    ensures t2 / d - t / d == n
  {
    ProductNonNegative(perSecond, S);
    assert (perSecond * S) * d == 1000;
    WholeBatches(t2 / 1000 - t / 1000, perSecond, S);
    AbuttingByWholeBatches(t, t2, n, S, d, perSecond * S);
  }

  lemma AbuttingByWholeBatches(t: nat, t2: nat, n: nat, S: nat, d: nat, c: nat)
    requires S > 0 && d > 0 && c * d == 1000 && Abuts(t, t2, n, S, d)
    requires ((t2 / 1000 - t / 1000) * c) % S == 0 && n - S < t2 / d - t / d < n + S
    ensures t2 / d - t / d == n
  {
    AdvanceInSeconds(t, t2, d, c);
    NextPassAbutsIff(t, t2, n, S, d);
    SmallMultiple(t2 / d - t / d - n, (t2 / 1000 - t / 1000) * c, S);
  }

  lemma SmallMultiple(x: int, y: int, S: nat)
    requires S > 0 && (x - y) % S == 0 && y % S == 0 && x < S && x + S > 0
    ensures x == 0
  {
    SameRemainder(y, x - y, S);
    RemainderIs(x, S, if x >= 0 then 0 else -1, if x >= 0 then x else x + S);
  }

  lemma {:induction false} HandedOnInStep(clocks: seq<int>, skew: int, maxLatency: nat, size: nat, d: nat)
    requires d > 0 && |clocks| >= 2
    requires AllOnTime(clocks, maxLatency, d, size) && AllInStep(clocks, skew, maxLatency, size, d)
    ensures var n := |clocks| - 1;
            BucketsHandedOn(clocks[..n], maxLatency, d, size) == (clocks[n] + skew) / d - (clocks[1] + skew) / d
  {
    var n := |clocks| - 1;
    if n == 1 {
    } else {
      HandedOnInStep(clocks[..n], skew, maxLatency, size, d);
      assert clocks[..n][..n - 1] == clocks[..n - 1];
    }
  }

  lemma FloorsApart(x: int, y: int, d: nat)
    requires d > 0
    ensures (y / d - x / d) * d < y - x + d
  {
    QuotientAndRemainderInt(x, d, x / d, x % d);
    QuotientAndRemainderInt(y, d, y / d, y % d);
    assert (y / d - x / d) * d == (y / d) * d - (x / d) * d;
  }

  /** Each tick hands on more than the time before it, so passes can stay in step only while the
      distance of ticks grows, by more than r milliseconds a tick; and a tick that is on time
      bounds that distance. With n ticks in step after the first distance D and r the part of a
      bucket in the maximal latency M: n * (r + 1) < size * d - M - D + d. */
  lemma {:induction false} InStepTicksAreBounded(clocks: seq<int>, skew: int, maxLatency: nat, size: nat, d: nat)
    requires d > 0 && |clocks| >= 3
    requires AllOnTime(clocks, maxLatency, d, size) && AllInStep(clocks, skew, maxLatency, size, d)
    ensures var n, r := |clocks| - 2, maxLatency % d;
            var first, last := clocks[1] - clocks[0], clocks[n + 1] - clocks[n];
            && n * (r + 1) < last - first + d
            && n * (r + 1) < size * d - maxLatency - first + d
  {
    var n := |clocks| - 2;
    var handed := BucketsHandedOn(clocks[..n + 1], maxLatency, d, size);
    DriftAccumulates(clocks[..n + 1], maxLatency, d, size);
    HandedOnInStep(clocks, skew, maxLatency, size, d);
    FloorsApart(clocks[1] + skew, clocks[n + 1] + skew, d);
    LastDistance(clocks[n], clocks[n + 1], maxLatency, size, d);
  }

  lemma LastDistance(previous: int, now: int, maxLatency: nat, size: nat, d: nat)
    requires d > 0 && OnTime(previous, now, maxLatency, d, size)
    ensures now - previous + maxLatency < size * d
  {
    var q := (now - (previous - maxLatency)) / d;
    QuotientAndRemainderInt(now - (previous - maxLatency), d, q, (now - (previous - maxLatency)) % d);
    MulStep(q, size, d);
  }
}
