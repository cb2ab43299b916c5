/** The time-window arithmetic shared by every connection and NIC buffer
    (src/nccl_stats_aggregator.cc). Clocks are integer milliseconds; only differences of
    clock readings matter, so the unsigned wrap-around of a start time is not observable
    and a start time is modelled as an `int`. */
module BandwidthWindow {
  import opened Arithmetic

  /** Number of leading buckets a generation hands on; the carry-over buckets are the
      `carryOver` buckets that follow them. */
  function ValidLimit(carryOver: nat, unused: nat, size: nat): (limit: nat)
    ensures limit <= size
    ensures carryOver <= size ==> limit + carryOver <= size
  {
    var skip := unused + carryOver;
    if skip >= size then 0 else size - skip
  }

  /** Buckets not reached by the generation that began at `start`; the sentinel 0 marks
      the generation before the first swap. */
  function UnusedBuckets(start: int, now: int, bucketTime: nat, size: nat): (unused: nat)
    requires bucketTime > 0 && start <= now
    ensures unused <= size && (start == 0 ==> unused == size)
  {
    var used := (now - start) / bucketTime + 1;
    if start == 0 then size
    else if used < size then size - used
    else 0
  }

  /** After the first swap the unused buckets are those that have not begun by the tick. */
  lemma UnusedNotBegun(start: int, now: int, bucketTime: nat, size: nat, i: nat)
    requires bucketTime > 0 && start <= now && start != 0 && i < size
    ensures i < size - UnusedBuckets(start, now, bucketTime, size) <==> start + i * bucketTime <= now
  {
    var q := (now - start) / bucketTime;
    DivisionFacts(now - start, bucketTime);
    MulStep(q, i, bucketTime);
    MulStep(i, q, bucketTime);
  }

  /** At `rate` bits per second, `bucketTime` milliseconds carry `bytes`. */
  predicate Carries(rate: real, bucketTime: nat, bytes: real) {
    rate * (bucketTime as real / 1000.0) == 8.0 * bytes
  }

  function BitsPerSecond(bytes: real, bucketTime: nat): (rate: real)
    requires bucketTime > 0
    ensures Carries(rate, bucketTime, bytes)
  {
    bytes * 8.0 * 1000.0 / (bucketTime as real)
  }

  /** C++ signed division. */
  function TruncDiv(a: int, b: int): int
    requires b > 0
  {
    if a >= 0 then a / b else -((-a) / b)
  }

  /** The conversion (uint64_t) of an int64_t value. */
  function ToUint64(x: int): nat {
    x % TWO_64
  }

  /** First bucket a measurement touches. */
  function StartIndex(elapsed: int, latency: nat, bucketTime: nat): nat
    requires bucketTime > 0
  {
    var q := TruncDiv(elapsed - latency, bucketTime);
    if q >= 0 then q else 0
  }

  /** One past the last bucket a measurement is spread over. */
  function EndIndex(elapsed: int, bucketTime: nat, size: nat): nat
    requires bucketTime > 0
  {
    var end := ToUint64(TruncDiv(elapsed, bucketTime) + 1);
    if end <= size then end else size
  }

  /** One past the highest bucket a measurement adds bytes to, with the past-end fallback
      counted as the last bucket. */
  function Reach(elapsed: int, latency: nat, bucketTime: nat, size: nat): (reach: nat)
    requires bucketTime > 0
    ensures reach <= size
  {
    var end := EndIndex(elapsed, bucketTime, size);
    if StartIndex(elapsed, latency, bucketTime) >= end then size else end
  }

  lemma ToUint64Facts(x: int)
    requires -TWO_64 <= x < TWO_64
    ensures ToUint64(x) == if x >= 0 then x else x + TWO_64
  {
  }

  /** Where the bytes of a measurement can land, for every elapsed time a 64-bit clock
      difference can express. */
  lemma {:induction false} ReachCases(elapsed: int, latency: nat, bucketTime: nat, size: nat)
    requires bucketTime > 0 && 0 < size <= TWO_63
    requires -TWO_63 <= elapsed < TWO_63
    ensures elapsed >= 0 ==>
              && StartIndex(elapsed, latency, bucketTime) <= elapsed / bucketTime
              && Reach(elapsed, latency, bucketTime, size)
                 == if elapsed / bucketTime + 1 <= size then elapsed / bucketTime + 1 else size
    ensures elapsed < 0 < elapsed + bucketTime ==> Reach(elapsed, latency, bucketTime, size) == 1
    ensures elapsed + bucketTime <= 0 ==> Reach(elapsed, latency, bucketTime, size) == size
  {
    if elapsed >= 0 {
      DivisionFacts(elapsed, bucketTime);
      if elapsed >= latency {
        DivMonotone(elapsed - latency, elapsed, bucketTime);
      } else {
        DivisionFacts(latency - elapsed, bucketTime);
      }
      ToUint64Facts(elapsed / bucketTime + 1);
    } else {
      DivisionFacts(-elapsed, bucketTime);
      DivisionFacts(latency - elapsed, bucketTime);
      assert StartIndex(elapsed, latency, bucketTime) == 0;
      ToUint64Facts(1 - (-elapsed) / bucketTime);
    }
  }

  /** A measurement whose clock reading lies between the generation's start and the clock
      reading of the tick that ends it reaches no bucket beyond the carried ones. */
  lemma {:induction false} InWindowReach(start: int, clock: int, now: int, latency: nat, bucketTime: nat,
                      carryOver: nat, size: nat)
    requires bucketTime > 0 && 0 < size <= TWO_63 && carryOver <= size
    requires start != 0 && start <= clock <= now && clock - start < TWO_63
    ensures Reach(clock - start, latency, bucketTime, size)
         <= ValidLimit(carryOver, UnusedBuckets(start, now, bucketTime, size), size) + carryOver
  {
    ReachCases(clock - start, latency, bucketTime, size);
    DivMonotone(clock - start, now - start, bucketTime);
  }

  /** The exact condition. With a start time set, a measurement reaches a bucket that is
      neither handed on nor carried iff it is later than the tick's own bucket and past
      the carry-over, or at least one whole bucket earlier than the start, while the tick
      leaves some bucket unused. */
  lemma {:induction false} ReachWithinCarriedIff(start: int, clock: int, now: int, latency: nat, bucketTime: nat,
                              carryOver: nat, size: nat)
    requires bucketTime > 0 && 0 < size <= TWO_63 && carryOver <= size
    requires start != 0 && start <= now && -TWO_63 <= clock - start < TWO_63
    ensures var kept := if (now - start) / bucketTime + 1 >= carryOver
                        then (now - start) / bucketTime + 1 else carryOver;
            Reach(clock - start, latency, bucketTime, size)
            <= ValidLimit(carryOver, UnusedBuckets(start, now, bucketTime, size), size) + carryOver
            <==> kept >= size
                 || clock < start < clock + bucketTime
                 || (clock >= start && (clock - start) / bucketTime + 1 <= kept)
  {
    ReachCases(clock - start, latency, bucketTime, size);
    DivisionFacts(now - start, bucketTime);
    if clock >= start {
      DivisionFacts(clock - start, bucketTime);
    }
  }

  /** How much earlier carried bucket `i` is dated after a swap: its nominal start in the
      old generation minus the nominal start of the slot it is copied to. */
  function CarriedShift(oldStart: int, newStart: int, limit: nat, i: int, bucketTime: nat): int {
    (oldStart + (limit + i) * bucketTime) - (newStart + i * bucketTime)
  }

  /** Buckets handed on by the tick at `now` that closes the generation opened by the tick
      at `previous`. */
  function TickLimit(previous: int, now: int, maxLatency: nat, bucketTime: nat, size: nat): nat
    requires bucketTime > 0 && previous <= now
  {
    var unused := UnusedBuckets(previous - maxLatency, now, bucketTime, size);
    ValidLimit(maxLatency / bucketTime, unused, size)
  }

  /** The tick at `now` finds a start time set and does not overrun the buffer. */
  predicate OnTime(previous: int, now: int, maxLatency: nat, bucketTime: nat, size: nat)
    requires bucketTime > 0
  {
    && previous <= now
    && previous != maxLatency
    && (now - (previous - maxLatency)) / bucketTime + 1 <= size
  }

  /** One tick after the first: with M = K*b + r, a tick `d` after the previous one that
      does not overrun the buffer hands on exactly floor((d + r) / b) + 1 buckets, and each
      carried bucket is dated more than r and at most r + b earlier than before. */
  lemma {:induction false} TickArithmetic(previous: int, now: int, maxLatency: nat, bucketTime: nat, size: nat, i: int)
    requires bucketTime > 0 && OnTime(previous, now, maxLatency, bucketTime, size)
    ensures var r := maxLatency % bucketTime;
            var limit := TickLimit(previous, now, maxLatency, bucketTime, size);
            && limit == (now - previous + r) / bucketTime + 1 >= 1
            && r < CarriedShift(previous - maxLatency, now - maxLatency, limit, i, bucketTime)
                 <= r + bucketTime
  {
    var r := maxLatency % bucketTime;
    SplitQuotient(now - previous, maxLatency, bucketTime);
    ShiftBounds(now - previous, r, bucketTime,
                TickLimit(previous, now, maxLatency, bucketTime, size), i);
  }

  lemma ShiftBounds(d: nat, r: nat, b: nat, limit: nat, i: int)
    requires b > 0 && limit == (d + r) / b + 1
    ensures r < (limit + i) * b - d - i * b <= r + b
  {
    DivisionFacts(d + r, b);
    assert (limit + i) * b == limit * b + i * b;
    assert limit * b == ((d + r) / b) * b + b;
  }

  lemma SplitQuotient(d: nat, m: nat, b: nat)
    requires b > 0
    ensures (d + m) / b == m / b + (d + m % b) / b
    ensures (d + m % b) / b >= 0
  {
    var q, r := m / b, m % b;
    var q2 := (d + r) / b;
    DivisionFacts(d + r, b);
    assert m == q * b + r;
    assert d + m == (q + q2) * b + (d + r - q2 * b);
    QuotientUnique(d + m, b, q + q2);
  }

  predicate AllOnTime(clocks: seq<int>, maxLatency: nat, bucketTime: nat, size: nat)
    requires bucketTime > 0
  {
    |clocks| < 2
    || (var n := |clocks| - 1;
        && AllOnTime(clocks[..n], maxLatency, bucketTime, size)
        && OnTime(clocks[n - 1], clocks[n], maxLatency, bucketTime, size))
  }

  /** Buckets handed on by the ticks at clocks[1], clocks[2], ..., each closing the
      generation that the previous tick opened. */
  function BucketsHandedOn(clocks: seq<int>, maxLatency: nat, bucketTime: nat, size: nat): nat
    requires bucketTime > 0 && AllOnTime(clocks, maxLatency, bucketTime, size)
  {
    if |clocks| < 2 then 0
    else
      var n := |clocks| - 1;
      BucketsHandedOn(clocks[..n], maxLatency, bucketTime, size)
      + TickLimit(clocks[n - 1], clocks[n], maxLatency, bucketTime, size)
  }

  lemma DriftStep(before: nat, elapsed: int, n: nat, d: nat, r: nat, b: nat)
    requires b > 0
    requires n * (r + 1) <= before * b - elapsed <= n * (r + b)
    ensures (n + 1) * (r + 1) <= (before + (d + r) / b + 1) * b - (elapsed + d) <= (n + 1) * (r + b)
  {
    var q := (d + r) / b;
    DivisionFacts(d + r, b);
    assert (before + q + 1) * b == before * b + q * b + b;
    assert (n + 1) * (r + 1) == n * (r + 1) + (r + 1);
    assert (n + 1) * (r + b) == n * (r + b) + (r + b);
  }

  /** Over any number of generations the handed-on buckets claim more time than elapsed:
      by more than r and at most r + b for every generation. */
  lemma {:induction false} DriftAccumulates(clocks: seq<int>, maxLatency: nat, bucketTime: nat, size: nat)
    requires bucketTime > 0 && |clocks| >= 1 && AllOnTime(clocks, maxLatency, bucketTime, size)
    ensures var n := |clocks| - 1;
            var r := maxLatency % bucketTime;
            var drift := BucketsHandedOn(clocks, maxLatency, bucketTime, size) * bucketTime
                         - (clocks[n] - clocks[0]);
            n * (r + 1) <= drift <= n * (r + bucketTime)
  {
    var n := |clocks| - 1;
    if n == 0 {
    } else {
      var before := BucketsHandedOn(clocks[..n], maxLatency, bucketTime, size);
      DriftAccumulates(clocks[..n], maxLatency, bucketTime, size);
      TickArithmetic(clocks[n - 1], clocks[n], maxLatency, bucketTime, size, 0);
      DriftStep(before, clocks[n - 1] - clocks[0], n - 1, clocks[n] - clocks[n - 1],
                maxLatency % bucketTime, bucketTime);
    }
  }
}
