/** Where the clock puts the samples of a pass over the bandwidth buckets: the offset in its batch
    at which it begins, and how far the times the stamps give them are from those at which their
    buckets began (src/millisecond_bandwidth_output.cc, src/nccl_stats_aggregator.cc). */
module BatchTimes {
  import opened Arithmetic
  import opened BatchBuffer

  function ClockOffset(t: nat, bucketMs: nat, S: nat): (o: nat)
    requires bucketMs > 0 && S > 0
    ensures o < S
  {
    ((t % 1000) / bucketMs) % S
  }

  lemma NestedParts(m: nat, d: nat, S: nat, batch: nat, q: nat, r: nat, p: nat, o: nat)
    requires batch == S * d && m == q * d + r && r < d && q == p * S + o && o < S
    ensures o * d >= 0 && m == p * batch + (o * d + r) && o * d + r < batch
  {
    ProductNonNegative(o, d);
    MulStep(o, S, d);
    assert q * d == (p * S) * d + o * d;
    assert (p * S) * d == p * (S * d);
  }

  lemma NestedRemainder(m: nat, d: nat, S: nat, batch: nat, q: nat, r: nat, o: nat)
    requires d > 0 && S > 0 && batch == S * d && batch > 0
    requires q == m / d && r == m % d && o == q % S
    ensures o * d >= 0 && m % batch == o * d + r
  {
    var p := q / S;
    QuotientAndRemainder(m, d, q, r);
    QuotientAndRemainder(q, S, p, o);
    NestedParts(m, d, S, batch, q, r, p, o);
    RemainderIs(m, batch, p, o * d + r);
  }

  lemma FirstTimeParts(t: nat, d: nat, S: nat, batch: nat, offset: nat, rest: nat)
    requires d > 0 && S > 0 && batch == S * d && batch > 0
    requires offset == ClockOffset(t, d, S) && rest == (t % 1000) % d
    ensures FirstTime(t, batch) == t - (offset * d + rest)
  {
    NestedRemainder(t % 1000, d, S, batch, (t % 1000) / d, rest, offset);
  }

  lemma {:induction false} BatchSpanIsProduct(n: nat, S: nat, d: nat, batch: nat)
    requires batch == S * d
    ensures BatchSpan(n, batch) == (n * S) * d
  {
    if n == 0 {
    } else {
      BatchSpanIsProduct(n - 1, S, d, batch);
      assert n * S == (n - 1) * S + S;
      assert ((n - 1) * S + S) * d == ((n - 1) * S) * d + batch;
    }
  }

  /** When bucket `k` began, of a generation that began at `start`. */
  function Began(start: int, k: int, d: nat): int {
    start + k * d
  }

  /** The time stamped on the batch `j` batches after the one in which a pass begins. */
  function Given(t: nat, j: nat, batch: nat): int
    requires batch > 0
  {
    FirstTime(t, batch) + BatchSpan(j, batch)
  }

  /** The stamp that batch would need for the buckets of the generation copied there. */
  function Due(start: int, t: nat, j: nat, S: nat, d: nat): int
    requires S > 0 && d > 0
  {
    start + (j * S - ClockOffset(t, d, S)) * d
  }

  /** With the stamp due, the offset in the batch gives each sample the time its bucket began. */
  lemma DueDates(start: int, t: nat, j: nat, o: nat, k: int, S: nat, d: nat)
    requires S > 0 && d > 0 && Cell(j, o, S) == ClockOffset(t, d, S) + k
    ensures Due(start, t, j, S, d) + o * d == Began(start, k, d)
  {
    var x := j * S - ClockOffset(t, d, S);
    assert x * d + o * d == (x + o) * d;
  }

  /** How long after the beginning of its generation a pass registers its time, rounded down to a
      bucket. */
  function Lateness(t: nat, start: int, d: nat): int
    requires d > 0
  {
    t - (t % 1000) % d - start
  }

  /** By how much the millisecond of `t`, reckoned in buckets, is further into its batch than reckoned in
      whole batches. */
  function Slippage(t: nat, j: nat, S: nat, d: nat, batch: nat): int
    requires S > 0 && d > 0 && batch > 0
  {
    (t % 1000) % d + ClockOffset(t, d, S) * d + BatchSpan(j, batch) - ((t % 1000) % batch + (j * S) * d)
  }

  /** For every batch and bucket length: how much later than its bucket began the stamp and the offset
      date each sample of a pass. */
  lemma StampError(start: int, t: nat, j: nat, S: nat, d: nat, batch: nat)
    requires S > 0 && d > 0 && batch > 0
    ensures Given(t, j, batch) - Due(start, t, j, S, d) == Lateness(t, start, d) + Slippage(t, j, S, d, batch)
    ensures batch == S * d ==> Slippage(t, j, S, d, batch) == 0
  {
    var offset := ClockOffset(t, d, S);
    assert (j * S - offset) * d == (j * S) * d - offset * d;
    if batch == S * d {
      FirstTimeParts(t, d, S, batch, offset, (t % 1000) % d);
      BatchSpanIsProduct(j, S, d, batch);
    }
  }

  /** Batches of 100 milliseconds and buckets of three: the first sample of a pass at millisecond
      99 is given time 0, even if its bucket begins just then. */
  lemma UnevenBatch()
    ensures 100 / 3 == 33 && ClockOffset(99, 3, 33) == 0 && Given(99, 0, 100) == 0
    ensures Lateness(99, 99, 3) == 0 && Slippage(99, 0, 33, 3, 100) == -99
  {
  }

  /** Offsets that follow on from each other are cells that do. */
  lemma AbuttingCells(b: nat, o: nat, n: nat, S: nat)
    requires S > 0 && o < S
    ensures Cell(b + (o + n) / S, (o + n) % S, S) == Cell(b, o, S) + n
  {
    DivisionFacts(o + n, S);
    var q := (o + n) / S;
    assert (b + q) * S == b * S + q * S;
  }
}
