/** The leaky bucket that caps every time slot of a NIC vector and pushes the excess
    forward (src/nccl_stats_aggregator.cc, calculateAndUpdateHistogram). */
module NicShaping {
  import opened RealSums
  import opened BandwidthWindow

  /** Bytes still queued after the first `n` slots. */
  function Backlog(c0: real, arrivals: seq<real>, cap: real, n: nat): real
    requires n <= |arrivals|
  {
    if n == 0 then c0
    else
      var queued := Backlog(c0, arrivals, cap, n - 1) + arrivals[n - 1];
      if queued > cap then queued - cap else 0.0
  }

  function Slot(c0: real, arrivals: seq<real>, cap: real, i: nat): real
    requires i < |arrivals|
  {
    RealMin(cap, Backlog(c0, arrivals, cap, i) + arrivals[i])
  }

  /** The shaped slots. */
  function Shape(c0: real, arrivals: seq<real>, cap: real): seq<real> {
    seq(|arrivals|, i requires 0 <= i < |arrivals| => Slot(c0, arrivals, cap, i))
  }

  function Carry(c0: real, arrivals: seq<real>, cap: real): real {
    Backlog(c0, arrivals, cap, |arrivals|)
  }

  /** Bytes in = bytes out + bytes queued, after every slot. */
  lemma {:induction false} ShapePrefixConserves(c0: real, arrivals: seq<real>, cap: real, n: nat)
    requires n <= |arrivals|
    ensures SumTo(Shape(c0, arrivals, cap), n) + Backlog(c0, arrivals, cap, n) == c0 + SumTo(arrivals, n)
  {
    if n == 0 {
    } else {
      ShapePrefixConserves(c0, arrivals, cap, n - 1);
    }
  }

  /** The carry never turns negative, no slot exceeds the cap, and with non-negative
      arrivals no slot is negative. */
  lemma ShapeConserves(c0: real, arrivals: seq<real>, cap: real)
    requires c0 >= 0.0 && NonNegative(arrivals) && cap >= 0.0
    ensures Sum(Shape(c0, arrivals, cap)) + Carry(c0, arrivals, cap) == c0 + Sum(arrivals)
    ensures Carry(c0, arrivals, cap) >= 0.0
    ensures forall i :: 0 <= i < |arrivals| ==> 0.0 <= Shape(c0, arrivals, cap)[i] <= cap
  {
    ShapePrefixConserves(c0, arrivals, cap, |arrivals|);
  }

  /** The bytes of `k` full slots. */
  function FullSlots(k: nat, cap: real): real {
    if k == 0 then 0.0 else FullSlots(k - 1, cap) + cap
  }

  function Times(k: nat, cap: real): real {
    (k as real) * cap
  }

  lemma {:induction false} FullSlotsIsProduct(k: nat, cap: real)
    ensures FullSlots(k, cap) == Times(k, cap)
  {
    if k == 0 {
    } else {
      FullSlotsIsProduct(k - 1, cap);
    }
  }

  /** The cumulative output at slot `n` of a schedule that has emitted by slot `j` all that
      arrived until then and is busy in every slot since, slot by slot. */
  function Stacked(c0: real, arrivals: seq<real>, cap: real, n: nat, j: nat): real
    requires j <= n && j <= |arrivals|
  {
    c0 + SumTo(arrivals, j) + FullSlots(n - j, cap)
  }

  lemma {:induction false} ShapeBelowEnvelopes(c0: real, arrivals: seq<real>, cap: real, n: nat, j: nat)
    requires 1 <= j <= n <= |arrivals|
    ensures SumTo(Shape(c0, arrivals, cap), n) <= FullSlots(n, cap)
    ensures SumTo(Shape(c0, arrivals, cap), n) <= Stacked(c0, arrivals, cap, n, j)
  {
    ShapePrefixConserves(c0, arrivals, cap, n);
    if j < n {
      ShapeBelowEnvelopes(c0, arrivals, cap, n - 1, j);
    } else if n > 1 {
      ShapeBelowEnvelopes(c0, arrivals, cap, n - 1, n - 1);
    }
  }

  /** The last slot up to `n` after which the bucket was empty, 0 if there is none. */
  lemma {:induction false} ShapeAttainsEnvelope(c0: real, arrivals: seq<real>, cap: real, n: nat) returns (j: nat)
    requires 1 <= n <= |arrivals|
    ensures j <= n
    ensures SumTo(Shape(c0, arrivals, cap), n)
         == if j == 0 then FullSlots(n, cap) else Stacked(c0, arrivals, cap, n, j)
  {
    ShapePrefixConserves(c0, arrivals, cap, n);
    if Backlog(c0, arrivals, cap, n) == 0.0 {
      j := n;
    } else if n == 1 {
      j := 0;
    } else {
      j := ShapeAttainsEnvelope(c0, arrivals, cap, n - 1);
    }
  }

  /** The same as a line of slope `cap`. */
  function Envelope(c0: real, arrivals: seq<real>, cap: real, n: nat, j: nat): real
    requires j <= n && j <= |arrivals|
  {
    c0 + SumTo(arrivals, j) + Times(n - j, cap)
  }

  lemma EnvelopeIsStacked(c0: real, arrivals: seq<real>, cap: real, n: nat, j: nat)
    requires j <= n && j <= |arrivals|
    ensures Envelope(c0, arrivals, cap, n, j) == Stacked(c0, arrivals, cap, n, j)
  {
    FullSlotsIsProduct(n - j, cap);
  }

  /** The (min,plus) closed form: for n >= 1 the cumulative output is the minimum of n*cap
      and c0 + A(j) + (n - j)*cap over 1 <= j <= n, stated as a lower bound that is
      attained. */
  lemma ShapeClosedForm(c0: real, arrivals: seq<real>, cap: real, n: nat)
    requires 1 <= n <= |arrivals|
    ensures var total := SumTo(Shape(c0, arrivals, cap), n);
            && total <= Times(n, cap)
            && (forall j :: 1 <= j <= n ==> total <= Envelope(c0, arrivals, cap, n, j))
            && (total == Times(n, cap)
                || exists j :: 1 <= j <= n && total == Envelope(c0, arrivals, cap, n, j))
  {
    FullSlotsIsProduct(n, cap);
    forall j | 1 <= j <= n
      ensures SumTo(Shape(c0, arrivals, cap), n) <= Envelope(c0, arrivals, cap, n, j)
    {
      ShapeBelowEnvelopes(c0, arrivals, cap, n, j);
      EnvelopeIsStacked(c0, arrivals, cap, n, j);
    }
    ShapeBelowEnvelopes(c0, arrivals, cap, n, n);
    var j := ShapeAttainsEnvelope(c0, arrivals, cap, n);
    EnvelopeIsStacked(c0, arrivals, cap, n, j);
  }

  /** A schedule that never exceeds the cap in a slot and never emits bytes that have not
      yet arrived. */
  predicate Admissible(schedule: seq<real>, c0: real, arrivals: seq<real>, cap: real) {
    && |schedule| == |arrivals|
    && (forall i :: 0 <= i < |schedule| ==> schedule[i] <= cap)
    && (forall n :: 1 <= n <= |schedule| ==> SumTo(schedule, n) <= c0 + SumTo(arrivals, n))
  }

  lemma {:induction false} DominatesPrefix(schedule: seq<real>, c0: real, arrivals: seq<real>, cap: real, n: nat)
    requires Admissible(schedule, c0, arrivals, cap) && n <= |arrivals|
    ensures SumTo(schedule, n) <= SumTo(Shape(c0, arrivals, cap), n)
  {
    if n == 0 {
    } else {
      DominatesPrefix(schedule, c0, arrivals, cap, n - 1);
      ShapePrefixConserves(c0, arrivals, cap, n);
    }
  }

  /** The shaped slots are themselves admissible and stay ahead of every admissible
      schedule at every slot: the greatest schedule. */
  lemma ShapeIsGreatestAdmissible(schedule: seq<real>, c0: real, arrivals: seq<real>, cap: real)
    ensures Admissible(Shape(c0, arrivals, cap), c0, arrivals, cap)
    ensures Admissible(schedule, c0, arrivals, cap) ==>
              forall n :: 0 <= n <= |arrivals| ==>
                SumTo(schedule, n) <= SumTo(Shape(c0, arrivals, cap), n)
  {
    var out := Shape(c0, arrivals, cap);
    forall n | 1 <= n <= |out| ensures SumTo(out, n) <= c0 + SumTo(arrivals, n) {
      ShapePrefixConserves(c0, arrivals, cap, n);
    }
    if Admissible(schedule, c0, arrivals, cap) {
      forall n | 0 <= n <= |arrivals| ensures SumTo(schedule, n) <= SumTo(out, n) {
        DominatesPrefix(schedule, c0, arrivals, cap, n);
      }
    }
  }

  lemma {:induction false} BacklogPrefix(c0: real, a: seq<real>, b: seq<real>, cap: real, n: nat)
    requires n <= |a|
    ensures Backlog(c0, a + b, cap, n) == Backlog(c0, a, cap, n)
  {
    if n == 0 {
    } else {
      BacklogPrefix(c0, a, b, cap, n - 1);
      assert (a + b)[n - 1] == a[n - 1];
    }
  }

  lemma {:induction false} BacklogSuffix(c0: real, a: seq<real>, b: seq<real>, cap: real, n: nat)
    requires n <= |b|
    ensures Backlog(c0, a + b, cap, |a| + n) == Backlog(Carry(c0, a, cap), b, cap, n)
  {
    if n == 0 {
      BacklogPrefix(c0, a, b, cap, |a|);
    } else {
      BacklogSuffix(c0, a, b, cap, n - 1);
      assert (a + b)[|a| + n - 1] == b[n - 1];
    }
  }

  /** Handing the carry on makes the boundary between two spans invisible: shaping them
      one after the other is shaping their concatenation. */
  lemma ShapeAppend(c0: real, a: seq<real>, b: seq<real>, cap: real)
    ensures Shape(c0, a + b, cap) == Shape(c0, a, cap) + Shape(Carry(c0, a, cap), b, cap)
    ensures Carry(c0, a + b, cap) == Carry(Carry(c0, a, cap), b, cap)
  {
    BacklogSuffix(c0, a, b, cap, |b|);
    forall i | 0 <= i < |a + b|
      ensures Shape(c0, a + b, cap)[i] == (Shape(c0, a, cap) + Shape(Carry(c0, a, cap), b, cap))[i]
    {
      if i < |a| {
        BacklogPrefix(c0, a, b, cap, i);
      } else {
        BacklogSuffix(c0, a, b, cap, i - |a|);
      }
    }
  }

  /** Over the time of a bucket each, the rates add up to all the bytes. */
  lemma {:induction false} RatesAddUp(rates: seq<real>, bytes: seq<real>, bucketTime: nat, n: nat)
    requires n <= |rates| == |bytes| && forall i :: 0 <= i < n ==> Carries(rates[i], bucketTime, bytes[i])
    ensures Carries(SumTo(rates, n), bucketTime, SumTo(bytes, n))
  {
    if n == 0 {
    } else {
      RatesAddUp(rates, bytes, bucketTime, n - 1);
      var seconds := bucketTime as real / 1000.0;
      assert Carries(rates[n - 1], bucketTime, bytes[n - 1]);
      assert (SumTo(rates, n - 1) + rates[n - 1]) * seconds == SumTo(rates, n - 1) * seconds + rates[n - 1] * seconds;
    }
  }

  /** calculateAndUpdateHistogram on one vector: shapes the first `limit` slots, reports
      them, clears the vector and returns the new carry. */
  method CalculateAndUpdateHistogram(nicVec: array<real>, limit: nat, cap: real, bucketTime: nat, carryIn: real)
    returns (samples: seq<real>, shaped: seq<real>, carry: real)
    requires limit <= nicVec.Length && bucketTime > 0
    modifies nicVec
    ensures shaped == Shape(carryIn, old(nicVec[..limit]), cap)
    ensures carry == Carry(carryIn, old(nicVec[..limit]), cap)
    ensures |samples| == limit && forall i :: 0 <= i < limit ==> samples[i] == BitsPerSecond(shaped[i], bucketTime)
    ensures forall i :: 0 <= i < limit ==> Carries(samples[i], bucketTime, shaped[i])
    ensures Carries(Sum(samples), bucketTime, Sum(shaped))
    ensures nicVec[..] == Zeros(nicVec.Length)
  {
    ghost var before := nicVec[..limit];
    carry, samples := carryIn, [];
    for i := 0 to limit
      invariant carry == Backlog(carryIn, before, cap, i)
      invariant forall j :: 0 <= j < i ==> nicVec[j] == Slot(carryIn, before, cap, j)
      invariant forall j :: i <= j < limit ==> nicVec[j] == before[j]
      invariant |samples| == i && forall j :: 0 <= j < i ==> samples[j] == BitsPerSecond(nicVec[j], bucketTime)
    {
      var bytesInBucket := nicVec[i] + carry;
      if bytesInBucket > cap {
        carry := bytesInBucket - cap;
        nicVec[i] := cap;
      } else {
        carry := 0.0;
        nicVec[i] := bytesInBucket;
      }
      samples := samples + [BitsPerSecond(nicVec[i], bucketTime)];
    }
    shaped := nicVec[..limit];
    RatesAddUp(samples, shaped, bucketTime, limit);
    for i := 0 to nicVec.Length
      invariant forall j :: 0 <= j < i ==> nicVec[j] == 0.0
    {
      nicVec[i] := 0.0;
    }
  }
}
