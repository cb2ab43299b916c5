/** One connection's double-buffered byte counters (src/nccl_stats_aggregator.cc): the
    value-level meaning of recording a measurement, swapping generations and handing the
    closed generation to a NIC vector. */
module ConnectionBandwidth {
  import opened RealSums
  import opened Arithmetic
  import opened BandwidthWindow

  datatype Direction = Send | Recv

  /** One of the two copies of the byte counters (the struct BwStats). */
  datatype Generation = Generation(start: int, send: seq<real>, recv: seq<real>) {
    function Cells(direction: Direction): seq<real> {
      if direction.Send? then send else recv
    }

    function With(direction: Direction, cells: seq<real>): Generation {
      if direction.Send? then this.(send := cells) else this.(recv := cells)
    }
  }

  /** The copy writers add to, and the copy the reader drains. */
  datatype Connection = Connection(active: Generation, standby: Generation)

  // ---------- Recording one measurement ----------

  function AddShare(cells: seq<real>, share: real, from: nat, to: nat): seq<real> {
    seq(|cells|, i requires 0 <= i < |cells| => if from <= i < to then cells[i] + share else cells[i])
  }

  /** `bytes` spread evenly over the buckets from..to. */
  function Spread(cells: seq<real>, bytes: real, from: nat, to: nat): seq<real>
    requires from < to <= |cells|
  {
    AddShare(cells, bytes / ((to - from) as real), from, to)
  }

  function AddBytes(cells: seq<real>, bytes: real, elapsed: int, latency: nat, bucketTime: nat): seq<real>
    requires bucketTime > 0 && |cells| > 0
  {
    var from := StartIndex(elapsed, latency, bucketTime);
    var to := EndIndex(elapsed, bucketTime, |cells|);
    if from >= to then cells[|cells| - 1 := cells[|cells| - 1] + bytes]
    else Spread(cells, bytes, from, to)
  }

  /** `share` added up `n` times. */
  function Repeated(n: nat, share: real): real {
    if n == 0 then 0.0 else Repeated(n - 1, share) + share
  }

  lemma {:induction false} RepeatedIsProduct(n: nat, share: real)
    ensures Repeated(n, share) == share * (n as real)
  {
    if n == 0 {
    } else {
      RepeatedIsProduct(n - 1, share);
      assert share * (n as real) == share * ((n - 1) as real) + share;
    }
  }

  lemma SharesAddUp(bytes: real, n: nat)
    requires n > 0
    ensures Repeated(n, bytes / (n as real)) == bytes
  {
    RepeatedIsProduct(n, bytes / (n as real));
  }

  /** `share` in the buckets from..to of `size` buckets, nothing elsewhere. */
  function Shares(size: nat, share: real, from: nat, to: nat): seq<real> {
    seq(size, i => if from <= i < to then share else 0.0)
  }

  lemma {:induction false} SharesSum(size: nat, n: nat, share: real, from: nat, to: nat)
    requires from <= to && n <= size
    ensures SumTo(Shares(size, share, from, to), n)
         == Repeated(if n <= from then 0 else if n <= to then n - from else to - from, share)
  {
    if n == 0 {
    } else {
      SharesSum(size, n - 1, share, from, to);
    }
  }

  lemma AddShareSum(cells: seq<real>, share: real, from: nat, to: nat)
    requires from < to <= |cells|
    ensures Sum(AddShare(cells, share, from, to)) == Sum(cells) + Repeated(to - from, share)
  {
    SumPointwise(cells, Shares(|cells|, share, from, to), AddShare(cells, share, from, to));
    SharesSum(|cells|, |cells|, share, from, to);
  }

  lemma SpreadSum(cells: seq<real>, bytes: real, from: nat, to: nat)
    requires from < to <= |cells|
    ensures Sum(Spread(cells, bytes, from, to)) == Sum(cells) + bytes
  {
    AddShareSum(cells, bytes / ((to - from) as real), from, to);
    SharesAddUp(bytes, to - from);
  }

  /** An accepted measurement adds exactly its size to its direction's total, whatever the
      elapsed time and the latency, the past-end fallback included. */
  lemma AddBytesSum(cells: seq<real>, bytes: real, elapsed: int, latency: nat, bucketTime: nat)
    requires bucketTime > 0 && |cells| > 0
    ensures Sum(AddBytes(cells, bytes, elapsed, latency, bucketTime)) == Sum(cells) + bytes
  {
    var from := StartIndex(elapsed, latency, bucketTime);
    var to := EndIndex(elapsed, bucketTime, |cells|);
    if from >= to {
      SumUpdate(cells, |cells| - 1, cells[|cells| - 1] + bytes);
    } else {
      SpreadSum(cells, bytes, from, to);
    }
  }

  lemma ShareSign(bytes: real, n: real)
    requires bytes >= 0.0 && n > 0.0
    ensures bytes / n >= 0.0
    ensures bytes > 0.0 ==> bytes / n > 0.0
  {
  }

  /** Nothing changes at or beyond the measurement's reach, nothing decreases, and the
      bucket just below the reach grows by a positive amount. */
  lemma AddBytesReach(cells: seq<real>, bytes: real, elapsed: int, latency: nat, bucketTime: nat)
    requires bucketTime > 0 && |cells| > 0 && bytes >= 0.0
    ensures var after := AddBytes(cells, bytes, elapsed, latency, bucketTime);
            var reach := Reach(elapsed, latency, bucketTime, |cells|);
            && |after| == |cells|
            && 0 < reach <= |cells|
            && (forall i :: reach <= i < |cells| ==> after[i] == cells[i])
            && (forall i :: 0 <= i < |cells| ==> after[i] >= cells[i])
            && (bytes > 0.0 ==> after[reach - 1] > cells[reach - 1])
  {
    var from := StartIndex(elapsed, latency, bucketTime);
    var to := EndIndex(elapsed, bucketTime, |cells|);
    if from < to {
      ShareSign(bytes, (to - from) as real);
    }
  }

  // ---------- Where the bytes of a measurement go ----------

  /** Bucket `i` began by the time a measurement is reported and had not ended `latency` before. */
  predicate Overlaps(i: nat, elapsed: int, latency: nat, bucketTime: nat) {
    i * bucketTime <= elapsed && elapsed - latency < (i + 1) * bucketTime
  }

  function Overlapped(size: nat, elapsed: int, latency: nat, bucketTime: nat): set<nat> {
    set i: nat | i < size && Overlaps(i, elapsed, latency, bucketTime)
  }

  /** The buckets in `hit` get an equal share each, the others nothing. */
  predicate SharedAmong(before: seq<real>, after: seq<real>, bytes: real, hit: set<nat>) {
    && hit != {} && |after| == |before|
    && forall i :: 0 <= i < |before| ==>
         after[i] == if i in hit then before[i] + bytes / (|hit| as real) else before[i]
  }

  predicate AtOrAfter(i: nat, from: nat) { from <= i }

  function Range(from: nat, end: nat): set<nat> {
    set i: nat | i < end && AtOrAfter(i, from)
  }

  lemma {:induction false} RangeSize(from: nat, end: nat)
    requires from <= end
    ensures |Range(from, end)| == end - from
    decreases end
  {
    if from == end {
      assert Range(from, end) == {};
    } else {
      RangeSize(from, end - 1);
      assert Range(from, end) == Range(from, end - 1) + {end - 1};
    }
  }

  lemma AtLeastQuotient(i: nat, x: nat, b: nat)
    requires b > 0
    ensures i >= x / b <==> x < (i + 1) * b
  {
    DivisionFacts(x, b);
    MulStep(x / b, i + 1, b);
    MulStep(i, x / b, b);
    Distribute(i, 0, b);
  }

  lemma AtMostQuotient(i: nat, x: nat, b: nat)
    requires b > 0
    ensures i <= x / b <==> i * b <= x
  {
    DivisionFacts(x, b);
    MulStep(x / b, i, b);
    MulStep(i, x / b, b);
  }

  lemma IndexOverlaps(i: nat, elapsed: nat, latency: nat, bucketTime: nat, size: nat)
    requires bucketTime > 0 && size <= TWO_63 && elapsed < TWO_63 && i < size
    ensures StartIndex(elapsed, latency, bucketTime) <= i < EndIndex(elapsed, bucketTime, size)
            <==> Overlaps(i, elapsed, latency, bucketTime)
  {
    AtMostQuotient(i, elapsed, bucketTime);
    DivisionFacts(elapsed, bucketTime);
    ToUint64Facts(elapsed / bucketTime + 1);
    if elapsed >= latency {
      AtLeastQuotient(i, elapsed - latency, bucketTime);
      DivisionFacts(elapsed - latency, bucketTime);
    } else {
      DivisionFacts(latency - elapsed, bucketTime);
      MulStep(0, i + 1, bucketTime);
    }
  }

  lemma SpreadIsShared(cells: seq<real>, bytes: real, from: nat, to: nat, hit: set<nat>)
    requires from < to <= |cells| && hit == Range(from, to)
    ensures SharedAmong(cells, Spread(cells, bytes, from, to), bytes, hit)
  {
    RangeSize(from, to);
    assert from in hit;
  }

  /** The bytes of a measurement are shared equally among exactly those buckets of the vector that
      its time span overlaps. If it overlaps none, the last bucket gets them all. */
  lemma AddBytesLands(cells: seq<real>, bytes: real, elapsed: nat, latency: nat, bucketTime: nat)
    requires bucketTime > 0 && 0 < |cells| <= TWO_63 && elapsed < TWO_63
    ensures var hit := Overlapped(|cells|, elapsed, latency, bucketTime);
            SharedAmong(cells, AddBytes(cells, bytes, elapsed, latency, bucketTime), bytes,
                        if hit == {} then {|cells| - 1} else hit)
  {
    var from := StartIndex(elapsed, latency, bucketTime);
    var to := EndIndex(elapsed, bucketTime, |cells|);
    var hit := Overlapped(|cells|, elapsed, latency, bucketTime);
    forall i: nat | i < |cells| ensures from <= i < to <==> i in hit {
      IndexOverlaps(i, elapsed, latency, bucketTime, |cells|);
    }
    if from < to {
      assert from in hit && hit == Range(from, to);
      SpreadIsShared(cells, bytes, from, to, hit);
    } else {
      assert hit == {};
    }
  }

  lemma SharedChanges(before: seq<real>, after: seq<real>, bytes: real, hit: set<nat>, i: nat)
    requires SharedAmong(before, after, bytes, hit) && bytes > 0.0 && i < |before|
    ensures after[i] != before[i] <==> i in hit
  {
    ShareSign(bytes, |hit| as real);
  }

  /** So a bucket changes exactly if the span overlaps it, or if it is the last and none is overlapped. */
  lemma AddBytesTouches(cells: seq<real>, bytes: real, elapsed: nat, latency: nat, bucketTime: nat, i: nat)
    requires bucketTime > 0 && 0 < |cells| <= TWO_63 && elapsed < TWO_63 && i < |cells| && bytes > 0.0
    ensures var hit := Overlapped(|cells|, elapsed, latency, bucketTime);
            AddBytes(cells, bytes, elapsed, latency, bucketTime)[i] != cells[i]
            <==> i in if hit == {} then {|cells| - 1} else hit
  {
    AddBytesLands(cells, bytes, elapsed, latency, bucketTime);
    var hit := Overlapped(|cells|, elapsed, latency, bucketTime);
    SharedChanges(cells, AddBytes(cells, bytes, elapsed, latency, bucketTime), bytes,
                  if hit == {} then {|cells| - 1} else hit, i);
  }

  /** A clock sampled before the generation began, by less than a bucket, less than two, or more: the
      first bucket gets all, the last one does, or every bucket an equal share. */
  lemma EarlyBytesLand(cells: seq<real>, bytes: real, elapsed: int, latency: nat, bucketTime: nat)
    requires bucketTime > 0 && 0 < |cells| <= TWO_63 && -TWO_63 <= elapsed < 0
    ensures SharedAmong(cells, AddBytes(cells, bytes, elapsed, latency, bucketTime), bytes,
                        if elapsed > 0 - bucketTime then {0}
                        else if elapsed > 0 - 2 * bucketTime then {|cells| - 1}
                        else Range(0, |cells|))
  {
    DivisionFacts(-elapsed, bucketTime);
    DivisionFacts(latency - elapsed, bucketTime);
    assert StartIndex(elapsed, latency, bucketTime) == 0;
    ToUint64Facts(1 - (-elapsed) / bucketTime);
    if elapsed > 0 - bucketTime {
      SpreadIsShared(cells, bytes, 0, 1, {0});
    } else if elapsed > 0 - 2 * bucketTime {
      QuotientUnique(-elapsed, bucketTime, 1);
    } else {
      AtLeastTwo(-elapsed, bucketTime);
      SpreadIsShared(cells, bytes, 0, |cells|, Range(0, |cells|));
    }
  }

  lemma AtLeastTwo(x: nat, b: nat)
    requires b > 0 && x >= 2 * b
    ensures x / b >= 2
  {
    DivisionFacts(x, b);
    MulStep(x / b, 2, b);
  }

  /** A measurement is dropped while its generation has no start time yet. */
  function Measure(c: Connection, direction: Direction, bytes: real, latency: nat, clock: int,
                   bucketTime: nat): Connection
    requires bucketTime > 0 && |c.active.send| > 0 && |c.active.recv| > 0
  {
    if c.active.start == 0 then c
    else
      var cells := AddBytes(c.active.Cells(direction), bytes, clock - c.active.start, latency, bucketTime);
      c.(active := c.active.With(direction, cells))
  }

  /** Nothing but the active cells of the measurement's direction changes, and those by its bytes. */
  lemma MeasureLands(c: Connection, direction: Direction, bytes: real, latency: nat, clock: int, bucketTime: nat)
    requires bucketTime > 0 && 0 < |c.active.Cells(direction)| <= TWO_63 && |c.active.send| > 0 && |c.active.recv| > 0
    requires c.active.start == 0 || 0 <= clock - c.active.start < TWO_63
    ensures var after := Measure(c, direction, bytes, latency, clock, bucketTime);
            var cells := c.active.Cells(direction);
            var hit := Overlapped(|cells|, clock - c.active.start, latency, bucketTime);
            && after.standby == c.standby && after.active.start == c.active.start
            && (direction.Send? ==> after.active.recv == c.active.recv)
            && (direction.Recv? ==> after.active.send == c.active.send)
            && if c.active.start == 0 then after == c
               else SharedAmong(cells, after.active.Cells(direction), bytes, if hit == {} then {|cells| - 1} else hit)
  {
    if c.active.start != 0 {
      AddBytesLands(c.active.Cells(direction), bytes, clock - c.active.start, latency, bucketTime);
    }
  }

  // ---------- Swapping generations ----------

  /** The first `carryOver` cells of `clean` replaced by those of `closed` from `limit` on. */
  function CarryOver(closed: seq<real>, clean: seq<real>, limit: nat, carryOver: nat): seq<real>
    requires limit + carryOver <= |closed| && carryOver <= |clean|
  {
    closed[limit..limit + carryOver] + clean[carryOver..]
  }

  function Swap(c: Connection, start: int, limit: nat, carryOver: nat): Connection
    requires limit + carryOver <= |c.active.send| && carryOver <= |c.standby.send|
    requires limit + carryOver <= |c.active.recv| && carryOver <= |c.standby.recv|
  {
    Connection(
      Generation(start,
                 CarryOver(c.active.send, c.standby.send, limit, carryOver),
                 CarryOver(c.active.recv, c.standby.recv, limit, carryOver)),
      c.active)
  }

  lemma CarryOverSum(closed: seq<real>, clean: seq<real>, limit: nat, carryOver: nat)
    requires limit + carryOver <= |closed| && carryOver <= |clean|
    requires AllZero(clean)
    ensures Sum(CarryOver(closed, clean, limit, carryOver)) == Sum(closed[limit..limit + carryOver])
  {
    SumAppend(closed[limit..limit + carryOver], clean[carryOver..]);
    SumAllZero(clean[carryOver..]);
  }

  /** Swapping onto a clean copy keeps every byte except those beyond the carried cells. */
  lemma SwapSum(closed: seq<real>, clean: seq<real>, limit: nat, carryOver: nat)
    requires limit + carryOver <= |closed| && carryOver <= |clean|
    requires AllZero(clean)
    ensures Sum(closed) == Sum(closed[..limit]) + Sum(CarryOver(closed, clean, limit, carryOver))
                         + Sum(closed[limit + carryOver..])
  {
    CarryOverSum(closed, clean, limit, carryOver);
    SumThree(closed, limit, limit + carryOver);
  }

  /** Cell by cell, in both directions: the carried cells move to the front, in order, of a copy that
      keeps its own cells behind them; the copy just closed is kept whole. */
  lemma SwapCells(c: Connection, start: int, limit: nat, carryOver: nat, direction: Direction, i: nat)
    requires limit + carryOver <= |c.active.send| && carryOver <= |c.standby.send|
    requires limit + carryOver <= |c.active.recv| && carryOver <= |c.standby.recv|
    requires i < |c.standby.Cells(direction)|
    ensures var after := Swap(c, start, limit, carryOver);
            && after.active.start == start && after.standby == c.active
            && |after.active.Cells(direction)| == |c.standby.Cells(direction)|
            && after.active.Cells(direction)[i]
               == if i < carryOver then c.active.Cells(direction)[limit + i] else c.standby.Cells(direction)[i]
  {
  }

  // ---------- Handing the closed generation to the NIC ----------

  function Accumulate(nic: seq<real>, cells: seq<real>, limit: nat): seq<real>
    requires limit <= |nic| && limit <= |cells|
  {
    seq(|nic|, i requires 0 <= i < |nic| => if i < limit then nic[i] + cells[i] else nic[i])
  }

  /** Bucket by bucket, in the prefix handed on and nowhere else. */
  lemma AccumulateCells(nic: seq<real>, cells: seq<real>, limit: nat, i: nat)
    requires limit <= |nic| && limit <= |cells| && i < |nic|
    ensures |Accumulate(nic, cells, limit)| == |nic|
    ensures Accumulate(nic, cells, limit)[i] - nic[i] == if i < limit then cells[i] else 0.0
  {
  }

  lemma AccumulateSum(nic: seq<real>, cells: seq<real>, limit: nat)
    requires limit <= |nic| && limit <= |cells|
    ensures Sum(Accumulate(nic, cells, limit)) == Sum(nic) + Sum(cells[..limit])
  {
    var delta := cells[..limit] + Zeros(|nic| - limit);
    SumPointwise(nic, delta, Accumulate(nic, cells, limit));
    SumAppend(cells[..limit], Zeros(|nic| - limit));
    SumAllZero(Zeros(|nic| - limit));
  }

  /** Both directions of the standby copy are cleared after a pass of either direction. */
  function Drained(c: Connection): Connection {
    c.(standby := c.standby.(send := Zeros(|c.standby.send|), recv := Zeros(|c.standby.recv|)))
  }
}

/** The imperative form: a class with the source's fields whose methods are proved against
    the functions of ConnectionBandwidth. */
module ConnectionStatistics {
  import opened Arithmetic
  import opened RealSums
  import opened BandwidthWindow
  import opened ConnectionBandwidth

  const NS_PER_MS: nat := 1_000_000

  class NcclConnectionStatistics {
    const bucketTime: nat
    const carryOverBuckets: nat
    const size: nat
    var generation: nat
    var startTimes: seq<int>
    const send0: array<real>
    const send1: array<real>
    const recv0: array<real>
    const recv1: array<real>

    ghost predicate Valid()
      reads this
    {
      && bucketTime > 0 && 0 < size <= TWO_63 && carryOverBuckets <= size
      && |startTimes| == 2
      && send0.Length == send1.Length == recv0.Length == recv1.Length == size
      && send0 != send1 && recv0 != recv1
      && {send0, send1} !! {recv0, recv1}
    }

    ghost function Buffers(): set<array<real>> {
      {send0, send1, recv0, recv1}
    }

    function Buffer(state: nat, direction: Direction): array<real> {
      if direction.Send? then (if state == 0 then send0 else send1)
      else if state == 0 then recv0 else recv1
    }

    ghost function GenerationAt(state: nat): Generation
      requires Valid() && state < 2
      reads this, Buffers()
    {
      Generation(startTimes[state], Buffer(state, Send)[..], Buffer(state, Recv)[..])
    }

    /** The abstract value: which copy is active follows from the generation's parity. */
    ghost function View(): (c: Connection)
      requires Valid()
      reads this, Buffers()
      ensures |c.active.send| == |c.active.recv| == |c.standby.send| == |c.standby.recv| == size
    {
      Connection(GenerationAt(generation % 2), GenerationAt((generation + 1) % 2))
    }

    constructor (size: nat, bucketTime: nat, carryOverBuckets: nat)
      requires bucketTime > 0 && 0 < size <= TWO_63 && carryOverBuckets <= size
      ensures Valid() && fresh(Buffers())
      ensures this.size == size && this.bucketTime == bucketTime && this.carryOverBuckets == carryOverBuckets
      ensures View() == Connection(Generation(0, Zeros(size), Zeros(size)),
                                   Generation(0, Zeros(size), Zeros(size)))
    {
      this.size, this.bucketTime, this.carryOverBuckets := size, bucketTime, carryOverBuckets;
      generation, startTimes := 0, [0, 0];
      send0 := new real[size](_ => 0.0);
      send1 := new real[size](_ => 0.0);
      recv0 := new real[size](_ => 0.0);
      recv1 := new real[size](_ => 0.0);
    }

    /** updateBwAndLatencyStats, without the offered-load and latency vectors. */
    method UpdateBandwidth(bytes: nat, latencyInNs: nat, direction: Direction, reportedTime: int)
      requires Valid()
      modifies Buffers()
      ensures View() == Measure(old(View()), direction, bytes as real, latencyInNs / NS_PER_MS,
                                reportedTime, bucketTime)
    {
      var state := generation % 2;
      if startTimes[state] == 0 {
        return;
      }
      AddToBuckets(Buffer(state, direction), bytes as real, reportedTime - startTimes[state],
                   latencyInNs / NS_PER_MS, bucketTime);
    }

    /** swapStateForBWstatsandInitializeTime. */
    method SwapState(start: int, unused: nat)
      requires Valid()
      modifies this`generation, this`startTimes, Buffers()
      ensures Valid() && generation == old(generation) + 1
      ensures View() == Swap(old(View()), start, ValidLimit(carryOverBuckets, unused, size), carryOverBuckets)
    {
      var oldState := generation % 2;
      generation := generation + 1;
      var newState := generation % 2;
      startTimes := startTimes[newState := start];
      var limit := ValidLimit(carryOverBuckets, unused, size);
      CopyCarryOver(Buffer(oldState, Send), Buffer(newState, Send), limit, carryOverBuckets);
      CopyCarryOver(Buffer(oldState, Recv), Buffer(newState, Recv), limit, carryOverBuckets);
      assert GenerationAt(oldState) == old(View()).active;
      assert newState == (old(generation) + 1) % 2 && (generation + 1) % 2 == oldState;
    }

    /** aggregateBWStatsFromLastInterval for one direction; `samples` are submitted to the bandwidth
        histogram of the direction. */
    method AggregateLastInterval(direction: Direction, nicVec: array<real>, unused: nat) returns (samples: seq<real>)
      requires Valid() && nicVec !in Buffers() && nicVec.Length == size
      modifies nicVec, Buffers()
      ensures View() == Drained(old(View()))
      ensures nicVec[..] == Accumulate(old(nicVec[..]), old(View()).standby.Cells(direction),
                                       ValidLimit(carryOverBuckets, unused, size))
      ensures |samples| == ValidLimit(carryOverBuckets, unused, size)
      ensures forall i :: 0 <= i < |samples| ==>
                samples[i] == BitsPerSecond(old(View()).standby.Cells(direction)[i], bucketTime)
                && Carries(samples[i], bucketTime, old(View()).standby.Cells(direction)[i])
    {
      samples := [];
      var state := (generation + 1) % 2;
      var cells := Buffer(state, direction);
      ghost var drained := cells[..];
      ghost var before := nicVec[..];
      var limit := ValidLimit(carryOverBuckets, unused, size);
      for i := 0 to limit
        invariant cells[..] == drained
        invariant View() == old(View())
        invariant nicVec[..] == Accumulate(before, drained, i)
        invariant |samples| == i && forall j :: 0 <= j < i ==> samples[j] == BitsPerSecond(drained[j], bucketTime)
      {
        nicVec[i] := nicVec[i] + cells[i];
        samples := samples + [BitsPerSecond(cells[i], bucketTime)];
      }
      ZeroOut(Buffer(state, Send));
      ZeroOut(Buffer(state, Recv));
    }
  }

  /** The bucket arithmetic of updateBwAndLatencyStats on one vector. */
  method AddToBuckets(cells: array<real>, bytes: real, elapsed: int, latency: nat, bucketTime: nat)
    requires bucketTime > 0 && cells.Length > 0
    modifies cells
    ensures cells[..] == AddBytes(old(cells[..]), bytes, elapsed, latency, bucketTime)
  {
    var size := cells.Length;
    ghost var before := cells[..];
    var from := StartIndex(elapsed, latency, bucketTime);
    var to := EndIndex(elapsed, bucketTime, size);
    if from >= to {
      cells[size - 1] := cells[size - 1] + bytes;
      assert cells[..] == before[size - 1 := before[size - 1] + bytes];
    } else {
      SpreadOver(cells, bytes, from, to);
    }
  }

  method SpreadOver(cells: array<real>, bytes: real, from: nat, to: nat)
    requires from < to <= cells.Length
    modifies cells
    ensures cells[..] == Spread(old(cells[..]), bytes, from, to)
  {
    ghost var before := cells[..];
    var bytesPerBucket := bytes / ((to - from) as real);
    for i := from to to
      invariant forall j :: 0 <= j < from || i <= j < cells.Length ==> cells[j] == before[j]
      invariant forall j :: from <= j < i ==> cells[j] == before[j] + bytesPerBucket
    {
      cells[i] := cells[i] + bytesPerBucket;
    }
  }

  method CopyCarryOver(source: array<real>, target: array<real>, limit: nat, carryOver: nat)
    requires source != target && limit + carryOver <= source.Length && carryOver <= target.Length
    modifies target
    ensures target[..] == CarryOver(source[..], old(target[..]), limit, carryOver)
  {
    ghost var before := target[..];
    for i := 0 to carryOver
      invariant forall j :: 0 <= j < i ==> target[j] == source[limit + j]
      invariant forall j :: i <= j < target.Length ==> target[j] == before[j]
    {
      target[i] := source[i + limit];
    }
  }

  method ZeroOut(cells: array<real>)
    modifies cells
    ensures cells[..] == Zeros(cells.Length)
  {
    for i := 0 to cells.Length
      invariant forall j :: 0 <= j < i ==> cells[j] == 0.0
    {
      cells[i] := 0.0;
    }
  }
}
