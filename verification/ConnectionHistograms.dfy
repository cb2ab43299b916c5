/** The histogram part of one connection as the object the threads call
    (src/nccl_stats_aggregator.cc, src/nccl_stats_aggregator.h), and how its calls are made of
    the steps of HistogramGenerations. */
module ConnectionHistograms {
  import opened HistogramGenerations

  function AddAll(c: Content, samples: seq<Sample>): (r: Content)
    requires forall i :: 0 <= i < |samples| ==> samples[i].dist < |c|
    ensures |r| == |c|
    decreases |samples|
  {
    if samples == [] then c else AddAll(Add(c, samples[0]), samples[1..])
  }

  predicate AllKnown(op: OpType, latencies: seq<(LatencyType, nat)>) {
    forall i :: 0 <= i < |latencies| ==> LatencyDist(op, latencies[i].0).Some?
  }

  // ---------- Which histogram gets what ----------

  /** The latencies before the first one of a type that is not in `known`. */
  function UpToUnknown(latencies: seq<(LatencyType, nat)>, known: set<LatencyType>): seq<(LatencyType, nat)> {
    if latencies == [] || latencies[0].0 !in known then [] else [latencies[0]] + UpToUnknown(latencies[1..], known)
  }

  /** The latencies of one type, in order. */
  function OfType(latencyType: LatencyType, latencies: seq<(LatencyType, nat)>): seq<nat> {
    if latencies == [] then []
    else (if latencies[0].0 == latencyType then [latencies[0].1] else []) + OfType(latencyType, latencies[1..])
  }

  function KnownTypes(op: OpType): set<LatencyType> {
    match op
    case ChunkSend => {Software, NetHW}
    case ChunkRecv => {Software, NetHW, RecvReady}
    case OtherOp => {}
  }

  function Taken(op: Operation): seq<(LatencyType, nat)> {
    UpToUnknown(op.latencies, KnownTypes(op.opType))
  }

  /** What one operation adds to a histogram: 0 and 1 are the software latencies of sends and
      receives, 2 and 3 their hardware latencies, 4 those of receives until ready, 5 and 6 the sizes. */
  function Gained(op: Operation, dist: nat): seq<nat> {
    match (op.opType, dist)
    case (ChunkSend, 0) => OfType(Software, Taken(op))
    case (ChunkSend, 2) => OfType(NetHW, Taken(op))
    case (ChunkSend, 5) => [op.size]
    case (ChunkRecv, 1) => OfType(Software, Taken(op))
    case (ChunkRecv, 3) => OfType(NetHW, Taken(op))
    case (ChunkRecv, 4) => OfType(RecvReady, Taken(op))
    case (ChunkRecv, 6) => [op.size]
    case _ => []
  }

  predicate Filled(before: Content, op: Operation, after: Content) {
    |before| == |after| == 11 && forall d :: 0 <= d < 11 ==> after[d] == before[d] + Gained(op, d)
  }

  function ValuesFor(dist: nat, samples: seq<Sample>): seq<nat> {
    if samples == [] then []
    else (if samples[0].dist == dist then [samples[0].value] else []) + ValuesFor(dist, samples[1..])
  }

  lemma {:induction false} AddAllAt(c: Content, samples: seq<Sample>, dist: nat)
    requires dist < |c| && forall i :: 0 <= i < |samples| ==> samples[i].dist < |c|
    ensures AddAll(c, samples)[dist] == c[dist] + ValuesFor(dist, samples)
    decreases |samples|
  {
    if samples == [] {
    } else {
      AddAllAt(Add(c, samples[0]), samples[1..], dist);
      var first := if samples[0].dist == dist then [samples[0].value] else [];
      assert (c[dist] + first) + ValuesFor(dist, samples[1..]) == c[dist] + (first + ValuesFor(dist, samples[1..]));
    }
  }

  lemma ValuesForFirst(dist: nat, first: Sample, rest: seq<Sample>)
    ensures ValuesFor(dist, [first] + rest)
         == (if first.dist == dist then [first.value] else []) + ValuesFor(dist, rest)
  {
    assert ([first] + rest)[1..] == rest;
  }

  lemma {:induction false} SendLatencies(latencies: seq<(LatencyType, nat)>, dist: nat)
    ensures ValuesFor(dist, LatencySamples(ChunkSend, latencies))
         == var taken := UpToUnknown(latencies, {Software, NetHW});
            if dist == 0 then OfType(Software, taken) else if dist == 2 then OfType(NetHW, taken) else []
  {
    if latencies != [] && latencies[0].0 in {Software, NetHW} {
      SendLatencies(latencies[1..], dist);
      var first := Sample(if latencies[0].0.Software? then 0 else 2, latencies[0].1);
      assert LatencySamples(ChunkSend, latencies) == [first] + LatencySamples(ChunkSend, latencies[1..]);
      ValuesForFirst(dist, first, LatencySamples(ChunkSend, latencies[1..]));
      TakenFirst(latencies, {Software, NetHW}, Software);
      TakenFirst(latencies, {Software, NetHW}, NetHW);
    }
  }

  lemma {:induction false} RecvLatencies(latencies: seq<(LatencyType, nat)>, dist: nat)
    ensures ValuesFor(dist, LatencySamples(ChunkRecv, latencies))
         == var taken := UpToUnknown(latencies, {Software, NetHW, RecvReady});
            if dist == 1 then OfType(Software, taken) else if dist == 3 then OfType(NetHW, taken)
            else if dist == 4 then OfType(RecvReady, taken) else []
  {
    if latencies != [] && latencies[0].0 in {Software, NetHW, RecvReady} {
      RecvLatencies(latencies[1..], dist);
      var index := if latencies[0].0.Software? then 1 else if latencies[0].0.NetHW? then 3 else 4;
      var first := Sample(index, latencies[0].1);
      assert LatencySamples(ChunkRecv, latencies) == [first] + LatencySamples(ChunkRecv, latencies[1..]);
      ValuesForFirst(dist, first, LatencySamples(ChunkRecv, latencies[1..]));
      TakenFirst(latencies, {Software, NetHW, RecvReady}, Software);
      TakenFirst(latencies, {Software, NetHW, RecvReady}, NetHW);
      TakenFirst(latencies, {Software, NetHW, RecvReady}, RecvReady);
    }
  }

  lemma TakenFirst(latencies: seq<(LatencyType, nat)>, known: set<LatencyType>, t: LatencyType)
    requires latencies != [] && latencies[0].0 in known
    ensures OfType(t, UpToUnknown(latencies, known))
         == (if latencies[0].0 == t then [latencies[0].1] else []) + OfType(t, UpToUnknown(latencies[1..], known))
  {
    var rest := UpToUnknown(latencies[1..], known);
    assert ([latencies[0]] + rest)[1..] == rest;
  }

  lemma GainedIsSubmitted(op: Operation, dist: nat)
    ensures ValuesFor(dist, Submissions(op)) == Gained(op, dist)
  {
    if op.opType != OtherOp {
      ValuesForFirst(dist, Sample(if op.opType.ChunkSend? then 5 else 6, op.size),
                     LatencySamples(op.opType, op.latencies));
      SendLatencies(op.latencies, dist);
      RecvLatencies(op.latencies, dist);
    }
  }

  /** Every operation fills exactly the histograms of its own kind. */
  lemma SubmissionsFill(c: Content, op: Operation)
    requires |c| == TOTAL_TYPES
    ensures Filled(c, op, AddAll(c, Submissions(op)))
  {
    forall d | 0 <= d < 11 ensures AddAll(c, Submissions(op))[d] == c[d] + Gained(op, d) {
      AddAllAt(c, Submissions(op), d);
      GainedIsSubmitted(op, d);
    }
  }

  lemma {:induction false} TakenIff(op: OpType, latencies: seq<(LatencyType, nat)>)
    ensures AllKnown(op, latencies) <==> UpToUnknown(latencies, KnownTypes(op)) == latencies
  {
    if latencies == [] {
    } else {
      TakenIff(op, latencies[1..]);
      assert latencies == [latencies[0]] + latencies[1..];
      var taken := UpToUnknown(latencies, KnownTypes(op));
      if taken == latencies {
        assert taken[1..] == UpToUnknown(latencies[1..], KnownTypes(op));
        assert forall i :: 1 <= i < |latencies| ==> latencies[i] == latencies[1..][i - 1];
      }
      if AllKnown(op, latencies) {
        assert forall i :: 0 <= i < |latencies[1..]| ==> latencies[1..][i] == latencies[i + 1];
      }
    }
  }

  /** Nothing about the operation is unknown. */
  predicate Succeeds(op: Operation) {
    op.opType != OtherOp && Taken(op) == op.latencies
  }

  lemma NotifyMeans(c: Content, op: Operation)
    requires |c| == TOTAL_TYPES
    ensures Filled(c, op, AddAll(c, Submissions(op)))
    ensures Succeeds(op) <==> SizeType(op.opType).Some? && AllKnown(op.opType, op.latencies)
  {
    SubmissionsFill(c, op);
    TakenIff(op.opType, op.latencies);
  }

  class NcclStatsConnectionStatistics {
    var generation: nat
    var distributionMap: seq<Content>

    predicate Valid()
      reads this
    {
      |distributionMap| == 2 && |distributionMap[0]| == |distributionMap[1]| == TOTAL_TYPES
    }

    constructor ()
      ensures Valid() && generation == 0 && distributionMap == [Empty(), Empty()]
    {
      generation, distributionMap := 0, [Empty(), Empty()];
    }

    method SubmitTo(idx: nat, sample: Sample)
      requires Valid() && idx < 2 && sample.dist < TOTAL_TYPES
      modifies this`distributionMap
      ensures Valid() && distributionMap == old(distributionMap)[idx := Add(old(distributionMap)[idx], sample)]
    {
      distributionMap := distributionMap[idx := Add(distributionMap[idx], sample)];
    }

    /** The loop over the latencies; an unknown type ends it. */
    method SubmitLatencies(idx: nat, op: Operation) returns (ok: bool)
      requires Valid() && idx < 2
      modifies this`distributionMap
      ensures Valid()
      ensures distributionMap
           == old(distributionMap)[idx := AddAll(old(distributionMap)[idx], LatencySamples(op.opType, op.latencies))]
      ensures ok <==> AllKnown(op.opType, op.latencies)
    {
      ghost var target := AddAll(distributionMap[idx], LatencySamples(op.opType, op.latencies));
      var i := 0;
      while i < |op.latencies|
        invariant i <= |op.latencies| && Valid() && AllKnown(op.opType, op.latencies[..i])
        invariant distributionMap == old(distributionMap)[idx := distributionMap[idx]]
        invariant AddAll(distributionMap[idx], LatencySamples(op.opType, op.latencies[i..])) == target
      {
        var dist := LatencyDist(op.opType, op.latencies[i].0);
        if dist.None? {
          return false;
        }
        SubmitTo(idx, Sample(dist.value, op.latencies[i].1));
        assert op.latencies[i..][1..] == op.latencies[i + 1..];
        i := i + 1;
      }
      ok := true;
    }

    /** An unknown latency type ends the call with an error; what came before it stays. */
    method NotifyOperationMeasurement(op: Operation) returns (ok: bool)
      requires Valid()
      modifies this`distributionMap
      ensures Valid()
      ensures var idx := generation % 2;
              distributionMap == old(distributionMap)[idx := AddAll(old(distributionMap)[idx], Submissions(op))]
      ensures Filled(old(distributionMap)[generation % 2], op, distributionMap[generation % 2])
      ensures ok <==> Succeeds(op)
    {
      var idx := generation % 2;
      NotifyMeans(distributionMap[idx], op);
      var sizeType := SizeType(op.opType);
      if sizeType.None? {
        return false;
      }
      SubmitTo(idx, Sample(sizeType.value, op.size));
      ok := SubmitLatencies(idx, op);
    }

    /** Swaps the generations, copies the retired histograms out, and resets them. */
    method ReadStatsFromLastInterval() returns (report: Content)
      requires Valid()
      modifies this
      ensures Valid() && generation == old(generation) + 1
      ensures report == old(distributionMap)[old(generation) % 2]
      ensures distributionMap == old(distributionMap)[old(generation) % 2 := Empty()]
    {
      var idx := generation % 2;
      generation := generation + 1;
      report := [];
      for k := 0 to TOTAL_TYPES
        invariant generation == old(generation) + 1 && distributionMap == old(distributionMap)
        invariant report == distributionMap[idx][..k]
      {
        report := report + [distributionMap[idx][k]];
      }
      assert report == old(distributionMap)[idx];
      for k := 0 to TOTAL_TYPES
        invariant generation == old(generation) + 1 && Valid()
        invariant distributionMap == old(distributionMap)[idx := distributionMap[idx]]
        invariant forall d :: 0 <= d < k ==> distributionMap[idx][d] == []
      {
        distributionMap := distributionMap[idx := distributionMap[idx][k := []]];
      }
      assert distributionMap[idx] == Empty();
    }
  }

  // ---------- The calls as runs of the state machine ----------

  function Repeat(step: Step, n: nat): seq<Step> {
    seq(n, _ => step)
  }

  predicate Leads(s: State, steps: seq<Step>, t: State)
    requires WellFormed(s)
  {
    Executable(s, steps) && Run(s, steps) == t
  }

  lemma LeadsStep(s: State, step: Step, rest: seq<Step>, t: State)
    requires WellFormed(s) && Enabled(s, step) && Leads(Next(s, step), rest, t)
    ensures Leads(s, [step] + rest, t)
  {
    assert ([step] + rest)[1..] == rest;
  }

  function WithCells(s: State, idx: nat, c: Content): State
    requires |s.cells| == 2 && idx < 2
  {
    s.(cells := s.cells[idx := c])
  }

  lemma {:induction false} SubmitsAll(s: State)
    requires WellFormed(s) && s.writer.Writing?
    ensures Leads(s, Repeat(WriterSubmit, |s.writer.todo|) + [Unlock],
                  WithCells(s, s.writer.idx, AddAll(s.cells[s.writer.idx], s.writer.todo)).(writer := Unlocked))
    decreases |s.writer.todo|
  {
    var n := |s.writer.todo|;
    if n == 0 {
      assert [Unlock][1..] == [];
      assert Repeat(WriterSubmit, 0) + [Unlock] == [Unlock];
    } else {
      var t := Next(s, WriterSubmit);
      SubmitsAll(t);
      var rest := Repeat(WriterSubmit, n - 1) + [Unlock];
      assert Repeat(WriterSubmit, n) + [Unlock] == [WriterSubmit] + rest;
      LeadsStep(s, WriterSubmit, rest, WithCells(t, t.writer.idx,
          AddAll(t.cells[t.writer.idx], t.writer.todo)).(writer := Unlocked));
    }
  }

  /** A call of NotifyOperationMeasurement is a run of writer steps with the same effect. */
  lemma NotifyIsARun(s: State, op: Operation)
    requires WellFormed(s) && s.writer.Unlocked?
    ensures var idx := s.generation % 2;
            Leads(s, [Lock(op)] + (Repeat(WriterSubmit, |Submissions(op)|) + [Unlock]),
                  WithCells(s, idx, AddAll(s.cells[idx], Submissions(op))))
  {
    var t := Next(s, Lock(op));
    SubmitsAll(t);
    LeadsStep(s, Lock(op), Repeat(WriterSubmit, |Submissions(op)|) + [Unlock],
              WithCells(s, t.writer.idx, AddAll(s.cells[t.writer.idx], Submissions(op))));
  }

  lemma {:induction false} ResetsAll(s: State)
    requires WellFormed(s) && s.reader.Resetting?
    requires forall d :: 0 <= d < s.reader.k ==> s.cells[s.reader.idx][d] == []
    ensures Leads(s, Repeat(ResetNext, TOTAL_TYPES - s.reader.k + 1),
        WithCells(s, s.reader.idx, Empty()).(reader := Idle))
    decreases TOTAL_TYPES - s.reader.k
  {
    var n := TOTAL_TYPES - s.reader.k;
    assert Repeat(ResetNext, n + 1) == [ResetNext] + Repeat(ResetNext, n);
    var t := Next(s, ResetNext);
    if n == 0 {
      assert s.cells[s.reader.idx] == Empty();
      assert Leads(t, [], t);
      LeadsStep(s, ResetNext, [], t);
    } else {
      ResetsAll(t);
      LeadsStep(s, ResetNext, Repeat(ResetNext, n), WithCells(t, t.reader.idx, Empty()).(reader := Idle));
    }
  }

  lemma {:induction false} ReadsAll(s: State)
    requires WellFormed(s) && s.reader.Reading?
    requires s.reader.report == s.cells[s.reader.idx][..|s.reader.report|]
    ensures Leads(s, Repeat(ReadNext, TOTAL_TYPES - |s.reader.report| + 1) + Repeat(ResetNext, TOTAL_TYPES + 1),
                  WithCells(s, s.reader.idx, Empty()).(reader := Idle, reports := s.reports + [s.cells[s.reader.idx]]))
    decreases TOTAL_TYPES - |s.reader.report|
  {
    var n := TOTAL_TYPES - |s.reader.report|;
    var resets := Repeat(ResetNext, TOTAL_TYPES + 1);
    assert Repeat(ReadNext, n + 1) + resets == [ReadNext] + (Repeat(ReadNext, n) + resets);
    var t := Next(s, ReadNext);
    var done := WithCells(s, s.reader.idx, Empty()).(reader := Idle, reports := s.reports + [s.cells[s.reader.idx]]);
    if n == 0 {
      assert Repeat(ReadNext, 0) + resets == resets;
      assert s.reader.report == s.cells[s.reader.idx];
      ResetsAll(t);
      LeadsStep(s, ReadNext, resets, done);
    } else {
      ReadsAll(t);
      LeadsStep(s, ReadNext, Repeat(ReadNext, n) + resets, done);
    }
  }

  /** A call of ReadStatsFromLastInterval is a run of reader steps with the same effect. */
  lemma ReadIsARun(s: State)
    requires WellFormed(s) && s.writer.Unlocked? && s.reader.Idle?
    ensures var idx := s.generation % 2;
            Leads(s, [ReaderSwap] + (Repeat(ReadNext, TOTAL_TYPES + 1) + Repeat(ResetNext, TOTAL_TYPES + 1)),
                  WithCells(s, idx, Empty()).(generation := s.generation + 1, reports := s.reports + [s.cells[idx]]))
  {
    var idx := s.generation % 2;
    ReadsAll(Next(s, ReaderSwap));
    LeadsStep(s, ReaderSwap, Repeat(ReadNext, TOTAL_TYPES + 1) + Repeat(ResetNext, TOTAL_TYPES + 1),
              WithCells(s, idx, Empty()).(generation := s.generation + 1, reports := s.reports + [s.cells[idx]]));
  }
}
