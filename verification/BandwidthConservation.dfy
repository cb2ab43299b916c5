/** What every step of the interleaved system keeps: where each recorded Send byte is. */
module BandwidthConservation {
  import opened RealSums
  import opened BandwidthWindow
  import opened ConnectionBandwidth
  import opened MapTotals
  import opened NicAggregation
  import opened BandwidthRuns

  predicate Clean(c: Connection) {
    AllZero(c.standby.send) && AllZero(c.standby.recv)
  }

  /** Whether the reporter is not currently holding bytes in connection `i`'s standby copy. */
  predicate MustBeClean(phase: Phase, i: nat) {
    match phase
    case Idle => true
    case Shaping => true
    case Swapping(next, _, _) => i >= next
    case Aggregating(next, direction) => i < next || (i == next && direction.Recv?)
  }

  predicate CellsInv(cfg: Config, e: Endpoint)
    requires cfg.Valid() && OfSize(e.conn, cfg.size)
  {
    && CellsUpTo(e.conn.active.send, e.reach, cfg.CarryOverBuckets())
    && NonNegative(e.conn.standby.send)
    && (e.conn.active.start == 0 ==> e.reach == 0)
  }

  /** Recv cells never arrive at a NIC; Send cells only in the prefix handed on. */
  predicate NicInv(s: Sys, cells: NicCells)
    requires s.limit <= |cells.send|
  {
    && NonNegative(cells.send) && AllZero(cells.recv)
    && (if s.phase.Idle? || s.phase.Swapping? then AllZero(cells.send) else AllZero(cells.send[s.limit..]))
  }

  /** Bytes of an endpoint still to be handed on or carried. */
  function Held(e: Endpoint, limit: nat): real
    requires limit <= |e.conn.standby.send|
  {
    Sum(e.conn.active.send) + Sum(e.conn.standby.send[..limit])
  }

  function HeldSeq(cfg: Config, s: Sys): seq<real>
    requires WellFormed(cfg, s)
  {
    seq(|s.endpoints|, i requires 0 <= i < |s.endpoints| => Held(s.endpoints[i], s.limit))
  }

  function NicSend(nics: NicMap): map<Nic, real> {
    map k | k in nics :: Sum(nics[k].send)
  }

  /** Every recorded Send byte has been shaped, is in the carry, in a NIC vector, in a
      connection's buffers, or was lost at a swap. */
  ghost predicate Balanced(cfg: Config, s: Sys)
    requires WellFormed(cfg, s)
  {
    s.recorded == s.shaped + s.carry + Total(NicSend(s.nics)) + Sum(HeldSeq(cfg, s)) + s.lost
  }

  predicate EndpointsInv(cfg: Config, s: Sys)
    requires WellFormed(cfg, s)
  {
    forall i :: 0 <= i < |s.endpoints| ==>
      CellsInv(cfg, s.endpoints[i]) && (MustBeClean(s.phase, i) ==> Clean(s.endpoints[i].conn))
  }

  predicate NicsInv(cfg: Config, s: Sys)
    requires WellFormed(cfg, s)
  {
    forall k :: k in s.nics ==> NicInv(s, s.nics[k])
  }

  ghost predicate Inv(cfg: Config, s: Sys) {
    && WellFormed(cfg, s)
    && s.carry >= 0.0 && s.lost >= 0.0
    && (s.phase.Idle? ==> s.limit == 0)
    && EndpointsInv(cfg, s)
    && NicsInv(cfg, s)
    && Balanced(cfg, s)
  }

  // ---------- One endpoint at a time ----------

  /** Send cells with nothing negative, nothing from `reach` on except carried cells, and
      something just below `reach`. */
  predicate CellsUpTo(cells: seq<real>, reach: nat, carryOver: nat) {
    && NonNegative(cells)
    && reach <= |cells|
    && (forall j :: 0 <= j < |cells| && j >= reach && j >= carryOver ==> cells[j] == 0.0)
    && (reach > carryOver ==> cells[reach - 1] > 0.0)
  }

  lemma AddBytesKeepsCells(cells: seq<real>, reach: nat, carryOver: nat, bytes: real, elapsed: int,
                           latency: nat, bucketTime: nat)
    requires bucketTime > 0 && |cells| > 0 && bytes > 0.0 && CellsUpTo(cells, reach, carryOver)
    ensures var more := Reach(elapsed, latency, bucketTime, |cells|);
            CellsUpTo(AddBytes(cells, bytes, elapsed, latency, bucketTime),
                      if more > reach then more else reach, carryOver)
  {
    AddBytesReach(cells, bytes, elapsed, latency, bucketTime);
  }

  lemma MeasuredKeepsCells(cfg: Config, e: Endpoint, direction: Direction, bytes: nat, latency: nat, clock: int)
    requires cfg.Valid() && OfSize(e.conn, cfg.size) && CellsInv(cfg, e)
    ensures var t := Measured(cfg, e, direction, bytes, latency, clock);
            var accepted := direction.Send? && e.conn.active.start != 0;
            && OfSize(t.conn, cfg.size) && CellsInv(cfg, t)
            && t.conn.standby == e.conn.standby && t.nic == e.nic
            && t.conn.active.start == e.conn.active.start
            && Sum(t.conn.active.send) == Sum(e.conn.active.send) + if accepted then bytes as real else 0.0
  {
    var start := e.conn.active.start;
    if start != 0 {
      var cells := e.conn.active.Cells(direction);
      AddBytesSum(cells, bytes as real, clock - start, latency, cfg.bucketTime);
      if bytes == 0 {
        AddNothing(cells, clock - start, latency, cfg.bucketTime);
      } else if direction.Send? {
        AddBytesKeepsCells(cells, e.reach, cfg.CarryOverBuckets(), bytes as real, clock - start, latency,
                           cfg.bucketTime);
      }
    }
  }

  lemma AddNothing(cells: seq<real>, elapsed: int, latency: nat, bucketTime: nat)
    requires bucketTime > 0 && |cells| > 0
    ensures AddBytes(cells, 0.0, elapsed, latency, bucketTime) == cells
  {
  }

  lemma SwapKeepsCells(cfg: Config, e: Endpoint, start: int, limit: nat)
    requires cfg.Valid() && OfSize(e.conn, cfg.size) && CellsInv(cfg, e) && Clean(e.conn)
    requires limit + cfg.CarryOverBuckets() <= cfg.size
    ensures var k := cfg.CarryOverBuckets();
            var t := Endpoint(Swap(e.conn, start, limit, k), e.nic, 0, start);
            var tail := e.conn.active.send[limit + k..];
            && OfSize(t.conn, cfg.size) && CellsInv(cfg, t)
            && Held(t, limit) == Held(e, limit) - Sum(tail)
            && Sum(tail) >= 0.0
            && (Sum(tail) == 0.0 <==> e.reach <= limit + k)
  {
    var k := cfg.CarryOverBuckets();
    var tail := e.conn.active.send[limit + k..];
    SwapSum(e.conn.active.send, e.conn.standby.send, limit, k);
    SumAllZero(e.conn.standby.send[..limit]);
    SumNonNegative(tail);
    SumZeroIffAllZero(tail);
    if e.reach > limit + k {
      assert tail[e.reach - 1 - limit - k] > 0.0;
    }
  }

  lemma AccumulateKeepsNic(cells: seq<real>, standby: seq<real>, limit: nat)
    requires limit <= |cells| == |standby| && NonNegative(standby)
    requires NonNegative(cells) && AllZero(cells[limit..])
    ensures var fed := Accumulate(cells, standby, limit);
            && |fed| == |cells| && NonNegative(fed) && AllZero(fed[limit..])
            && Sum(fed) == Sum(cells) + Sum(standby[..limit])
  {
    AccumulateSum(cells, standby, limit);
    forall j | 0 <= j < |cells| - limit ensures Accumulate(cells, standby, limit)[limit..][j] == 0.0 {
      assert cells[limit..][j] == 0.0;
    }
  }

  // ---------- One step of the system at a time ----------

  lemma HeldUpdate(cfg: Config, s: Sys, t: Sys, i: nat)
    requires WellFormed(cfg, s) && WellFormed(cfg, t) && i < |s.endpoints|
    requires t.limit == s.limit
    requires |t.endpoints| == |s.endpoints| && t.endpoints == s.endpoints[i := t.endpoints[i]]
    ensures Sum(HeldSeq(cfg, t))
         == Sum(HeldSeq(cfg, s)) - Held(s.endpoints[i], s.limit) + Held(t.endpoints[i], s.limit)
  {
    assert HeldSeq(cfg, t) == HeldSeq(cfg, s)[i := Held(t.endpoints[i], s.limit)];
    SumUpdate(HeldSeq(cfg, s), i, Held(t.endpoints[i], s.limit));
  }

  lemma MeasurementKeepsInv(cfg: Config, s: Sys, step: Step)
    requires Inv(cfg, s) && Enabled(cfg, s, step) && step.Measurement?
    ensures Inv(cfg, Next(cfg, s, step)) && Next(cfg, s, step).lost == s.lost
  {
    var t := Next(cfg, s, step);
    MeasuredKeepsCells(cfg, s.endpoints[step.i], step.direction, step.bytes, step.latency, step.clock);
    HeldUpdate(cfg, s, t, step.i);
  }

  lemma BeginTickKeepsInv(cfg: Config, s: Sys, step: Step)
    requires Inv(cfg, s) && Enabled(cfg, s, step) && step.BeginTick?
    ensures Inv(cfg, Next(cfg, s, step)) && Next(cfg, s, step).lost == s.lost
  {
    var t := Next(cfg, s, step);
    assert forall i :: 0 <= i < |s.endpoints| ==> MustBeClean(s.phase, i);
    HeldWhenClean(cfg, s, t);
  }

  lemma SwapKeepsInv(cfg: Config, s: Sys)
    requires Inv(cfg, s) && Enabled(cfg, s, SwapNext)
    ensures Inv(cfg, Next(cfg, s, SwapNext))
    ensures Next(cfg, s, SwapNext).lost >= s.lost
    ensures Next(cfg, s, SwapNext).lost == s.lost
       <==> s.endpoints[s.phase.next].reach <= s.limit + cfg.CarryOverBuckets()
  {
    var t := Next(cfg, s, SwapNext);
    var i := s.phase.next;
    assert MustBeClean(s.phase, i);
    SwapKeepsCells(cfg, s.endpoints[i], s.start, s.limit);
    HeldUpdate(cfg, s, t, i);
    forall j | 0 <= j < |t.endpoints| && MustBeClean(t.phase, j) ensures Clean(t.endpoints[j].conn) {
      assert MustBeClean(s.phase, j);
    }
  }

  lemma AggregateKeepsEndpoints(cfg: Config, s: Sys)
    requires Inv(cfg, s) && Enabled(cfg, s, AggregateNext)
    ensures EndpointsInv(cfg, Next(cfg, s, AggregateNext))
    ensures var e := s.endpoints[s.phase.next];
            Held(Next(cfg, s, AggregateNext).endpoints[s.phase.next], s.limit)
            == Held(e, s.limit) - Sum(e.conn.standby.send[..s.limit])
  {
    var t := Next(cfg, s, AggregateNext);
    var i := s.phase.next;
    SumAllZero(t.endpoints[i].conn.standby.send[..s.limit]);
    forall j | 0 <= j < |t.endpoints| && MustBeClean(t.phase, j) ensures Clean(t.endpoints[j].conn) {
      assert j != i ==> MustBeClean(s.phase, j);
    }
  }

  lemma AggregateKeepsNics(cfg: Config, s: Sys)
    requires Inv(cfg, s) && Enabled(cfg, s, AggregateNext)
    ensures NicsInv(cfg, Next(cfg, s, AggregateNext))
  {
    var e := s.endpoints[s.phase.next];
    var cells := s.nics[e.nic];
    assert NicInv(s, cells);
    if s.phase.direction.Send? {
      AccumulateKeepsNic(cells.send, e.conn.standby.send, s.limit);
    }
  }

  lemma AggregateMovesTotal(cfg: Config, s: Sys)
    requires Inv(cfg, s) && Enabled(cfg, s, AggregateNext)
    ensures var e := s.endpoints[s.phase.next];
            Total(NicSend(Next(cfg, s, AggregateNext).nics))
            == Total(NicSend(s.nics)) + Sum(e.conn.standby.send[..s.limit])
  {
    var t := Next(cfg, s, AggregateNext);
    var e := s.endpoints[s.phase.next];
    var cells := s.nics[e.nic];
    assert NicInv(s, cells);
    if s.phase.direction.Send? {
      AccumulateKeepsNic(cells.send, e.conn.standby.send, s.limit);
    } else {
      assert MustBeClean(s.phase, s.phase.next);
      SumAllZero(e.conn.standby.send[..s.limit]);
    }
    assert NicSend(t.nics) == NicSend(s.nics)[e.nic := Sum(t.nics[e.nic].send)];
    TotalUpdate(NicSend(s.nics), e.nic, Sum(t.nics[e.nic].send));
  }

  lemma AggregateKeepsInv(cfg: Config, s: Sys)
    requires Inv(cfg, s) && Enabled(cfg, s, AggregateNext)
    ensures Inv(cfg, Next(cfg, s, AggregateNext)) && Next(cfg, s, AggregateNext).lost == s.lost
  {
    AggregateKeepsEndpoints(cfg, s);
    AggregateKeepsNics(cfg, s);
    AggregateMovesTotal(cfg, s);
    HeldUpdate(cfg, s, Next(cfg, s, AggregateNext), s.phase.next);
  }

  lemma PhaseDoneKeepsInv(cfg: Config, s: Sys)
    requires Inv(cfg, s) && Enabled(cfg, s, PhaseDone)
    ensures Inv(cfg, Next(cfg, s, PhaseDone)) && Next(cfg, s, PhaseDone).lost == s.lost
  {
    var t := Next(cfg, s, PhaseDone);
    assert HeldSeq(cfg, t) == HeldSeq(cfg, s);
    forall j | 0 <= j < |t.endpoints| && MustBeClean(t.phase, j) ensures Clean(t.endpoints[j].conn) {
      assert MustBeClean(s.phase, j);
    }
  }

  lemma ShapePassKeepsInv(cfg: Config, s: Sys, step: Step)
    requires Inv(cfg, s) && Enabled(cfg, s, step) && step.ShapePass?
    ensures Inv(cfg, Next(cfg, s, step)) && Next(cfg, s, step).lost == s.lost
  {
    var t := Next(cfg, s, step);
    ProcessedIsAll(cfg, s);
    forall k | k in s.nics ensures NonNegative(s.nics[k].send) && NonNegative(s.nics[k].recv) {
      assert NicInv(s, s.nics[k]);
    }
    PassConserves(s.nics, step.order, s.limit, cfg.size, s.carry, cfg.cap);
    SumAllZero(Zeros(cfg.size));
    TotalAllZero(NicSend(t.nics));
    HeldWhenClean(cfg, s, t);
  }

  /** With every standby copy clean, the held bytes do not depend on the prefix. */
  lemma HeldWhenClean(cfg: Config, s: Sys, t: Sys)
    requires WellFormed(cfg, s) && WellFormed(cfg, t) && s.endpoints == t.endpoints
    requires forall i :: 0 <= i < |s.endpoints| ==> Clean(s.endpoints[i].conn)
    ensures HeldSeq(cfg, t) == HeldSeq(cfg, s)
  {
    forall i | 0 <= i < |s.endpoints|
      ensures Held(s.endpoints[i], t.limit) == Held(s.endpoints[i], s.limit)
    {
      var standby := s.endpoints[i].conn.standby.send;
      SumAllZero(standby[..t.limit]);
      SumAllZero(standby[..s.limit]);
    }
  }

  /** Before the pass the processed prefixes hold all the NIC vectors' bytes. */
  lemma ProcessedIsAll(cfg: Config, s: Sys)
    requires Inv(cfg, s) && s.phase.Shaping?
    ensures ProcessedMap(s.nics, s.nics.Keys, s.limit, cfg.size) == NicSend(s.nics)
  {
    forall k | k in s.nics ensures Processed(s.nics[k], s.limit) == Sum(s.nics[k].send) {
      assert NicInv(s, s.nics[k]);
      ClearingDiscardsOnlyZeros(s.nics[k], s.limit);
      SumAllZero(s.nics[k].recv);
    }
  }

  lemma StepKeepsInv(cfg: Config, s: Sys, step: Step)
    requires Inv(cfg, s) && Enabled(cfg, s, step)
    ensures Inv(cfg, Next(cfg, s, step))
    ensures Next(cfg, s, step).lost >= s.lost
    ensures Next(cfg, s, step).lost == s.lost <==> SwapKeeps(cfg, s, step)
  {
    match step
    case Measurement(_, _, _, _, _) => MeasurementKeepsInv(cfg, s, step);
    case BeginTick(_) => BeginTickKeepsInv(cfg, s, step);
    case SwapNext => SwapKeepsInv(cfg, s);
    case AggregateNext => AggregateKeepsInv(cfg, s);
    case PhaseDone => PhaseDoneKeepsInv(cfg, s);
    case ShapePass(_) => ShapePassKeepsInv(cfg, s, step);
  }

  lemma InitInv(cfg: Config, homes: seq<Nic>)
    requires cfg.Valid()
    ensures Inv(cfg, Init(cfg, homes))
  {
    var s := Init(cfg, homes);
    SumAllZero(Zeros(cfg.size));
    SumAllZero(Zeros(cfg.size)[..0]);
    TotalAllZero(NicSend(s.nics));
    forall i | 0 <= i < |s.endpoints|
      ensures CellsInv(cfg, s.endpoints[i]) && Clean(s.endpoints[i].conn) && Held(s.endpoints[i], 0) == 0.0
    {
      assert s.endpoints[i] == Endpoint(EmptyConnection(cfg.size), homes[i], 0, 0);
    }
    SumAllZero(HeldSeq(cfg, s));
  }

  // ---------- Whole runs ----------

  /** The generation closed by this swap was reached by no measurement beyond the carried
      buckets. */
  ghost predicate SwapKeeps(cfg: Config, s: Sys, step: Step)
    requires WellFormed(cfg, s) && Enabled(cfg, s, step)
  {
    step.SwapNext? ==> s.endpoints[s.phase.next].reach <= s.limit + cfg.CarryOverBuckets()
  }

  ghost predicate EverySwapKeeps(cfg: Config, s: Sys, steps: seq<Step>)
    requires WellFormed(cfg, s) && Executable(cfg, s, steps)
    decreases |steps|
  {
    steps == [] || (SwapKeeps(cfg, s, steps[0]) && EverySwapKeeps(cfg, Next(cfg, s, steps[0]), steps[1..]))
  }

  lemma {:induction false} RunKeepsInv(cfg: Config, s: Sys, steps: seq<Step>)
    requires Inv(cfg, s) && Executable(cfg, s, steps)
    ensures Inv(cfg, Run(cfg, s, steps))
    ensures Run(cfg, s, steps).lost >= s.lost
    ensures Run(cfg, s, steps).lost == s.lost <==> EverySwapKeeps(cfg, s, steps)
    decreases |steps|
  {
    if steps == [] {
    } else {
      StepKeepsInv(cfg, s, steps[0]);
      RunKeepsInv(cfg, Next(cfg, s, steps[0]), steps[1..]);
    }
  }

  /** Conservation over every interleaved run. The recorded Send bytes are exactly the
      shaped bytes, the shared carry, the NIC vectors, the connections' buffers and the
      lost bytes; and nothing was lost iff no closed generation had been reached beyond its
      carried buckets. */
  lemma SendBytesConserved(cfg: Config, homes: seq<Nic>, steps: seq<Step>)
    requires cfg.Valid() && Executable(cfg, Init(cfg, homes), steps)
    ensures var t := Run(cfg, Init(cfg, homes), steps);
            && t.recorded == t.shaped + t.carry + Total(NicSend(t.nics)) + Sum(HeldSeq(cfg, t)) + t.lost
            && t.carry >= 0.0 && t.lost >= 0.0
            && (t.lost == 0.0 <==> EverySwapKeeps(cfg, Init(cfg, homes), steps))
  {
    InitInv(cfg, homes);
    RunKeepsInv(cfg, Init(cfg, homes), steps);
  }

  /** The copy a connection swaps in is all zero beforehand, in every run. */
  lemma {:induction false} SwappedInCopyIsZero(cfg: Config, homes: seq<Nic>, steps: seq<Step>)
    requires cfg.Valid() && Executable(cfg, Init(cfg, homes), steps)
    ensures var t := Run(cfg, Init(cfg, homes), steps);
            Enabled(cfg, t, SwapNext) ==> Clean(t.endpoints[t.phase.next].conn)
  {
    InitInv(cfg, homes);
    RunKeepsInv(cfg, Init(cfg, homes), steps);
    var t := Run(cfg, Init(cfg, homes), steps);
    if Enabled(cfg, t, SwapNext) {
      assert MustBeClean(t.phase, t.phase.next);
    }
  }

  /** Each tick drains both directions after the Send pass, so in no run does a Recv byte
      of a connection reach a NIC vector. */
  lemma RecvBytesNeverReachNic(cfg: Config, homes: seq<Nic>, steps: seq<Step>, k: Nic)
    requires cfg.Valid() && Executable(cfg, Init(cfg, homes), steps)
    requires k in Run(cfg, Init(cfg, homes), steps).nics
    ensures AllZero(Run(cfg, Init(cfg, homes), steps).nics[k].recv)
  {
    InitInv(cfg, homes);
    RunKeepsInv(cfg, Init(cfg, homes), steps);
  }
}
