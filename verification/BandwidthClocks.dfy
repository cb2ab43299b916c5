/** When no Send byte is lost, in terms of the clock readings alone: every measurement's
    clock lies between the start time of its generation and the clock of the tick that
    closes it (src/nccl_stats_aggregator.cc). */
module BandwidthClocks {
  import opened RealSums
  import opened Arithmetic
  import opened BandwidthWindow
  import opened ConnectionBandwidth
  import opened MapTotals
  import opened NicAggregation
  import opened BandwidthRuns
  import opened BandwidthConservation

  /** Send measurements are not sampled before their generation's start, and a generation is
      not closed by a tick that read its clock before one of its measurements did. */
  ghost predicate InWindow(cfg: Config, s: Sys, step: Step)
    requires WellFormed(cfg, s) && Enabled(cfg, s, step)
  {
    match step
    case Measurement(i, direction, bytes, _, clock) =>
      direction.Send? && bytes > 0 ==> clock >= s.endpoints[i].conn.active.start
    case SwapNext => s.endpoints[s.phase.next].latest <= s.phase.now
    case _ => true
  }

  ghost predicate AllInWindow(cfg: Config, s: Sys, steps: seq<Step>)
    requires WellFormed(cfg, s) && Executable(cfg, s, steps)
    decreases |steps|
  {
    steps == [] || (InWindow(cfg, s, steps[0]) && AllInWindow(cfg, Next(cfg, s, steps[0]), steps[1..]))
  }

  /** All connections agree on the start time, except those still to be swapped. */
  function StartOf(s: Sys, i: nat): int {
    if s.phase.Swapping? && i >= s.phase.next then s.phase.oldStart else s.start
  }

  predicate ReachInv(cfg: Config, e: Endpoint)
    requires cfg.Valid()
  {
    var start := e.conn.active.start;
    if start == 0 then e.reach == 0
    else
      && start <= e.latest && e.latest - start < TWO_63
      && e.reach <= Reach(e.latest - start, 0, cfg.bucketTime, cfg.size)
  }

  predicate ClockInv(cfg: Config, s: Sys)
    requires WellFormed(cfg, s)
  {
    && (forall i :: 0 <= i < |s.endpoints| ==>
          s.endpoints[i].conn.active.start == StartOf(s, i) && ReachInv(cfg, s.endpoints[i]))
    && (s.phase.Swapping? ==>
          && s.phase.oldStart <= s.phase.now
          && s.limit == ValidLimit(cfg.CarryOverBuckets(),
                                   UnusedBuckets(s.phase.oldStart, s.phase.now, cfg.bucketTime, cfg.size),
                                   cfg.size))
  }

  lemma ReachMonotone(cfg: Config, x: int, y: int, latency: nat)
    requires cfg.Valid() && 0 <= x <= y < TWO_63
    ensures Reach(x, latency, cfg.bucketTime, cfg.size) <= Reach(y, 0, cfg.bucketTime, cfg.size)
  {
    ReachCases(x, latency, cfg.bucketTime, cfg.size);
    ReachCases(y, 0, cfg.bucketTime, cfg.size);
    DivMonotone(x, y, cfg.bucketTime);
  }

  lemma MeasuredKeepsReach(cfg: Config, e: Endpoint, direction: Direction, bytes: nat, latency: nat, clock: int)
    requires cfg.Valid() && OfSize(e.conn, cfg.size) && ReachInv(cfg, e)
    requires -TWO_63 <= clock - e.conn.active.start < TWO_63
    requires direction.Send? && bytes > 0 ==> clock >= e.conn.active.start
    ensures ReachInv(cfg, Measured(cfg, e, direction, bytes, latency, clock))
  {
    var start := e.conn.active.start;
    if direction.Send? && bytes > 0 && start != 0 {
      var latest := if clock > e.latest then clock else e.latest;
      ReachMonotone(cfg, e.latest - start, latest - start, 0);
      ReachMonotone(cfg, clock - start, latest - start, latency);
    }
  }

  lemma StepKeepsClockInv(cfg: Config, s: Sys, step: Step)
    requires WellFormed(cfg, s) && ClockInv(cfg, s) && Enabled(cfg, s, step) && InWindow(cfg, s, step)
    ensures ClockInv(cfg, Next(cfg, s, step))
    ensures SwapKeeps(cfg, s, step)
  {
    match step
    case Measurement(i, direction, bytes, latency, clock) =>
      MeasuredKeepsReach(cfg, s.endpoints[i], direction, bytes, latency, clock);
    case SwapNext =>
      var e := s.endpoints[s.phase.next];
      if e.conn.active.start != 0 {
        InWindowReach(s.phase.oldStart, e.latest, s.phase.now, 0, cfg.bucketTime,
                      cfg.CarryOverBuckets(), cfg.size);
      }
    case _ =>
  }

  lemma {:induction false} WindowedRunKeeps(cfg: Config, s: Sys, steps: seq<Step>)
    requires WellFormed(cfg, s) && ClockInv(cfg, s) && Executable(cfg, s, steps) && AllInWindow(cfg, s, steps)
    ensures EverySwapKeeps(cfg, s, steps)
    decreases |steps|
  {
    if steps == [] {
    } else {
      StepKeepsClockInv(cfg, s, steps[0]);
      WindowedRunKeeps(cfg, Next(cfg, s, steps[0]), steps[1..]);
    }
  }

  /** With all clock readings in their windows, every recorded Send byte has been shaped or
      is still in the carry, a NIC vector or a connection's buffers. */
  lemma {:induction false} NothingLostInWindow(cfg: Config, homes: seq<Nic>, steps: seq<Step>)
    requires cfg.Valid() && Executable(cfg, Init(cfg, homes), steps)
    requires AllInWindow(cfg, Init(cfg, homes), steps)
    ensures var t := Run(cfg, Init(cfg, homes), steps);
            t.recorded == t.shaped + t.carry + Total(NicSend(t.nics)) + Sum(HeldSeq(cfg, t))
  {
    var s := Init(cfg, homes);
    assert ClockInv(cfg, s) by {
      forall i | 0 <= i < |s.endpoints| ensures s.endpoints[i].conn == EmptyConnection(cfg.size) {
        assert s.endpoints[i] == Endpoint(EmptyConnection(cfg.size), homes[i], 0, 0);
      }
      assert forall i :: 0 <= i < |s.endpoints| ==> s.endpoints[i].reach == 0;
    }
    WindowedRunKeeps(cfg, s, steps);
    SendBytesConserved(cfg, homes, steps);
  }

  // ---------- The window is needed ----------

  const RACE_CONFIG: Config := Config(1, 2, 0, 10.0)
  const RACE_NIC: Nic := Nic("10.0.0.1")

  /** A writer reads clock 3 and is overtaken by a tick at clock 5 before it takes the
      connection's lock. Its bytes land in the last bucket of the new generation, which the
      next tick clears without having read it. */
  const RACE: seq<Step> :=
    [BeginTick(5), SwapNext, PhaseDone, AggregateNext, AggregateNext, PhaseDone, ShapePass([RACE_NIC]),
     Measurement(0, Send, 1, 0, 3), BeginTick(5), SwapNext]

  /** `s` is the state of the race after its first `k` steps. */
  ghost predicate RaceAt(k: nat, s: Sys)
    requires k <= |RACE|
  {
    var s0 := Init(RACE_CONFIG, [RACE_NIC]);
    Executable(RACE_CONFIG, s0, RACE[..k]) && s == Run(RACE_CONFIG, s0, RACE[..k])
  }

  lemma RaceStep(k: nat, s: Sys) returns (t: Sys)
    requires k < |RACE| && WellFormed(RACE_CONFIG, s) && RaceAt(k, s) && Enabled(RACE_CONFIG, s, RACE[k])
    ensures RaceAt(k + 1, t) && WellFormed(RACE_CONFIG, t) && t == Next(RACE_CONFIG, s, RACE[k])
    ensures EverySwapKeeps(RACE_CONFIG, Init(RACE_CONFIG, [RACE_NIC]), RACE[..k + 1])
        ==> SwapKeeps(RACE_CONFIG, s, RACE[k])
  {
    RunSnoc(RACE_CONFIG, Init(RACE_CONFIG, [RACE_NIC]), RACE[..k], RACE[k]);
    assert RACE[..k + 1] == RACE[..k] + [RACE[k]];
    t := Next(RACE_CONFIG, s, RACE[k]);
  }

  lemma {:induction false} RunSnoc(cfg: Config, s: Sys, steps: seq<Step>, last: Step)
    requires WellFormed(cfg, s) && Executable(cfg, s, steps) && Enabled(cfg, Run(cfg, s, steps), last)
    ensures Executable(cfg, s, steps + [last])
    ensures Run(cfg, s, steps + [last]) == Next(cfg, Run(cfg, s, steps), last)
    ensures EverySwapKeeps(cfg, s, steps + [last]) ==> SwapKeeps(cfg, Run(cfg, s, steps), last)
    decreases |steps|
  {
    if steps == [] {
      assert (steps + [last])[1..] == [];
    } else {
      assert (steps + [last])[1..] == steps[1..] + [last];
      RunSnoc(cfg, Next(cfg, s, steps[0]), steps[1..], last);
    }
  }

  lemma RaceSwapped() returns (s: Sys)
    ensures RaceAt(3, s) && WellFormed(RACE_CONFIG, s)
    ensures s.phase == Aggregating(0, Send) && s.start == 5 && |s.endpoints| == 1 && s.nics.Keys == {RACE_NIC}
    ensures s.endpoints[0].conn.active.start == 5 && s.endpoints[0].reach == 0
  {
    s := Init(RACE_CONFIG, [RACE_NIC]);
    assert s.endpoints[0] == Endpoint(EmptyConnection(2), RACE_NIC, 0, 0);
    s := RaceStep(0, s);
    s := RaceStep(1, s);
    s := RaceStep(2, s);
  }

  lemma RaceAggregated() returns (s: Sys)
    ensures RaceAt(5, s) && WellFormed(RACE_CONFIG, s)
    ensures s.phase == Aggregating(1, Send) && s.start == 5 && |s.endpoints| == 1 && s.nics.Keys == {RACE_NIC}
    ensures s.endpoints[0].conn.active.start == 5 && s.endpoints[0].reach == 0
  {
    s := RaceSwapped();
    s := RaceStep(3, s);
    s := RaceStep(4, s);
  }

  lemma RaceFirstTick() returns (s: Sys)
    ensures RaceAt(7, s) && WellFormed(RACE_CONFIG, s)
    ensures s.phase == Idle && s.start == 5 && |s.endpoints| == 1
    ensures s.endpoints[0].conn.active.start == 5 && s.endpoints[0].reach == 0
  {
    s := RaceAggregated();
    s := RaceStep(5, s);
    s := RaceStep(6, s);
  }

  /** The race is a run of the system, and it loses a recorded Send byte. */
  lemma RaceLosesBytes()
    ensures Executable(RACE_CONFIG, Init(RACE_CONFIG, [RACE_NIC]), RACE)
    ensures Run(RACE_CONFIG, Init(RACE_CONFIG, [RACE_NIC]), RACE).lost > 0.0
  {
    var s := RaceFirstTick();
    s := RaceStep(7, s);
    assert s.endpoints[0].reach == 2;
    s := RaceStep(8, s);
    assert s.limit == 1;
    s := RaceStep(9, s);
    assert RACE[..10] == RACE;
    SendBytesConserved(RACE_CONFIG, [RACE_NIC], RACE);
  }
}
