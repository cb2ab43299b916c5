/** What the clocks of the ticks alone say of a run: the start time of every generation, and how
    many buckets each tick hands on (src/nccl_stats_aggregator.cc). */
module BandwidthTicks {
  import opened RealSums
  import opened BandwidthWindow
  import opened ConnectionBandwidth
  import opened NicShaping
  import opened NicAggregation
  import opened BandwidthRuns

  /** The clock readings of the ticks begun, in order. */
  function Ticks(steps: seq<Step>): seq<int>
    decreases |steps|
  {
    if steps == [] then [] else (if steps[0].BeginTick? then [steps[0].now] else []) + Ticks(steps[1..])
  }

  /** The start time set by the `k`-th last of these ticks, the sentinel if there were fewer. */
  function StartSet(cfg: Config, clocks: seq<int>, k: nat): int
    requires k > 0
  {
    if k > |clocks| then 0 else clocks[|clocks| - k] - cfg.maxLatency
  }

  /** Connections the current tick has not reached yet are still in the generation before. */
  predicate StartsAreSet(cfg: Config, s: Sys, clocks: seq<int>) {
    && s.start == StartSet(cfg, clocks, 1)
    && forall i :: 0 <= i < |s.endpoints| ==>
         s.endpoints[i].conn.active.start
         == StartSet(cfg, clocks, if s.phase.Swapping? && i >= s.phase.next then 2 else 1)
  }

  lemma StepSetsStarts(cfg: Config, s: Sys, step: Step, clocks: seq<int>)
    requires WellFormed(cfg, s) && Enabled(cfg, s, step) && StartsAreSet(cfg, s, clocks)
    ensures StartsAreSet(cfg, Next(cfg, s, step), clocks + if step.BeginTick? then [step.now] else [])
  {
    var t, later := Next(cfg, s, step), clocks + if step.BeginTick? then [step.now] else [];
    if step.BeginTick? {
      assert StartSet(cfg, later, 1) == step.now - cfg.maxLatency;
      assert StartSet(cfg, later, 2) == StartSet(cfg, clocks, 1);
    } else {
      assert later == clocks;
    }
  }

  lemma {:induction false} RunSetsStarts(cfg: Config, s: Sys, steps: seq<Step>, clocks: seq<int>)
    requires WellFormed(cfg, s) && Executable(cfg, s, steps) && StartsAreSet(cfg, s, clocks)
    ensures StartsAreSet(cfg, Run(cfg, s, steps), clocks + Ticks(steps))
    decreases |steps|
  {
    if steps == [] {
      assert clocks + [] == clocks;
    } else {
      var now := if steps[0].BeginTick? then [steps[0].now] else [];
      StepSetsStarts(cfg, s, steps[0], clocks);
      RunSetsStarts(cfg, Next(cfg, s, steps[0]), steps[1..], clocks + now);
      assert (clocks + now) + Ticks(steps[1..]) == clocks + (now + Ticks(steps[1..]));
    }
  }

  lemma InitSetsStarts(cfg: Config, homes: seq<Nic>)
    requires cfg.Valid()
    ensures StartsAreSet(cfg, Init(cfg, homes), [])
  {
    var s := Init(cfg, homes);
    forall i | 0 <= i < |s.endpoints| ensures s.endpoints[i].conn.active.start == 0 {
      assert s.endpoints[i] == Endpoint(EmptyConnection(cfg.size), homes[i], 0, 0);
    }
  }

  /** After every run with some tick: the generation of each connection the last tick has swapped began
      the maximal latency before that tick, and of one it has yet to swap, before the tick before. */
  lemma TicksSetStarts(cfg: Config, homes: seq<Nic>, steps: seq<Step>, i: nat)
    requires cfg.Valid() && Executable(cfg, Init(cfg, homes), steps) && Ticks(steps) != []
    ensures var s, clocks := Run(cfg, Init(cfg, homes), steps), Ticks(steps);
            && s.start == clocks[|clocks| - 1] - cfg.maxLatency
            && (i < |s.endpoints| ==>
                  s.endpoints[i].conn.active.start
                  == if !s.phase.Swapping? || i < s.phase.next then clocks[|clocks| - 1] - cfg.maxLatency
                     else if |clocks| > 1 then clocks[|clocks| - 2] - cfg.maxLatency else 0)
  {
    InitSetsStarts(cfg, homes);
    RunSetsStarts(cfg, Init(cfg, homes), steps, []);
    assert [] + Ticks(steps) == Ticks(steps);
  }

  lemma HandsOn(start: int, last: int, now: int, maxLatency: nat, b: nat, size: nat)
    requires b > 0 && start == last - maxLatency && start <= now && maxLatency / b <= size
    ensures var limit := ValidLimit(maxLatency / b, UnusedBuckets(start, now, b, size), size);
            && (last <= now && OnTime(last, now, maxLatency, b, size) ==>
                  limit == (now - last + maxLatency % b) / b + 1)
            && ((now - start) / b + 1 > size && start != 0 ==> limit == size - maxLatency / b)
  {
    if last <= now && OnTime(last, now, maxLatency, b, size) {
      TickArithmetic(last, now, maxLatency, b, size, 0);
    }
  }

  /** The tick at `now` after a run: the first one hands on nothing; a later one, floor((D + r) / b) + 1
      buckets if it is on time, D milliseconds after the one before and with r what the maximal latency
      has beyond whole buckets; and all but the carry-over buckets if it is late. */
  lemma TickHandsOn(cfg: Config, homes: seq<Nic>, steps: seq<Step>, now: int)
    requires cfg.Valid() && Executable(cfg, Init(cfg, homes), steps)
    requires Enabled(cfg, Run(cfg, Init(cfg, homes), steps), BeginTick(now))
    ensures var t, clocks := Next(cfg, Run(cfg, Init(cfg, homes), steps), BeginTick(now)), Ticks(steps);
            if clocks == [] then t.limit == 0
            else
              var last, b := clocks[|clocks| - 1], cfg.bucketTime;
              && (last <= now && OnTime(last, now, cfg.maxLatency, b, cfg.size) ==>
                    t.limit == (now - last + cfg.maxLatency % b) / b + 1)
              && ((now - (last - cfg.maxLatency)) / b + 1 > cfg.size && last - cfg.maxLatency != 0 ==>
                    t.limit == cfg.size - cfg.maxLatency / b)
  {
    InitSetsStarts(cfg, homes);
    RunSetsStarts(cfg, Init(cfg, homes), steps, []);
    assert [] + Ticks(steps) == Ticks(steps);
    var s, clocks := Run(cfg, Init(cfg, homes), steps), Ticks(steps);
    assert s.start == StartSet(cfg, clocks, 1);
    if clocks != [] {
      HandsOn(s.start, clocks[|clocks| - 1], now, cfg.maxLatency, cfg.bucketTime, cfg.size);
    }
  }

  // ---------- Step by step, cell by cell ----------

  predicate OthersSame(s: Sys, t: Sys, i: nat) {
    && |t.endpoints| == |s.endpoints|
    && forall j :: 0 <= j < |s.endpoints| && j != i ==> t.endpoints[j] == s.endpoints[j]
  }

  /** A measurement changes one direction of the active cells of one connection: the bytes are shared
      among the buckets its span overlaps, or put into the last one. */
  lemma MeasurementLands(cfg: Config, s: Sys, i: nat, direction: Direction, bytes: nat, latency: nat, clock: int)
    requires WellFormed(cfg, s) && Enabled(cfg, s, Measurement(i, direction, bytes, latency, clock))
    requires clock >= s.endpoints[i].conn.active.start
    ensures var t := Next(cfg, s, Measurement(i, direction, bytes, latency, clock));
            var c, d := s.endpoints[i].conn, t.endpoints[i].conn;
            var hit := Overlapped(cfg.size, clock - c.active.start, latency, cfg.bucketTime);
            && OthersSame(s, t, i) && t.nics == s.nics && t.carry == s.carry && t.phase == s.phase
            && d.standby == c.standby && d.active.start == c.active.start
            && (direction.Send? ==> d.active.recv == c.active.recv)
            && (direction.Recv? ==> d.active.send == c.active.send)
            && if c.active.start == 0 then d == c
               else SharedAmong(c.active.Cells(direction), d.active.Cells(direction), bytes as real,
                                if hit == {} then {cfg.size - 1} else hit)
  {
    MeasureLands(s.endpoints[i].conn, direction, bytes as real, latency, clock, cfg.bucketTime);
  }

  /** A swap moves the carry-over cells to the front of the other copy, in order, and no other
      connection. */
  lemma SwapCarries(cfg: Config, s: Sys, direction: Direction, j: nat)
    requires WellFormed(cfg, s) && Enabled(cfg, s, SwapNext) && j < cfg.size
    ensures var t, i := Next(cfg, s, SwapNext), s.phase.next;
            var c, d := s.endpoints[i].conn, t.endpoints[i].conn;
            && OthersSame(s, t, i) && t.nics == s.nics && t.carry == s.carry
            && d.standby == c.active && d.active.start == s.start && |d.active.Cells(direction)| == cfg.size
            && d.active.Cells(direction)[j]
               == if j < cfg.maxLatency / cfg.bucketTime then c.active.Cells(direction)[s.limit + j]
                  else c.standby.Cells(direction)[j]
  {
    SwapCells(s.endpoints[s.phase.next].conn, s.start, s.limit, cfg.CarryOverBuckets(), direction, j);
  }

  function NicSide(cells: NicCells, direction: Direction): seq<real> {
    if direction.Send? then cells.send else cells.recv
  }

  /** Aggregating one direction of a connection adds the prefix handed on, bucket by bucket, to that
      direction of its own NIC, and clears the copy it came from. */
  lemma AggregateAdds(cfg: Config, s: Sys, j: nat)
    requires WellFormed(cfg, s) && Enabled(cfg, s, AggregateNext) && j < cfg.size
    ensures var t, i, direction := Next(cfg, s, AggregateNext), s.phase.next, s.phase.direction;
            var e := s.endpoints[i];
            && OthersSame(s, t, i) && t.nics.Keys == s.nics.Keys && t.carry == s.carry
            && (forall k :: k in s.nics && k != e.nic ==> t.nics[k] == s.nics[k])
            && (direction.Send? ==> t.nics[e.nic].recv == s.nics[e.nic].recv)
            && (direction.Recv? ==> t.nics[e.nic].send == s.nics[e.nic].send)
            && |NicSide(t.nics[e.nic], direction)| == cfg.size
            && NicSide(t.nics[e.nic], direction)[j] - NicSide(s.nics[e.nic], direction)[j]
               == (if j < s.limit then e.conn.standby.Cells(direction)[j] else 0.0)
            && t.endpoints[i].conn.active == e.conn.active
            && AllZero(t.endpoints[i].conn.standby.send) && AllZero(t.endpoints[i].conn.standby.recv)
  {
    var e := s.endpoints[s.phase.next];
    AccumulateCells(NicSide(s.nics[e.nic], s.phase.direction), e.conn.standby.Cells(s.phase.direction), s.limit, j);
  }

  /** A pass over the NICs shapes as many bytes as the cap allows: its output is an admissible
      schedule for what arrived, and no admissible schedule puts out more. All vectors are cleared. */
  lemma PassShapesAllItMay(cfg: Config, s: Sys, order: seq<Nic>, schedule: seq<real>)
    requires WellFormed(cfg, s) && Enabled(cfg, s, ShapePass(order)) && s.carry >= 0.0
    ensures var arrivals := Arrivals(s.nics, order, s.limit, cfg.size);
            var output := Next(cfg, s, ShapePass(order)).shaped - s.shaped;
            && (Admissible(schedule, s.carry, arrivals, cfg.cap) ==> Sum(schedule) <= output)
            && exists best :: Admissible(best, s.carry, arrivals, cfg.cap) && Sum(best) == output
    ensures var t := Next(cfg, s, ShapePass(order));
            && t.endpoints == s.endpoints && t.nics.Keys == s.nics.Keys
            && forall k :: k in t.nics ==> AllZero(t.nics[k].send) && AllZero(t.nics[k].recv)
  {
    var arrivals := Arrivals(s.nics, order, s.limit, cfg.size);
    ShapeIsGreatestAdmissible(schedule, s.carry, arrivals, cfg.cap);
    var best := Shape(s.carry, arrivals, cfg.cap);
    assert Admissible(best, s.carry, arrivals, cfg.cap);
  }
}
