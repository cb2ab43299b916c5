/** Exactly which runs lose Send bytes, in terms of the clock readings alone: those of the writers
    and of the tick that closes their generation (src/nccl_stats_aggregator.cc). */
module BandwidthLoss {
  import opened Arithmetic
  import opened BandwidthWindow
  import opened ConnectionBandwidth
  import opened NicAggregation
  import opened BandwidthRuns
  import opened BandwidthConservation
  import opened BandwidthClocks

  /** The clock and latency of one accepted Send measurement of positive size. */
  datatype Sample = Sample(clock: int, latency: nat)

  /** For each connection, those of its active generation. */
  type Samples = seq<seq<Sample>>

  function NoSamples(n: nat): Samples {
    seq(n, _ => [])
  }

  function NextSamples(s: Sys, h: Samples, step: Step): Samples
    requires |h| == |s.endpoints|
    requires step.Measurement? ==> step.i < |h|
    requires step.SwapNext? ==> s.phase.Swapping? && s.phase.next < |h|
  {
    match step
    case Measurement(i, direction, bytes, latency, clock) =>
      if direction.Send? && bytes > 0 && s.endpoints[i].conn.active.start != 0
      then h[i := h[i] + [Sample(clock, latency)]]
      else h
    case SwapNext => h[s.phase.next := []]
    case _ => h
  }

  /** The tick that began at `now` and closes the generation begun at `start` keeps what was
      measured at `clock`: it leaves no bucket unused, or the clock is less than a bucket early, or
      neither early nor in a bucket past both the tick's own and the carried ones. */
  predicate ClockKept(cfg: Config, start: int, now: int, clock: int)
    requires cfg.bucketTime > 0
  {
    var used := (now - start) / cfg.bucketTime + 1;
    var kept := if used >= cfg.CarryOverBuckets() then used else cfg.CarryOverBuckets();
    || kept >= cfg.size
    || clock < start < clock + cfg.bucketTime
    || (clock >= start && (clock - start) / cfg.bucketTime + 1 <= kept)
  }

  predicate SwapKeepsClocks(cfg: Config, s: Sys, h: Samples, step: Step)
    requires cfg.bucketTime > 0 && |h| == |s.endpoints|
    requires step.SwapNext? ==> s.phase.Swapping? && s.phase.next < |h|
  {
    step.SwapNext? ==>
      forall k :: 0 <= k < |h[s.phase.next]| ==>
        ClockKept(cfg, s.phase.oldStart, s.phase.now, h[s.phase.next][k].clock)
  }

  /** Every accepted measurement of every closed generation was kept by its closing tick. */
  ghost predicate EveryClockKept(cfg: Config, s: Sys, h: Samples, steps: seq<Step>)
    requires WellFormed(cfg, s) && Executable(cfg, s, steps) && |h| == |s.endpoints|
    decreases |steps|
  {
    steps == []
    || (SwapKeepsClocks(cfg, s, h, steps[0])
        && EveryClockKept(cfg, Next(cfg, s, steps[0]), NextSamples(s, h, steps[0]), steps[1..]))
  }

  function Greatest(cfg: Config, start: int, samples: seq<Sample>, n: nat): nat
    requires cfg.Valid() && n <= |samples|
  {
    if n == 0 then 0
    else
      var m := Greatest(cfg, start, samples, n - 1);
      var reach := Reach(samples[n - 1].clock - start, samples[n - 1].latency, cfg.bucketTime, cfg.size);
      if reach > m then reach else m
  }

  lemma {:induction false} GreatestPrefix(cfg: Config, start: int, samples: seq<Sample>, x: Sample, n: nat)
    requires cfg.Valid() && n <= |samples|
    ensures Greatest(cfg, start, samples + [x], n) == Greatest(cfg, start, samples, n)
  {
    if n == 0 {
    } else {
      GreatestPrefix(cfg, start, samples, x, n - 1);
    }
  }

  predicate InRange(samples: seq<Sample>, start: int, n: nat)
    requires n <= |samples|
  {
    forall k :: 0 <= k < n ==> -TWO_63 <= samples[k].clock - start < TWO_63
  }

  lemma {:induction false} GreatestKept(cfg: Config, start: int, now: int, samples: seq<Sample>, n: nat)
    requires cfg.Valid() && start != 0 && start <= now && n <= |samples| && InRange(samples, start, n)
    ensures var unused := UnusedBuckets(start, now, cfg.bucketTime, cfg.size);
            var limit := ValidLimit(cfg.CarryOverBuckets(), unused, cfg.size);
            Greatest(cfg, start, samples, n) <= limit + cfg.CarryOverBuckets()
            <==> forall k :: 0 <= k < n ==> ClockKept(cfg, start, now, samples[k].clock)
  {
    if n == 0 {
    } else {
      GreatestKept(cfg, start, now, samples, n - 1);
      ReachWithinCarriedIff(start, samples[n - 1].clock, now, samples[n - 1].latency, cfg.bucketTime,
                            cfg.CarryOverBuckets(), cfg.size);
    }
  }

  /** The history of one connection agrees with its greatest reach. */
  predicate Recounted(cfg: Config, e: Endpoint, samples: seq<Sample>)
    requires cfg.Valid()
  {
    var start := e.conn.active.start;
    && (start == 0 ==> samples == [])
    && InRange(samples, start, |samples|)
    && e.reach == Greatest(cfg, start, samples, |samples|)
  }

  ghost predicate SamplesInv(cfg: Config, s: Sys, h: Samples)
    requires WellFormed(cfg, s)
  {
    && |h| == |s.endpoints|
    && (forall i :: 0 <= i < |h| ==>
          s.endpoints[i].conn.active.start == StartOf(s, i) && Recounted(cfg, s.endpoints[i], h[i]))
    && (s.phase.Swapping? ==>
          && s.phase.oldStart <= s.phase.now
          && s.limit == ValidLimit(cfg.CarryOverBuckets(),
                                   UnusedBuckets(s.phase.oldStart, s.phase.now, cfg.bucketTime, cfg.size),
                                   cfg.size))
  }

  lemma MeasuredKeepsCount(cfg: Config, e: Endpoint, samples: seq<Sample>, direction: Direction, bytes: nat,
                           latency: nat, clock: int)
    requires cfg.Valid() && OfSize(e.conn, cfg.size) && Recounted(cfg, e, samples)
    requires -TWO_63 <= clock - e.conn.active.start < TWO_63
    ensures var counted := direction.Send? && bytes > 0 && e.conn.active.start != 0;
            var more := if counted then [Sample(clock, latency)] else [];
            Recounted(cfg, Measured(cfg, e, direction, bytes, latency, clock), samples + more)
  {
    GreatestPrefix(cfg, e.conn.active.start, samples, Sample(clock, latency), |samples|);
    assert samples + [] == samples;
  }

  lemma StepKeepsSamples(cfg: Config, s: Sys, h: Samples, step: Step)
    requires WellFormed(cfg, s) && SamplesInv(cfg, s, h) && Enabled(cfg, s, step)
    ensures SamplesInv(cfg, Next(cfg, s, step), NextSamples(s, h, step))
  {
    match step
    case Measurement(i, direction, bytes, latency, clock) =>
      MeasuredKeepsCount(cfg, s.endpoints[i], h[i], direction, bytes, latency, clock);
      assert h[i] + [] == h[i];
    case _ =>
  }

  lemma SwapKeepsIff(cfg: Config, s: Sys, h: Samples, step: Step)
    requires WellFormed(cfg, s) && SamplesInv(cfg, s, h) && Enabled(cfg, s, step)
    ensures SwapKeeps(cfg, s, step) <==> SwapKeepsClocks(cfg, s, h, step)
  {
    if step.SwapNext? {
      var i := s.phase.next;
      if s.phase.oldStart != 0 {
        GreatestKept(cfg, s.phase.oldStart, s.phase.now, h[i], |h[i]|);
      }
    }
  }

  lemma {:induction false} RunKeepsIff(cfg: Config, s: Sys, h: Samples, steps: seq<Step>)
    requires WellFormed(cfg, s) && SamplesInv(cfg, s, h) && Executable(cfg, s, steps)
    ensures EverySwapKeeps(cfg, s, steps) <==> EveryClockKept(cfg, s, h, steps)
    decreases |steps|
  {
    if steps == [] {
    } else {
      SwapKeepsIff(cfg, s, h, steps[0]);
      StepKeepsSamples(cfg, s, h, steps[0]);
      RunKeepsIff(cfg, Next(cfg, s, steps[0]), NextSamples(s, h, steps[0]), steps[1..]);
    }
  }

  /** Over every interleaved run, no Send byte is lost if and only if every accepted Send
      measurement of every closed generation was kept, by its clock, by its closing tick. */
  lemma {:induction false} NothingLostIffClocksKept(cfg: Config, homes: seq<Nic>, steps: seq<Step>)
    requires cfg.Valid() && Executable(cfg, Init(cfg, homes), steps)
    ensures Run(cfg, Init(cfg, homes), steps).lost == 0.0
       <==> EveryClockKept(cfg, Init(cfg, homes), NoSamples(|homes|), steps)
  {
    var s := Init(cfg, homes);
    assert SamplesInv(cfg, s, NoSamples(|homes|)) by {
      forall i | 0 <= i < |homes| ensures s.endpoints[i] == Endpoint(EmptyConnection(cfg.size), homes[i], 0, 0) {
      }
    }
    RunKeepsIff(cfg, s, NoSamples(|homes|), steps);
    SendBytesConserved(cfg, homes, steps);
  }
}
