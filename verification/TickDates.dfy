/** How late the ticks of the aggregator make the stamps: a tick registers its own clock and then copies
    the buckets of the generation that the tick before it opened (src/nccl_stats_aggregator.cc). */
module TickDates {
  import opened Wrappers
  import opened Arithmetic
  import opened BandwidthWindow
  import NicAggregation
  import BandwidthRuns
  import BandwidthTicks
  import opened BatchBuffer
  import opened BatchTimes
  import opened BatchStamps
  import opened BatchLateness
  import opened BatchStampRuns

  /** The pass of the tick at `now`, the one before it having been at `previous`. `skew` is the
      difference between the two clocks. */
  function TickPass(previous: int, now: int, skew: int, maxLatency: nat, size: nat, l: Lengths): Pass
    requires l.Valid() && previous <= now && now + skew >= 0
  {
    Pass(now + skew, previous - maxLatency + skew, TickLimit(previous, now, maxLatency, l.bucketMs, size))
  }

  /** In every run of writers and ticks this is what the next tick hands on: as many buckets, of the
      generation that began when the run says. */
  lemma PassOfRun(cfg: BandwidthRuns.Config, homes: seq<NicAggregation.Nic>, steps: seq<BandwidthRuns.Step>, now: int,
                  skew: int, l: Lengths)
    requires cfg.Valid() && BandwidthRuns.Executable(cfg, BandwidthRuns.Init(cfg, homes), steps)
    requires BandwidthTicks.Ticks(steps) != [] && l.Valid() && l.bucketMs == cfg.bucketTime && now + skew >= 0
    requires var s := BandwidthRuns.Run(cfg, BandwidthRuns.Init(cfg, homes), steps);
             BandwidthRuns.Enabled(cfg, s, BandwidthRuns.BeginTick(now))
    ensures var s, clocks := BandwidthRuns.Run(cfg, BandwidthRuns.Init(cfg, homes), steps), BandwidthTicks.Ticks(steps);
            var last := clocks[|clocks| - 1];
            last <= now ==>
              var p := TickPass(last, now, skew, cfg.maxLatency, cfg.size, l);
              && p.start == s.start + skew
              && p.n == BandwidthRuns.Next(cfg, s, BandwidthRuns.BeginTick(now)).limit
  {
    BandwidthTicks.TicksSetStarts(cfg, homes, steps, 0);
  }

  /** Every tick is late by its distance from the one before and the maximal latency, less what is
      rounded off its clock. */
  lemma TickLateness(previous: int, now: int, skew: int, maxLatency: nat, size: nat, l: Lengths)
    requires l.Valid() && previous <= now && now + skew >= 0
    ensures var p, d := TickPass(previous, now, skew, maxLatency, size, l), l.bucketMs;
            && Lateness(p.t, p.start, d) == now - previous + maxLatency - ((now + skew) % 1000) % d
            && now - previous + maxLatency - d < Lateness(p.t, p.start, d) <= now - previous + maxLatency
  {
    QuotientAndRemainder((now + skew) % 1000, l.bucketMs, ((now + skew) % 1000) / l.bucketMs,
                         ((now + skew) % 1000) % l.bucketMs);
  }

  /** So by that much the file dates every sample of the pass after its bucket began. */
  lemma TickSampleError(m: Buffer, previous: int, now: int, skew: int, maxLatency: nat, size: nat, l: Lengths,
                        b: nat, o: nat)
    requires l.Valid() && l.WholeBuckets() && previous <= now && now + skew >= 0
    requires m.next <= b < |m.slots| && o < |m.slots[b].dates| == l.samples
    requires var p := TickPass(previous, now, skew, maxLatency, size, l);
             0 <= SampleAt(p, b - m.next, o, l) < p.n
    ensures var p := TickPass(previous, now, skew, maxLatency, size, l);
            var slot, k := AfterPass(m, p, l).slots[b], SampleAt(p, b - m.next, o, l);
            && slot.dates[o] == Some(previous - maxLatency + skew + k * l.bucketMs)
            && slot.stamp + o * l.bucketMs - slot.dates[o].value
               == now - previous + maxLatency - ((now + skew) % 1000) % l.bucketMs
  {
    PassError(m, TickPass(previous, now, skew, maxLatency, size, l), l, b, o);
  }

  // ---------- Runs of ticks ----------

  /** A pass of the aggregator; the first one copies nothing, there being no tick before it. */
  ghost predicate IsTick(p: Pass, maxLatency: nat, size: nat, skew: int, least: nat, greatest: nat, l: Lengths)
    requires l.Valid()
  {
    || p.n == 0
    || exists previous, now :: previous + least <= now <= previous + greatest && now + skew >= 0
         && p == TickPass(previous, now, skew, maxLatency, size, l)
  }

  /** All passes are those of ticks, at distances from `least` to `greatest`. */
  ghost predicate AllTicks(steps: seq<Step>, n: nat, maxLatency: nat, size: nat, skew: int, least: nat, greatest: nat,
                           l: Lengths)
    requires l.Valid() && n <= |steps|
  {
    n == 0 ||
    (AllTicks(steps, n - 1, maxLatency, size, skew, least, greatest, l)
     && (steps[n - 1].Copy? ==> IsTick(steps[n - 1].p, maxLatency, size, skew, least, greatest, l)))
  }

  lemma TickIsLate(p: Pass, maxLatency: nat, size: nat, skew: int, least: nat, greatest: nat, l: Lengths)
    requires l.Valid() && IsTick(p, maxLatency, size, skew, least, greatest, l) && p.n > 0
    ensures least + maxLatency - l.bucketMs < Lateness(p.t, p.start, l.bucketMs) <= greatest + maxLatency
  {
    var previous, now :| previous + least <= now <= previous + greatest && now + skew >= 0
      && p == TickPass(previous, now, skew, maxLatency, size, l);
    TickLateness(previous, now, skew, maxLatency, size, l);
  }

  lemma {:induction false} TicksAreLate(steps: seq<Step>, n: nat, maxLatency: nat, size: nat, skew: int, least: nat,
                                        greatest: nat, l: Lengths)
    requires l.Valid() && l.WholeBuckets() && n <= |steps|
    requires AllTicks(steps, n, maxLatency, size, skew, least, greatest, l)
    ensures AllLateBetween(steps, n, l, least + maxLatency - l.bucketMs + 1, greatest + maxLatency)
  {
    if n == 0 {
    } else {
      TicksAreLate(steps, n - 1, maxLatency, size, skew, least, greatest, l);
      if steps[n - 1].Copy? && steps[n - 1].p.n > 0 {
        var p := steps[n - 1].p;
        TickIsLate(p, maxLatency, size, skew, least, greatest, l);
        forall j | 0 <= j < Finished(p, l) ensures ErrorOf(p, j, l) == Lateness(p.t, p.start, l.bucketMs) {
          WholeBucketError(p, j, l);
        }
      }
    }
  }

  /** Over every run of ticks whose passes join: ordinary saves date each sample late by more than the
      least distance of ticks and the maximal latency less a bucket, and by no more than the
      greatest distance and the maximal latency. */
  lemma TickRunsAreLate(trace: seq<Buffer>, steps: seq<Step>, n: nat, maxLatency: nat, size: nat, skew: int,
                        least: nat, greatest: nat, l: Lengths)
    requires l.Valid() && l.WholeBuckets() && |trace| == |steps| + 1 && n <= |steps| && Run(trace, steps, n, l)
    requires Inv(trace[0], l) && trace[0].next == 0 && trace[0].exported == []
    requires AllJoin(trace, steps, n, l) && AllTicks(steps, n, maxLatency, size, skew, least, greatest, l)
    ensures forall i :: 0 <= i < |trace[n].exported| ==>
              SamplesLate(trace[n].exported[i], l, least + maxLatency - l.bucketMs + 1, greatest + maxLatency)
  {
    TicksAreLate(steps, n, maxLatency, size, skew, least, greatest, l);
    JoinedRunsAreLate(trace, steps, n, l, least + maxLatency - l.bucketMs + 1, greatest + maxLatency);
  }

  lemma {:induction false} LateTicksAreNotPunctual(steps: seq<Step>, n: nat, i: nat, maxLatency: nat, size: nat,
                                                   skew: int, least: nat, greatest: nat, l: Lengths)
    requires l.Valid() && n <= |steps| && AllTicks(steps, n, maxLatency, size, skew, least, greatest, l)
    requires least + maxLatency >= l.bucketMs
    requires i < n && steps[i].Copy? && Finished(steps[i].p, l) > 0
    ensures !AllPunctual(steps, n, l)
  {
    if i == n - 1 {
      TickIsLate(steps[i].p, maxLatency, size, skew, least, greatest, l);
    } else {
      LateTicksAreNotPunctual(steps, n - 1, i, maxLatency, size, skew, least, greatest, l);
    }
  }

  /** Ticks a bucket or more apart, the maximal latency counted in: once a pass has finished a batch, the
      files of a run in which nothing is lost never date all samples rightly. */
  lemma TickRunsAreMisdated(trace: seq<Buffer>, steps: seq<Step>, n: nat, i: nat, maxLatency: nat, size: nat,
                            skew: int, least: nat, greatest: nat, l: Lengths)
    requires l.Valid() && l.WholeBuckets() && |trace| == |steps| + 1 && n <= |steps|
    requires Run(trace, steps, n, l) && AllOrderly(trace, steps, n, l) && Inv(trace[0], l) && BlankBeyond(trace[0])
    requires trace[0].next == 0 && trace[0].exported == []
    requires AllTicks(steps, n, maxLatency, size, skew, least, greatest, l) && least + maxLatency >= l.bucketMs
    requires i < n && steps[i].Copy? && Finished(steps[i].p, l) > 0
    ensures !AllDated(Written(trace[n]), l)
  {
    LateTicksAreNotPunctual(steps, n, i, maxLatency, size, skew, least, greatest, l);
    ExportedStampsDatedIff(trace, steps, n, l);
  }

  // ---------- Two ticks in one batch ----------

  /** The pass after `p` begins in the cell after its last one. A sample of `p` stays in front of it. */
  lemma AbuttingSurvives(m: Buffer, p: Pass, q: Pass, l: Lengths)
    requires l.Valid() && AllSound(m.slots, l) && Enabled(m, Copy(p), l)
    requires m.next <= AfterPass(m, p, l).next && CopiesInto(p, AfterPass(m, p, l).next - m.next, l)
    requires FirstCell(AfterPass(m, p, l).next, q, l) == FirstCell(m.next, p, l) + p.n
    ensures Survives(AfterPass(m, p, l).slots[AfterPass(m, p, l).next], q, 0, l)
  {
    var b := AfterPass(m, p, l).next;
    assert (b - m.next) * l.samples == b * l.samples - m.next * l.samples;
    assert Offset(q, l) > 0;
    var o: nat := Offset(q, l) - 1;
    assert SampleAt(p, b - m.next, o, l) == p.n - 1 && SampleAt(q, 0, o, l) == -1;
    assert AfterPass(m, p, l).slots[b].dates[o].Some?;
  }

  /** A tick on time hands on more buckets than lie between it and the one before. */
  lemma HandsOnMore(previous: int, now: int, maxLatency: nat, d: nat, size: nat)
    requires d > 0 && OnTime(previous, now, maxLatency, d, size)
    ensures TickLimit(previous, now, maxLatency, d, size) * d > now - previous
  {
    TickArithmetic(previous, now, maxLatency, d, size, 0);
  }

  /** Passes that abut within a batch, as they must to lose nothing, spoil it: no stamp dates the
      samples of both, the first having been the pass of a tick on time. */
  lemma AbuttingTicksDisagree(m: Buffer, first: int, second: int, third: int, skew: int, maxLatency: nat, size: nat,
                              l: Lengths)
    requires l.Valid() && first <= second <= third && second + skew >= 0
    requires OnTime(first, second, maxLatency, l.bucketMs, size)
    requires var p, q := TickPass(first, second, skew, maxLatency, size, l),
                         TickPass(second, third, skew, maxLatency, size, l);
             var mid := AfterPass(m, p, l);
             && AllSound(m.slots, l) && Enabled(m, Copy(p), l) && Joins(m, Copy(p), l) && q.n > 0
             && m.next <= mid.next && CopiesInto(p, mid.next - m.next, l)
             && FirstCell(mid.next, q, l) == FirstCell(m.next, p, l) + p.n
    ensures var p, q := TickPass(first, second, skew, maxLatency, size, l),
                        TickPass(second, third, skew, maxLatency, size, l);
            var mid := AfterPass(m, p, l);
            !Uniform(AfterPass(mid, q, l).slots[mid.next], l)
  {
    var p, q := TickPass(first, second, skew, maxLatency, size, l),
                TickPass(second, third, skew, maxLatency, size, l);
    AbuttingSurvives(m, p, q, l);
    HandsOnMore(first, second, maxLatency, l.bucketMs, size);
    RestampingIff(m, p, q, l);
  }

  /** In general: where a sample of a pass stays in the batch in which the pass of the next tick begins,
      one stamp could date the batch exactly if the ticks before them were as far apart as the
      first cells of the two passes are. */
  lemma TicksAgreeIff(m: Buffer, first: int, second: int, third: int, skew: int, maxLatency: nat, size: nat,
                      l: Lengths)
    requires l.Valid() && first <= second <= third && second + skew >= 0
    requires var p, q := TickPass(first, second, skew, maxLatency, size, l),
                         TickPass(second, third, skew, maxLatency, size, l);
             var mid := AfterPass(m, p, l);
             && AllSound(m.slots, l) && Enabled(m, Copy(p), l) && Joins(m, Copy(p), l) && q.n > 0
             && m.next <= mid.next && CopiesInto(p, mid.next - m.next, l) && Survives(mid.slots[mid.next], q, 0, l)
    ensures var p, q := TickPass(first, second, skew, maxLatency, size, l),
                        TickPass(second, third, skew, maxLatency, size, l);
            var mid := AfterPass(m, p, l);
            Uniform(AfterPass(mid, q, l).slots[mid.next], l)
            <==> second - first == (FirstCell(mid.next, q, l) - FirstCell(m.next, p, l)) * l.bucketMs
  {
    RestampingIff(m, TickPass(first, second, skew, maxLatency, size, l),
                  TickPass(second, third, skew, maxLatency, size, l), l);
  }

  // ---------- A run that misdates ----------

  const MILLISECONDS: Lengths := Lengths(100, 1, 100)

  lemma TicksOfTheRun(size: nat)
    requires size >= 60
    ensures TickPass(1000, 1010, 0, 3, size, MILLISECONDS) == Pass(1010, 997, 11)
    ensures TickPass(1010, 1050, 0, 3, size, MILLISECONDS) == Pass(1050, 1007, 41)
  {
  }

  lemma PlacesOfTheRun(p: Pass, q: Pass)
    requires p == Pass(1010, 997, 11) && q == Pass(1050, 1007, 41)
    ensures Offset(p, MILLISECONDS) == 10 && Offset(q, MILLISECONDS) == 50 && FirstTime(q.t, 100) == 1000
    ensures Began(p.start, 0, 1) == 997 && Began(p.start, 10, 1) == 1007 && Began(q.start, 0, 1) == 1007
  {
  }

  /** Samples of one moment in two cells cannot both be dated. */
  lemma TwoAtOnce(slot: Slot)
    requires |slot.dates| == 100 && slot.dates[20] == slot.dates[50] == Some(1007)
    ensures !Uniform(slot, MILLISECONDS)
  {
  }

  /** Batches of 100 one-millisecond buckets, a maximal latency of 3 milliseconds, and ticks at 1000, 1010
      and 1050: nothing is lost, yet the first samples of the two passes, of buckets that began at 997 and
      1007, are dated 1010 and 1050; and two samples of buckets that began at 1007 are 30 cells apart. */
  lemma TicksMisdate(times: seq<int>, size: nat) returns (trace: seq<Buffer>, p: Pass, q: Pass)
    requires times != [] && size >= 60
    ensures p == TickPass(1000, 1010, 0, 3, size, MILLISECONDS)
    ensures q == TickPass(1010, 1050, 0, 3, size, MILLISECONDS)
    ensures IsRun(trace, [Copy(p), Copy(q)], MILLISECONDS) && trace[0] == Fresh(times, 100)
    ensures AllOrderly(trace, [Copy(p), Copy(q)], 2, MILLISECONDS)
    ensures var written := Written(Last(trace));
            && |written| == 1 && written[0].stamp == 1000 && |written[0].dates| == 100
            && written[0].dates[10] == Some(997) && written[0].dates[50] == Some(1007)
            && written[0].dates[20] == Some(1007) && !Uniform(written[0], MILLISECONDS)
  {
    TicksOfTheRun(size);
    p, q := TickPass(1000, 1010, 0, 3, size, MILLISECONDS), TickPass(1010, 1050, 0, 3, size, MILLISECONDS);
    PlacesOfTheRun(p, q);
    trace := TwoInOneBatch(times, p, q, MILLISECONDS);
    var slot := Written(Last(trace))[0];
    assert slot.dates[10 + 0] == Some(997) && slot.dates[10 + 10] == Some(1007) && slot.dates[50 + 0] == Some(1007);
    TwoAtOnce(slot);
  }
}
