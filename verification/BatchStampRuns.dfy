/** Runs of the millisecond buffer whose files misdate samples, and the calls that make the steps of
    a run (src/millisecond_bandwidth_output.cc). */
module BatchStampRuns {
  import opened Wrappers
  import opened Arithmetic
  import opened RealSums
  import opened BatchBuffer
  import opened BatchTimes
  import opened BatchStamps
  import opened BatchLateness

  predicate IsRun(trace: seq<Buffer>, steps: seq<Step>, l: Lengths) {
    l.Valid() && |trace| == |steps| + 1 && Run(trace, steps, |steps|, l)
  }

  function Last(trace: seq<Buffer>): Buffer
    requires trace != []
  {
    trace[|trace| - 1]
  }

  lemma {:induction false} RunPrefix(trace: seq<Buffer>, m: Buffer, steps: seq<Step>, step: Step, n: nat, l: Lengths)
    requires l.Valid() && |trace| == |steps| + 1 && n <= |steps| && Run(trace, steps, n, l)
    ensures Run(trace + [m], steps + [step], n, l)
  {
    if n == 0 {
    } else {
      RunPrefix(trace, m, steps, step, n - 1, l);
    }
  }

  lemma Extend(trace: seq<Buffer>, steps: seq<Step>, step: Step, l: Lengths) returns (longer: seq<Buffer>)
    requires IsRun(trace, steps, l) && Enabled(Last(trace), step, l)
    ensures IsRun(longer, steps + [step], l) && longer[..|trace|] == trace && longer[0] == trace[0]
    ensures Last(longer) == Next(Last(trace), step, l)
  {
    var m := Next(Last(trace), step, l);
    longer := trace + [m];
    RunPrefix(trace, m, steps, step, |steps|, l);
  }

  lemma StayInBatch(p: Pass, l: Lengths, b: nat)
    requires l.Valid() && Offset(p, l) + p.n < l.samples
    ensures PassedTo(b, p, l) == b
  {
    QuotientUnique(Offset(p, l) + p.n, l.samples, 0);
  }

  lemma AdvanceBatch(p: Pass, l: Lengths, b: nat)
    requires l.Valid()
    ensures PassedTo(b, p, l) >= b
  {
    DivisionFacts(Offset(p, l) + p.n, l.samples);
  }

  /** The first sample of a pass, and the stamp of the batch it is in. */
  lemma FirstSample(m: Buffer, p: Pass, l: Lengths)
    requires l.Valid() && m.next < |m.slots| && |m.slots[m.next].dates| == l.samples
    ensures var slot := AfterPass(m, p, l).slots[m.next];
            && |slot.dates| == l.samples && slot.stamp == FirstTime(p.t, l.batchMs)
            && (p.n > 0 ==> slot.dates[Offset(p, l)] == Some(p.start))
  {
    AdvanceBatch(p, l, m.next);
    assert BatchSpan(0, l.batchMs) == 0;
  }

  lemma EarlierSample(m: Buffer, p: Pass, l: Lengths, o: nat)
    requires l.Valid() && m.next < |m.slots| && o < |m.slots[m.next].dates| && o < Offset(p, l)
    ensures |AfterPass(m, p, l).slots[m.next].dates| == |m.slots[m.next].dates|
    ensures AfterPass(m, p, l).slots[m.next].dates[o] == m.slots[m.next].dates[o]
  {
    AdvanceBatch(p, l, m.next);
  }

  lemma FirstIsLate(p: Pass, l: Lengths)
    requires l.Valid() && l.WholeBuckets()
    ensures FirstTime(p.t, l.batchMs) + Offset(p, l) * l.bucketMs - p.start == Lateness(p.t, p.start, l.bucketMs)
  {
    WholeBucketError(p, 0, l);
    DueDates(p.start, p.t, 0, Offset(p, l), 0, l.samples, l.bucketMs);
    assert BatchSpan(0, l.batchMs) == 0;
  }

  /** A pass that leaves the first batch half filled, one that begins behind it and goes on to the next
      batch, any pass after that, and a save: the file dates the first sample of the first pass late by
      the lateness of the pass and by as much as the batches of the two clocks are apart. */
  lemma LatePassMisdates(times: seq<int>, p: Pass, q: Pass, last: Pass, l: Lengths) returns (trace: seq<Buffer>)
    requires l.Valid() && l.WholeBuckets() && times != []
    requires p.n > 0 && Offset(p, l) + p.n < l.samples && Offset(p, l) < Offset(q, l)
    requires 0 < PassedTo(0, q, l) <= PassedTo(PassedTo(0, q, l), last, l) < |times|
    ensures IsRun(trace, [Copy(p), Copy(q), Copy(last), Save], l) && trace[0] == Fresh(times, l.samples)
    ensures var exported, o := Last(trace).exported, Offset(p, l);
            && exported != [] && |exported[0].dates| == l.samples && exported[0].dates[o] == Some(p.start)
            && exported[0].stamp + o * l.bucketMs - p.start
               == Lateness(p.t, p.start, l.bucketMs) + FirstTime(q.t, l.batchMs) - FirstTime(p.t, l.batchMs)
  {
    var m0 := Fresh(times, l.samples);
    StayInBatch(p, l, 0);
    FirstSample(m0, p, l);
    var m1 := AfterPass(m0, p, l);
    FirstSample(m1, q, l);
    EarlierSample(m1, q, l, Offset(p, l));
    var m2 := AfterPass(m1, q, l);
    var m3 := AfterPass(m2, last, l);
    assert m3.slots[0] == m2.slots[0];
    FirstIsLate(p, l);
    trace := Extend([m0], [], Copy(p), l);
    trace := Extend(trace, [] + [Copy(p)], Copy(q), l);
    trace := Extend(trace, [] + [Copy(p)] + [Copy(q)], Copy(last), l);
    trace := Extend(trace, [] + [Copy(p)] + [Copy(q)] + [Copy(last)], Save, l);
    assert [] + [Copy(p)] + [Copy(q)] + [Copy(last)] + [Save] == [Copy(p), Copy(q), Copy(last), Save];
    assert Last(trace).exported == [] + m3.slots[..m3.current];
  }

  /** A pass that ends in the second batch, one that stays there, a save and the end of the program:
      the samples of the second pass are written under the stamp of the first. */
  lemma StaleStampExported(times: seq<int>, p: Pass, q: Pass, l: Lengths) returns (trace: seq<Buffer>)
    requires l.Valid() && l.WholeBuckets() && |times| >= 2
    requires PassedTo(0, p, l) == 1 && q.n > 0 && Offset(q, l) + q.n < l.samples
    ensures IsRun(trace, [Copy(p), Copy(q), Save], l) && trace[0] == Fresh(times, l.samples)
    ensures var written, o := Written(Last(trace)), Offset(q, l);
            && |written| == 2 && written[1].stamp == FirstTime(p.t, l.batchMs) && |written[1].dates| == l.samples
            && written[1].dates[o] == Some(q.start)
            && written[1].stamp + o * l.bucketMs - q.start
               == Lateness(q.t, q.start, l.bucketMs) + FirstTime(p.t, l.batchMs) - FirstTime(q.t, l.batchMs)
  {
    var m0 := Fresh(times, l.samples);
    FirstSample(m0, p, l);
    var m1 := AfterPass(m0, p, l);
    StayInBatch(q, l, 1);
    FirstSample(m1, q, l);
    var m2 := AfterPass(m1, q, l);
    assert m2.slots[0] == m1.slots[0];
    FirstIsLate(q, l);
    trace := Extend([m0], [], Copy(p), l);
    trace := Extend(trace, [] + [Copy(p)], Copy(q), l);
    trace := Extend(trace, [] + [Copy(p)] + [Copy(q)], Save, l);
    assert [] + [Copy(p)] + [Copy(q)] + [Save] == [Copy(p), Copy(q), Save];
  }

  lemma RunOfTwo(m: Buffer, p: Pass, q: Pass, l: Lengths) returns (trace: seq<Buffer>)
    requires l.Valid() && Enabled(m, Copy(p), l) && Enabled(AfterPass(m, p, l), Copy(q), l)
    requires Orderly(m, Copy(p), l) && Orderly(AfterPass(m, p, l), Copy(q), l)
    ensures IsRun(trace, [Copy(p), Copy(q)], l) && AllOrderly(trace, [Copy(p), Copy(q)], 2, l)
    ensures trace[0] == m && Last(trace) == AfterPass(AfterPass(m, p, l), q, l)
  {
    var first := Extend([m], [], Copy(p), l);
    trace := Extend(first, [] + [Copy(p)], Copy(q), l);
    var steps := [] + [Copy(p)] + [Copy(q)];
    assert steps == [Copy(p), Copy(q)] && trace[1] == first[1] == AfterPass(m, p, l);
    assert AllOrderly(trace, steps, 0, l) && AllOrderly(trace, steps, 1, l);
  }

  lemma CopiedInFront(m: Buffer, p: Pass, l: Lengths)
    requires l.Valid() && m.next == 0 < |m.slots| && |m.slots[0].dates| == l.samples
    requires Offset(p, l) + p.n < l.samples
    ensures var after := AfterPass(m, p, l);
            && |after.slots| == |m.slots| && |after.slots[0].dates| == l.samples
            && after.slots[0].stamp == FirstTime(p.t, l.batchMs) && after.exported == m.exported
            && after.current == after.next == 0 && forall b :: 0 < b < |m.slots| ==> after.slots[b] == m.slots[b]
    ensures forall o :: 0 <= o < l.samples ==>
              var k := o - Offset(p, l);
              AfterPass(m, p, l).slots[0].dates[o]
              == if 0 <= k < p.n then Some(Began(p.start, k, l.bucketMs)) else m.slots[0].dates[o]
  {
    StayInBatch(p, l, 0);
    FirstSample(m, p, l);
  }

  /** Two passes into the first batch of a fresh buffer, the second somewhere behind the first, and the
      end of the program: nothing is lost, and what is written has the stamp of the second. */
  lemma TwoInOneBatch(times: seq<int>, p: Pass, q: Pass, l: Lengths) returns (trace: seq<Buffer>)
    requires l.Valid() && times != []
    requires Offset(p, l) + p.n <= Offset(q, l) && Offset(q, l) + q.n < l.samples
    ensures IsRun(trace, [Copy(p), Copy(q)], l) && trace[0] == Fresh(times, l.samples)
    ensures AllOrderly(trace, [Copy(p), Copy(q)], 2, l)
    ensures var written := Written(Last(trace));
            && |written| == 1 && written[0].stamp == FirstTime(q.t, l.batchMs) && |written[0].dates| == l.samples
            && (forall k :: 0 <= k < p.n ==>
                  written[0].dates[Offset(p, l) + k] == Some(Began(p.start, k, l.bucketMs)))
            && (forall k :: 0 <= k < q.n ==>
                  written[0].dates[Offset(q, l) + k] == Some(Began(q.start, k, l.bucketMs)))
  {
    var m := Fresh(times, l.samples);
    CopiedInFront(m, p, l);
    var mid := AfterPass(m, p, l);
    CopiedInFront(mid, q, l);
    StayInBatch(p, l, 0);
    StayInBatch(q, l, 0);
    BlankBehind(m, p, l);
    BlankBehind(mid, q, l);
    trace := RunOfTwo(m, p, q, l);
    assert Written(Last(trace)) == [Last(trace).slots[0]];
  }

  lemma BlankBehind(m: Buffer, p: Pass, l: Lengths)
    requires l.Valid() && m.next == 0 < |m.slots| && BlankBeyond(m)
    requires forall o :: Offset(p, l) <= o < |m.slots[0].dates| ==> m.slots[0].dates[o].None?
    ensures Orderly(m, Copy(p), l)
  {
    forall b, o | m.next <= b < |m.slots| && 0 <= o < |m.slots[b].dates|
      ensures 0 <= SampleAt(p, b - m.next, o, l) < p.n ==> m.slots[b].dates[o].None?
    {
      if b == 0 {
        assert SampleAt(p, 0, o, l) == o - Offset(p, l);
      } else {
        assert Blank(m.slots[b]);
      }
    }
  }

  // ---------- The object's calls are these steps ----------

  predicate StampsAre(times: seq<int>, slots: seq<Slot>) {
    |times| == |slots| && forall b :: 0 <= b < |slots| ==> times[b] == slots[b].stamp
  }

  ghost predicate Represents(b: MillisecondBandwidthOutput, m: Buffer)
    reads b
  {
    StampsAre(b.times, m.slots) && b.currentBatch == m.current && b.nextBatch == m.next
  }

  function LengthsOf(b: MillisecondBandwidthOutput): Lengths {
    Lengths(b.samplesPerBatch, b.bucketMs, b.batchMs)
  }

  /** The history dates the very cells into which a series' samples are copied. */
  ghost predicate CopiedAsDated(before: Rows, rows: Rows, next: nat, p: Pass, data: seq<real>, l: Lengths)
    requires l.Valid()
  {
    && |rows| == |before|
    && forall c, o :: next <= c < |rows| && 0 <= o < |rows[c]| ==>
         && |before[c]| == |rows[c]|
         && rows[c][o] == var k := SampleAt(p, c - next, o, l); if 0 <= k < |data| then data[k] else before[c][o]
  }

  lemma CellsFrom(next: nat, c: nat, o: nat, offset: nat, S: nat)
    requires next <= c
    ensures Cell(c, o, S) - Cell(next, offset, S) == Cell(c - next, o, S) - offset
  {
    assert (c - next) * S == c * S - next * S;
  }

  lemma CopiedIsDated(before: Rows, rows: Rows, next: nat, p: Pass, data: seq<real>, l: Lengths)
    requires l.Valid() && Copied(before, rows, l.samples, Cell(next, Offset(p, l), l.samples), data)
    ensures CopiedAsDated(before, rows, next, p, data, l)
  {
    forall c, o | next <= c < |rows| && 0 <= o < |rows[c]|
      ensures rows[c][o] == var k := SampleAt(p, c - next, o, l); if 0 <= k < |data| then data[k] else before[c][o]
    {
      CellsFrom(next, c, o, Offset(p, l), l.samples);
    }
  }

  /** One registration of the time and the copies of all series, of a generation that began at
      `start`. */
  method PassOver(b: MillisecondBandwidthOutput, order: seq<Series>, data: map<Series, seq<real>>, n: nat,
                  now: nat, wallClock: nat, ghost m: Buffer, ghost start: int)
    returns (ghost p: Pass, ghost after: Buffer)
    requires b.Valid() && Represents(b, m)
    requires order != [] && Distinct(order) && forall s :: s in order <==> s in b.cells
    requires forall s :: s in order ==> s in data && |data[s]| == n
    requires b.timeDiff == 0 || b.timeDiff + now >= 0
    requires var o := ClockOffset(b.TimeOf(now, wallClock), b.bucketMs, b.samplesPerBatch);
             Cell(b.nextBatch, o, b.samplesPerBatch) + n < Cell(b.bufferSize, 0, b.samplesPerBatch)
    modifies b
    ensures b.Valid() && Represents(b, after) && b.cells.Keys == old(b.cells).Keys
    ensures p == Pass(b.currentTime, start, n) && b.currentTime == b.timeDiff + now
    ensures Enabled(m, Copy(p), LengthsOf(b)) && after == Next(m, Copy(p), LengthsOf(b))
    ensures forall s :: s in order ==> CopiedAsDated(old(b.cells)[s], b.cells[s], m.next, p, data[s], LengthsOf(b))
  {
    b.RegisterCurrentTimeInMilliseconds(now, wallClock);
    b.CopyOverAll(order, data, n);
    ghost var l := LengthsOf(b);
    p := Pass(b.currentTime, start, n);
    after := AfterPass(m, p, l);
    forall s | s in order
      ensures CopiedAsDated(old(b.cells)[s], b.cells[s], m.next, p, data[s], l)
    {
      CopiedIsDated(old(b.cells)[s], b.cells[s], m.next, p, data[s], l);
    }
  }

  /** Batch `b` has the samples of every series, and their dates, from batch `from`. */
  ghost predicate TakenFrom(before: map<Series, Rows>, after: map<Series, Rows>, was: seq<Slot>, now: seq<Slot>,
                            b: nat, from: nat)
  {
    && b < |now| && from < |was| && now[b].dates == was[from].dates
    && forall s :: s in before ==>
         s in after && b < |after[s]| && from < |before[s]| && after[s][b] == before[s][from]
  }

  ghost predicate Emptied(after: map<Series, Rows>, now: seq<Slot>, b: nat) {
    b < |now| && Blank(now[b]) && forall s :: s in after ==> b < |after[s]| && AllZero(after[s][b])
  }

  /** An ordinary save writes the stamps of the batches it exports, and moves or clears samples and dates
      alike. */
  method SaveAll(b: MillisecondBandwidthOutput, ghost m: Buffer) returns (ghost after: Buffer)
    requires b.Valid() && Represents(b, m) && b.currentBatch < b.bufferSize
    modifies b
    ensures b.Valid() && Represents(b, after) && |b.out| == |old(b.out)| + 1
    ensures Enabled(m, Save, LengthsOf(b)) && after == Next(m, Save, LengthsOf(b))
    ensures |after.exported| == |m.exported| + m.current
    ensures StampsAre(b.out[|b.out| - 1].times, after.exported[|m.exported|..])
    ensures forall i :: 0 <= i < |after.slots| ==>
              || Emptied(b.cells, after.slots, i)
              || exists from :: TakenFrom(old(b.cells), b.cells, m.slots, after.slots, i, from)
  {
    ghost var before := b.cells;
    b.SaveBandwidthStats(false);
    after := Next(m, Save, LengthsOf(b));
    assert after.exported[|m.exported|..] == m.slots[..m.current];
    forall i | 0 <= i < |after.slots|
      ensures || Emptied(b.cells, after.slots, i)
              || exists from :: TakenFrom(before, b.cells, m.slots, after.slots, i, from)
    {
      SavedAlike(before, b.cells, m, b.bufferSize, b.samplesPerBatch, i);
    }
  }

  lemma SavedAlike(before: map<Series, Rows>, after: map<Series, Rows>, m: Buffer, B: nat, S: nat, b: nat)
    requires m.current < |m.slots| == B && b < B
    requires forall s :: s in before ==> |before[s]| == B && Shaped(before[s], B, S)
    requires after == map s | s in before :: Saved(before[s], m.current, S)
    ensures var slots := Shifted(m.slots, m.current);
            || Emptied(after, slots, b)
            || exists from :: TakenFrom(before, after, m.slots, slots, b, from)
  {
    var slots := Shifted(m.slots, m.current);
    if b == 0 && m.current > 0 {
      assert TakenFrom(before, after, m.slots, slots, b, m.current);
    } else if b <= m.current {
      forall s | s in after ensures b < |after[s]| && AllZero(after[s][b]) {
        assert after[s] == Saved(before[s], m.current, S);
        assert after[s][b] == Zeros(S);
      }
      assert Emptied(after, slots, b);
    } else {
      assert TakenFrom(before, after, m.slots, slots, b, b);
    }
  }

  /** The save at the end of the program. */
  method FinalSave(b: MillisecondBandwidthOutput, ghost m: Buffer)
    requires b.Valid() && Represents(b, m)
    modifies b
    ensures b.Valid() && Represents(b, m) && |b.out| == |old(b.out)| + 1
    ensures |m.exported| <= |Written(m)| && StampsAre(b.out[|b.out| - 1].times, Written(m)[|m.exported|..])
  {
    b.SaveBandwidthStats(true);
  }
}
