/** How late the time stamps written with the batches date their samples
    (src/millisecond_bandwidth_output.cc). */
module BatchLateness {
  import opened Wrappers
  import opened Arithmetic
  import opened BatchBuffer
  import opened BatchTimes
  import opened BatchStamps

  /** How much later than its bucket began each sample in the `j`-th batch of a pass is dated. */
  function ErrorOf(p: Pass, j: nat, l: Lengths): int
    requires l.Valid()
  {
    Given(p.t, j, l.batchMs) - StampDue(p, j, l)
  }

  /** In whole buckets that is the lateness of the pass, in all its batches. */
  lemma WholeBucketError(p: Pass, j: nat, l: Lengths)
    requires l.Valid() && l.WholeBuckets()
    ensures ErrorOf(p, j, l) == Lateness(p.t, p.start, l.bucketMs)
  {
    StampError(p.start, p.t, j, l.samples, l.bucketMs, l.batchMs);
  }

  /** For every batch and bucket length: the exact error of every sample of a pass. */
  lemma PassError(m: Buffer, p: Pass, l: Lengths, b: nat, o: nat)
    requires l.Valid() && m.next <= b < |m.slots| && o < |m.slots[b].dates| == l.samples
    requires 0 <= SampleAt(p, b - m.next, o, l) < p.n
    ensures var slot, start := AfterPass(m, p, l).slots[b], Began(p.start, SampleAt(p, b - m.next, o, l), l.bucketMs);
            && slot.dates[o] == Some(start)
            && slot.stamp + o * l.bucketMs - start
               == Lateness(p.t, p.start, l.bucketMs)
                  + Slippage(p.t, b - m.next, l.samples, l.bucketMs, l.batchMs)
    ensures l.WholeBuckets() ==> Slippage(p.t, b - m.next, l.samples, l.bucketMs, l.batchMs) == 0
  {
    var j := b - m.next;
    ProductNonNegative(j, l.samples);
    Distribute(j, 0, l.samples);
    assert CopiesInto(p, j, l);
    AfterCopying(m, p, l, b);
    DueDates(p.start, p.t, j, o, SampleAt(p, j, o, l), l.samples, l.bucketMs);
    StampError(p.start, p.t, j, l.samples, l.bucketMs, l.batchMs);
  }

  // ---------- Batches that are finished ----------

  /** The batches a pass fills to the end. */
  function Finished(p: Pass, l: Lengths): nat
    requires l.Valid()
  {
    (Offset(p, l) + p.n) / l.samples
  }

  predicate LateBetween(p: Pass, l: Lengths, least: int, greatest: int)
    requires l.Valid()
  {
    forall j :: 0 <= j < Finished(p, l) ==> least <= ErrorOf(p, j, l) <= greatest
  }

  predicate AllLateBetween(steps: seq<Step>, n: nat, l: Lengths, least: int, greatest: int)
    requires l.Valid() && n <= |steps|
  {
    n == 0 ||
    (AllLateBetween(steps, n - 1, l, least, greatest)
     && (steps[n - 1].Copy? ==> LateBetween(steps[n - 1].p, l, least, greatest)))
  }

  predicate StampWithin(slot: Slot, least: int, greatest: int) {
    slot.due.Some? ==> least <= slot.stamp - slot.due.value <= greatest
  }

  predicate StampsWithin(slots: seq<Slot>, n: nat, least: int, greatest: int) {
    forall b :: 0 <= b < |slots| && b < n ==> StampWithin(slots[b], least, greatest)
  }

  /** Each sample is dated later than its bucket began, by no less and no more. */
  predicate SamplesLate(slot: Slot, l: Lengths, least: int, greatest: int) {
    forall o :: 0 <= o < |slot.dates| && slot.dates[o].Some? ==>
      least <= slot.stamp + o * l.bucketMs - slot.dates[o].value <= greatest
  }

  lemma PassKeepsWithin(m: Buffer, p: Pass, l: Lengths, least: int, greatest: int)
    requires l.Valid() && StampsWithin(m.slots, m.next, least, greatest) && LateBetween(p, l, least, greatest)
    ensures StampsWithin(AfterPass(m, p, l).slots, AfterPass(m, p, l).next, least, greatest)
  {
    var after := AfterPass(m, p, l);
    forall b | 0 <= b < |m.slots| && b < after.next ensures StampWithin(after.slots[b], least, greatest) {
      if b >= m.next {
        CopiesIntoBefore(p, b - m.next, l);
        AfterCopying(m, p, l, b);
        assert least <= ErrorOf(p, b - m.next, l) <= greatest;
      }
    }
  }

  lemma {:induction false} RunKeepsWithin(trace: seq<Buffer>, steps: seq<Step>, n: nat, l: Lengths, least: int,
                                          greatest: int)
    requires l.Valid() && |trace| == |steps| + 1 && n <= |steps|
    requires Run(trace, steps, n, l) && AllLateBetween(steps, n, l, least, greatest)
    requires trace[0].next == 0 && trace[0].current == 0 && trace[0].exported == []
    ensures StampsWithin(trace[n].slots, trace[n].next, least, greatest) && trace[n].current <= trace[n].next
    ensures StampsWithin(trace[n].exported, |trace[n].exported|, least, greatest)
  {
    if n == 0 {
    } else {
      RunKeepsWithin(trace, steps, n - 1, l, least, greatest);
      if steps[n - 1].Copy? {
        PassKeepsWithin(trace[n - 1], steps[n - 1].p, l, least, greatest);
        DivisionFacts(Offset(steps[n - 1].p, l) + steps[n - 1].p.n, l.samples);
      }
    }
  }

  /** Over every run whose passes join, for every batch and bucket length: the stamps of ordinary
      saves date every sample late by what the passes that finish batches are late. */
  lemma JoinedRunsAreLate(trace: seq<Buffer>, steps: seq<Step>, n: nat, l: Lengths, least: int, greatest: int)
    requires l.Valid() && |trace| == |steps| + 1 && n <= |steps| && Run(trace, steps, n, l)
    requires Inv(trace[0], l) && trace[0].next == 0 && trace[0].exported == []
    requires AllJoin(trace, steps, n, l) && AllLateBetween(steps, n, l, least, greatest)
    ensures forall i :: 0 <= i < |trace[n].exported| ==> SamplesLate(trace[n].exported[i], l, least, greatest)
  {
    RunKeepsInv(trace, steps, n, l);
    RunKeepsWithin(trace, steps, n, l, least, greatest);
    var exported := trace[n].exported;
    forall i | 0 <= i < |exported| ensures SamplesLate(exported[i], l, least, greatest) {
      assert Sound(exported[i], l) && StampWithin(exported[i], least, greatest);
    }
  }

  /** The batch at the front of a buffer just saved, or where the last pass began, has the stamp due
      after a pass that copied samples exactly if that was not late, and after a save exactly if the
      batch moved to the front was due the stamp it finds there. */
  lemma LastStampIff(m: Buffer, step: Step, l: Lengths)
    requires l.Valid() && l.WholeBuckets() && Enabled(m, step, l) && m.next < |m.slots|
    ensures var after, b := Next(m, step, l), if step.Copy? then m.next else m.current;
            var due := m.slots[b].due;
            after.current < |after.slots| &&
            (OwnStamp(after.slots[after.current])
             <==> match step
                  case Copy(p) =>
                    if p.n > 0 then Lateness(p.t, p.start, l.bucketMs) == 0
                    else due.None? || due.value == FirstTime(p.t, l.batchMs)
                  case Save => b == 0 || due.None? || due.value == m.slots[0].stamp)
  {
    if step.Copy? {
      CopiesIntoFirst(step.p, l);
      DivisionFacts(Offset(step.p, l) + step.p.n, l.samples);
      assert BatchSpan(0, l.batchMs) == 0;
      WholeBucketError(step.p, 0, l);
    }
  }

  // ---------- What the files say ----------

  /** Nothing is lost: a pass copies into cells without samples, and a save finds its current batch
      to be the last one begun, and not the first of the buffer. */
  predicate Orderly(m: Buffer, step: Step, l: Lengths)
    requires l.Valid()
  {
    match step
    case Copy(p) => forall b, o :: m.next <= b < |m.slots| && 0 <= o < |m.slots[b].dates| ==>
      (0 <= SampleAt(p, b - m.next, o, l) < p.n ==> m.slots[b].dates[o].None?)
    case Save => 0 < m.current == m.next
  }

  predicate AllOrderly(trace: seq<Buffer>, steps: seq<Step>, n: nat, l: Lengths)
    requires l.Valid() && |trace| == |steps| + 1 && n <= |steps|
  {
    n == 0 || (AllOrderly(trace, steps, n - 1, l) && Orderly(trace[n - 1], steps[n - 1], l))
  }

  lemma StaysBlankBeyond(m: Buffer, step: Step, l: Lengths)
    requires l.Valid() && Enabled(m, step, l) && Orderly(m, step, l) && BlankBeyond(m) && m.current <= m.next
    ensures var after := Next(m, step, l);
            BlankBeyond(after) && after.current <= after.next
  {
    if step.Copy? {
      DivisionFacts(Offset(step.p, l) + step.p.n, l.samples);
    }
  }

  /** Copying into cells without samples leaves those that are there as they were. */
  lemma PassedGrows(m: Buffer, p: Pass, l: Lengths, x: int)
    requires l.Valid() && m.next < |m.slots| && Orderly(m, Copy(p), l)
    requires Dates(x, AfterPass(m, p, l).slots[m.next], l)
    ensures Dates(x, m.slots[m.next], l)
  {
    var slot, after := m.slots[m.next], AfterPass(m, p, l).slots[m.next];
    DivisionFacts(Offset(p, l) + p.n, l.samples);
    forall o | 0 <= o < |slot.dates| && slot.dates[o].Some?
      ensures slot.dates[o].value == x + o * l.bucketMs
    {
      assert after.dates[o] == slot.dates[o];
    }
  }

  lemma UniformBefore(m: Buffer, p: Pass, l: Lengths, b: nat)
    requires l.Valid() && b <= m.next < |m.slots| && Orderly(m, Copy(p), l)
    requires Uniform(AfterPass(m, p, l).slots[b], l)
    ensures Uniform(m.slots[b], l)
  {
    var x :| Dates(x, AfterPass(m, p, l).slots[b], l);
    if b == m.next {
      PassedGrows(m, p, l, x);
    }
    assert Dates(x, m.slots[b], l);
  }

  lemma SameDates(slot: Slot, other: Slot, l: Lengths)
    requires slot.dates == other.dates && Uniform(slot, l)
    ensures Uniform(other, l)
  {
    var x :| Dates(x, slot, l);
    assert Dates(x, other, l);
  }

  lemma WrittenAt(m: Buffer, b: nat)
    requires b <= m.current && b < |m.slots|
    ensures |m.exported| + b < |Written(m)| && Written(m)[|m.exported| + b] == m.slots[b]
  {
  }

  /** A batch that mixes samples stays among those that will have been written. */
  lemma MixedStays(m: Buffer, step: Step, l: Lengths)
    requires l.Valid() && Enabled(m, step, l) && Orderly(m, step, l) && m.current <= m.next
    requires !AllUniform(Written(m), l)
    ensures !AllUniform(Written(Next(m, step, l)), l)
  {
    var i :| 0 <= i < |Written(m)| && !Uniform(Written(m)[i], l);
    var after := Next(m, step, l);
    if i < |m.exported| {
      assert Written(after)[i] == Written(m)[i];
    } else if step.Save? {
      if i < |m.exported| + m.current {
        assert Written(after)[i] == Written(m)[i];
      } else {
        WrittenAt(after, 0);
        if Uniform(after.slots[0], l) {
          SameDates(after.slots[0], Written(m)[i], l);
        }
        assert !Uniform(Written(after)[|after.exported|], l);
      }
    } else {
      var b := i - |m.exported|;
      WrittenAt(after, b);
      if Uniform(after.slots[b], l) {
        UniformBefore(m, step.p, l, b);
      }
      assert !Uniform(Written(after)[i], l);
    }
  }

  /** A pass that does not join spoils the batch it begins in. */
  lemma MixesCurrent(m: Buffer, p: Pass, l: Lengths)
    requires l.Valid() && Enabled(m, Copy(p), l) && BlankBeyond(m) && AllSound(m.slots, l)
    requires !Joins(m, Copy(p), l)
    ensures !AllUniform(Written(AfterPass(m, p, l)), l)
  {
    var b :| m.next <= b < |m.slots| && !Agrees(m.slots[b], p, b - m.next, l);
    assert !Blank(m.slots[b]);
    AfterCopying(m, p, l, b);
    PassedMixed(m.slots[b], p, b - m.next, l);
    WrittenAt(AfterPass(m, p, l), b);
    assert !Uniform(Written(AfterPass(m, p, l))[|m.exported| + b], l);
  }

  lemma WrittenUniform(m: Buffer, l: Lengths)
    requires Inv(m, l)
    ensures AllUniform(Written(m), l)
  {
    InvIsUniform(m, l);
  }

  lemma {:induction false} WrittenUniformIff(trace: seq<Buffer>, steps: seq<Step>, n: nat, l: Lengths)
    requires l.Valid() && |trace| == |steps| + 1 && n <= |steps|
    requires Run(trace, steps, n, l) && AllOrderly(trace, steps, n, l) && Inv(trace[0], l) && BlankBeyond(trace[0])
    ensures AllUniform(Written(trace[n]), l) <==> AllJoin(trace, steps, n, l)
    ensures BlankBeyond(trace[n]) && trace[n].current <= trace[n].next
  {
    if n == 0 {
      WrittenUniform(trace[0], l);
    } else {
      var m, step := trace[n - 1], steps[n - 1];
      WrittenUniformIff(trace, steps, n - 1, l);
      StaysBlankBeyond(m, step, l);
      if AllJoin(trace, steps, n, l) {
        RunKeepsInv(trace, steps, n, l);
        WrittenUniform(trace[n], l);
      } else if AllJoin(trace, steps, n - 1, l) {
        RunKeepsInv(trace, steps, n - 1, l);
        MixesCurrent(m, step.p, l);
      } else {
        MixedStays(m, step, l);
      }
    }
  }

  lemma DatedIsUniform(slots: seq<Slot>, l: Lengths)
    requires AllDated(slots, l)
    ensures AllUniform(slots, l)
  {
    forall i | 0 <= i < |slots| ensures Uniform(slots[i], l) {
      assert Dates(slots[i].stamp, slots[i], l);
    }
  }

  // ---------- Punctual passes ----------

  predicate Punctual(p: Pass, l: Lengths)
    requires l.Valid()
  {
    Finished(p, l) > 0 ==> Lateness(p.t, p.start, l.bucketMs) == 0
  }

  predicate AllPunctual(steps: seq<Step>, n: nat, l: Lengths)
    requires l.Valid() && n <= |steps|
  {
    n == 0 || (AllPunctual(steps, n - 1, l) && (steps[n - 1].Copy? ==> Punctual(steps[n - 1].p, l)))
  }

  lemma {:induction false} PunctualIsNotLate(steps: seq<Step>, n: nat, l: Lengths)
    requires l.Valid() && l.WholeBuckets() && n <= |steps| && AllPunctual(steps, n, l)
    ensures AllLateBetween(steps, n, l, 0, 0)
  {
    if n == 0 {
    } else {
      PunctualIsNotLate(steps, n - 1, l);
      if steps[n - 1].Copy? {
        var p := steps[n - 1].p;
        forall j | 0 <= j < Finished(p, l) ensures ErrorOf(p, j, l) == 0 {
          WholeBucketError(p, j, l);
        }
      }
    }
  }

  /** A batch that is finished, and will be or has been written, is misdated. */
  predicate Misdated(m: Buffer, l: Lengths) {
    || !AllDated(m.exported, l)
    || exists b :: 0 <= b < |m.slots| && b <= m.current && b < m.next && !Dated(m.slots[b], l)
  }

  lemma MisdatedStays(m: Buffer, step: Step, l: Lengths)
    requires l.Valid() && Enabled(m, step, l) && Orderly(m, step, l) && Misdated(m, l) && m.current <= m.next
    ensures Misdated(Next(m, step, l), l)
  {
    var after := Next(m, step, l);
    if !AllDated(m.exported, l) {
      var i :| 0 <= i < |m.exported| && !Dated(m.exported[i], l);
      assert after.exported[i] == m.exported[i];
    } else {
      var b :| 0 <= b < |m.slots| && b <= m.current && b < m.next && !Dated(m.slots[b], l);
      if step.Copy? {
        DivisionFacts(Offset(step.p, l) + step.p.n, l.samples);
        assert after.slots[b] == m.slots[b];
      } else {
        assert after.exported[|m.exported| + b] == m.slots[b];
      }
    }
  }

  lemma MisdatedIsWritten(m: Buffer, l: Lengths)
    requires Misdated(m, l)
    ensures !AllDated(Written(m), l)
  {
    if !AllDated(m.exported, l) {
      var i :| 0 <= i < |m.exported| && !Dated(m.exported[i], l);
      assert Written(m)[i] == m.exported[i];
    } else {
      var b :| 0 <= b < |m.slots| && b <= m.current && b < m.next && !Dated(m.slots[b], l);
      WrittenAt(m, b);
    }
  }

  /** A late pass that finishes a batch misdates its own first sample there. */
  lemma LatePassMisdatesBatch(m: Buffer, p: Pass, l: Lengths)
    requires l.Valid() && l.WholeBuckets() && Enabled(m, Copy(p), l) && AllSound(m.slots, l)
    requires !Punctual(p, l)
    ensures Misdated(AfterPass(m, p, l), l)
  {
    var after, o := AfterPass(m, p, l), Offset(p, l);
    DivisionFacts(o + p.n, l.samples);
    PassError(m, p, l, m.next, o);
    assert !Dated(after.slots[m.next], l);
  }

  lemma {:induction false} LateRunsAreMisdated(trace: seq<Buffer>, steps: seq<Step>, n: nat, l: Lengths)
    requires l.Valid() && l.WholeBuckets() && |trace| == |steps| + 1 && n <= |steps| && Inv(trace[0], l)
    requires Run(trace, steps, n, l) && AllOrderly(trace, steps, n, l) && AllJoin(trace, steps, n, l)
    requires !AllPunctual(steps, n, l)
    ensures Misdated(trace[n], l)
  {
    if n == 0 {
    } else {
      RunKeepsInv(trace, steps, n - 1, l);
      if AllPunctual(steps, n - 1, l) {
        LatePassMisdatesBatch(trace[n - 1], steps[n - 1].p, l);
      } else {
        LateRunsAreMisdated(trace, steps, n - 1, l);
        MisdatedStays(trace[n - 1], steps[n - 1], l);
      }
    }
  }

  lemma WrittenDatedIff(m: Buffer, l: Lengths)
    requires Inv(m, l) && StampsWithin(m.slots, m.next, 0, 0) && StampsWithin(m.exported, |m.exported|, 0, 0)
    ensures AllDated(Written(m), l) <==> (m.current < |m.slots| ==> OwnStamp(m.slots[m.current]))
  {
    forall b | 0 <= b < |m.exported| ensures Dated(m.exported[b], l) {
      assert StampWithin(m.exported[b], 0, 0);
      SoundIsUniform(m.exported[b], l);
    }
    forall b | 0 <= b < |m.slots| && b < m.next ensures Dated(m.slots[b], l) {
      assert StampWithin(m.slots[b], 0, 0);
      SoundIsUniform(m.slots[b], l);
    }
    if m.current < |m.slots| {
      SoundIsUniform(m.slots[m.current], l);
      WrittenAt(m, m.current);
    }
  }

  lemma PunctualRunsAreDated(trace: seq<Buffer>, steps: seq<Step>, n: nat, l: Lengths)
    requires l.Valid() && l.WholeBuckets() && |trace| == |steps| + 1 && n <= |steps| && Inv(trace[0], l)
    requires Run(trace, steps, n, l) && AllJoin(trace, steps, n, l) && AllPunctual(steps, n, l)
    requires trace[0].next == 0 && trace[0].exported == []
    ensures var m := trace[n];
            AllDated(Written(m), l) <==> (m.current < |m.slots| ==> OwnStamp(m.slots[m.current]))
  {
    RunKeepsInv(trace, steps, n, l);
    PunctualIsNotLate(steps, n, l);
    RunKeepsWithin(trace, steps, n, l, 0, 0);
    WrittenDatedIff(trace[n], l);
  }

  /** Over every run in which nothing is lost, batches being whole numbers of buckets: once the
      program has ended every stamp written dates all samples of its batch, if and only if every
      pass joined, none that finished a batch was late, and the last batch written has the stamp
      due. */
  lemma ExportedStampsDatedIff(trace: seq<Buffer>, steps: seq<Step>, n: nat, l: Lengths)
    requires l.Valid() && l.WholeBuckets() && |trace| == |steps| + 1 && n <= |steps|
    requires Run(trace, steps, n, l) && AllOrderly(trace, steps, n, l) && Inv(trace[0], l) && BlankBeyond(trace[0])
    requires trace[0].next == 0 && trace[0].exported == []
    ensures var m := trace[n];
            AllDated(Written(m), l)
            <==> AllJoin(trace, steps, n, l) && AllPunctual(steps, n, l)
                 && (m.current < |m.slots| ==> OwnStamp(m.slots[m.current]))
  {
    var m := trace[n];
    WrittenUniformIff(trace, steps, n, l);
    if AllDated(Written(m), l) {
      DatedIsUniform(Written(m), l);
    }
    if AllJoin(trace, steps, n, l) {
      if AllPunctual(steps, n, l) {
        PunctualRunsAreDated(trace, steps, n, l);
      } else {
        LateRunsAreMisdated(trace, steps, n, l);
        MisdatedIsWritten(m, l);
      }
    }
  }

  // ---------- One pass after another ----------

  /** When nothing is lost, joining is about the batch in which the pass begins: if it holds samples,
      the pass must be due the same stamp. */
  lemma JoinsIff(m: Buffer, p: Pass, l: Lengths)
    requires l.Valid() && AllSound(m.slots, l) && BlankBeyond(m) && m.next < |m.slots| && Orderly(m, Copy(p), l)
    ensures Joins(m, Copy(p), l)
            <==> p.n == 0 || Blank(m.slots[m.next]) || m.slots[m.next].due == Some(StampDue(p, 0, l))
  {
    CopiesIntoFirst(p, l);
    assert Joins(m, Copy(p), l) <==> Agrees(m.slots[m.next], p, 0, l) by {
      assert forall b :: m.next < b < |m.slots| ==> Agrees(m.slots[b], p, b - m.next, l);
    }
    if !Blank(m.slots[m.next]) {
      var o :| 0 <= o < l.samples && m.slots[m.next].dates[o].Some?;
      assert !(0 <= SampleAt(p, m.next - m.next, o, l) < p.n);
    }
  }

  /** Where a pass begins, counted in cells of the whole buffer. */
  function FirstCell(next: nat, p: Pass, l: Lengths): int
    requires l.Valid()
  {
    Cell(next, Offset(p, l), l.samples)
  }

  lemma SameDueIff(next: nat, p: Pass, b: nat, q: Pass, l: Lengths)
    requires l.Valid() && next <= b
    ensures StampDue(p, b - next, l) == StampDue(q, 0, l)
            <==> q.start - p.start == (FirstCell(b, q, l) - FirstCell(next, p, l)) * l.bucketMs
  {
    var d, x, y := l.bucketMs, (b - next) * l.samples - Offset(p, l), 0 - Offset(q, l) as int;
    assert (b - next) * l.samples == b * l.samples - next * l.samples;
    assert FirstCell(b, q, l) - FirstCell(next, p, l) == x - y;
    assert (x - y) * d == x * d - y * d;
    assert StampDue(q, 0, l) == q.start + y * d;
  }

  /** The next pass begins in a batch where samples of this one stay. One stamp could then date the
      batch exactly if the two generations began as far apart as the cells of their first buckets
      are; and its stamp does if also the later pass was not late. */
  lemma RestampingIff(m: Buffer, p: Pass, q: Pass, l: Lengths)
    requires l.Valid() && AllSound(m.slots, l) && Enabled(m, Copy(p), l) && Joins(m, Copy(p), l) && q.n > 0
    requires var mid := AfterPass(m, p, l);
             CopiesInto(p, mid.next - m.next, l) && Survives(mid.slots[mid.next], q, 0, l)
    ensures var mid := AfterPass(m, p, l);
            var slot := AfterPass(mid, q, l).slots[mid.next];
            && (Uniform(slot, l)
                <==> q.start - p.start == (FirstCell(mid.next, q, l) - FirstCell(m.next, p, l)) * l.bucketMs)
            && (l.WholeBuckets() ==>
                  (Dated(slot, l) <==> Uniform(slot, l) && Lateness(q.t, q.start, l.bucketMs) == 0))
  {
    var mid := AfterPass(m, p, l);
    assert mid.next >= m.next by {
      DivisionFacts(Offset(p, l) + p.n, l.samples);
    }
    PassKeepsSound(m, p, l);
    DueAfterPass(m, p, l);
    BeginsWith(mid, q, l);
    SameDueIff(m.next, p, mid.next, q, l);
    RestampedIff(mid.slots[mid.next], q, l);
  }

  lemma DueAfterPass(m: Buffer, p: Pass, l: Lengths)
    requires l.Valid() && Enabled(m, Copy(p), l)
    requires m.next <= AfterPass(m, p, l).next && CopiesInto(p, AfterPass(m, p, l).next - m.next, l)
    ensures var mid := AfterPass(m, p, l);
            mid.next < |mid.slots| && mid.slots[mid.next].due == Some(StampDue(p, mid.next - m.next, l))
  {
  }

  lemma BeginsWith(m: Buffer, p: Pass, l: Lengths)
    requires l.Valid() && m.next < |m.slots|
    ensures AfterPass(m, p, l).slots[m.next] == Passed(m.slots[m.next], p, 0, l)
  {
    DivisionFacts(Offset(p, l) + p.n, l.samples);
  }

  lemma RestampedIff(slot: Slot, p: Pass, l: Lengths)
    requires l.Valid() && Sound(slot, l) && Survives(slot, p, 0, l) && p.n > 0
    ensures var after := Passed(slot, p, 0, l);
            && (Uniform(after, l) <==> slot.due == Some(StampDue(p, 0, l)))
            && (l.WholeBuckets() ==>
                  (Dated(after, l) <==> Uniform(after, l) && Lateness(p.t, p.start, l.bucketMs) == 0))
  {
    var after := Passed(slot, p, 0, l);
    CopiesIntoFirst(p, l);
    if l.WholeBuckets() {
      WholeBucketError(p, 0, l);
    }
    if Agrees(slot, p, 0, l) {
      PassedSound(slot, p, 0, l);
      SoundIsUniform(after, l);
    } else {
      PassedMixed(slot, p, 0, l);
    }
  }
}
