/** Whether the time stamps written with the batches date their samples
    (src/millisecond_bandwidth_output.cc). */
module BatchStamps {
  import opened Wrappers
  import opened Arithmetic
  import opened BatchBuffer
  import opened BatchTimes

  /** A batch: its time stamp as in the source; as history, when the bucket of each sample in it began,
      by its place in its generation, and the stamp due for the last pass that copied into it. */
  datatype Slot = Slot(stamp: int, dates: seq<Option<int>>, due: Option<int>)

  /** The batches of the buffer and its cursors; as history, the batches exported. */
  datatype Buffer = Buffer(slots: seq<Slot>, current: nat, next: nat, exported: seq<Slot>)

  /** The lengths of a batch in samples and milliseconds, and of a bucket. */
  datatype Lengths = Lengths(samples: nat, bucketMs: nat, batchMs: nat) {
    predicate Valid() { samples > 0 && bucketMs > 0 && batchMs > 0 }
    predicate WholeBuckets() { batchMs == samples * bucketMs }
  }

  /** A pass registers time `t` and copies `n` samples of every series, those of a generation of
      buckets that began at `start`, by the same clock. */
  datatype Pass = Pass(t: nat, start: int, n: nat)

  datatype Step = Copy(p: Pass) | Save

  function Offset(p: Pass, l: Lengths): (o: nat)
    requires l.Valid()
    ensures o < l.samples
  {
    ClockOffset(p.t, l.bucketMs, l.samples)
  }

  /** The number, within the pass, of the sample for cell `o` of its `j`-th batch. */
  function SampleAt(p: Pass, j: nat, o: nat, l: Lengths): int
    requires l.Valid()
  {
    Cell(j, o, l.samples) - Offset(p, l)
  }

  /** The pass copies into its `j`-th batch, and does not merely end at its beginning. */
  predicate CopiesInto(p: Pass, j: nat, l: Lengths)
    requires l.Valid()
  {
    p.n > 0 && Cell(j, 0, l.samples) < Offset(p, l) + p.n
  }

  /** The stamp due for what a pass copies into its `j`-th batch. */
  function StampDue(p: Pass, j: nat, l: Lengths): int
    requires l.Valid()
  {
    Due(p.start, p.t, j, l.samples, l.bucketMs)
  }

  function PassedTo(next: nat, p: Pass, l: Lengths): (b: nat)
    requires l.Valid()
  {
    next + (Offset(p, l) + p.n) / l.samples
  }

  /** What a pass makes of its `j`-th batch: it is stamped anew, whatever it holds. */
  function Passed(slot: Slot, p: Pass, j: nat, l: Lengths): Slot
    requires l.Valid()
  {
    Slot(Given(p.t, j, l.batchMs),
         seq(|slot.dates|, o requires 0 <= o < |slot.dates| =>
           var k := SampleAt(p, j, o, l); if 0 <= k < p.n then Some(Began(p.start, k, l.bucketMs)) else slot.dates[o]),
         if CopiesInto(p, j, l) then Some(StampDue(p, j, l)) else slot.due)
  }

  function Cleared(slot: Slot): Slot {
    Slot(slot.stamp, seq(|slot.dates|, _ => None), None)
  }

  /** The samples of the current batch move to the front of the buffer; its stamp does not. */
  function Shifted(slots: seq<Slot>, u: nat): seq<Slot>
    requires u < |slots|
  {
    seq(|slots|, b requires 0 <= b < |slots| =>
      if b == 0 && u > 0 then Slot(slots[0].stamp, slots[u].dates, slots[u].due)
      else if b <= u then Cleared(slots[b]) else slots[b])
  }

  predicate Enabled(m: Buffer, step: Step, l: Lengths)
    requires l.Valid()
  {
    match step
    case Copy(p) => PassedTo(m.next, p, l) < |m.slots|
    case Save => m.current < |m.slots|
  }

  function AfterPass(m: Buffer, p: Pass, l: Lengths): Buffer
    requires l.Valid()
  {
    var to := PassedTo(m.next, p, l);
    Buffer(seq(|m.slots|, b requires 0 <= b < |m.slots| =>
             if m.next <= b <= to then Passed(m.slots[b], p, b - m.next, l) else m.slots[b]),
           m.next, to, m.exported)
  }

  function Next(m: Buffer, step: Step, l: Lengths): Buffer
    requires l.Valid() && Enabled(m, step, l)
  {
    match step
    case Copy(p) => AfterPass(m, p, l)
    case Save => Buffer(Shifted(m.slots, m.current), 0, 0, m.exported + m.slots[..m.current])
  }

  /** Every batch written once the program ends: the save at the end includes the current one. */
  function Written(m: Buffer): seq<Slot> {
    m.exported + m.slots[..if m.current + 1 < |m.slots| then m.current + 1 else |m.slots|]
  }

  // ---------- Batches and their stamps ----------

  /** Stamp `x` and the place in the batch give every sample its date. */
  predicate Dates(x: int, slot: Slot, l: Lengths) {
    forall o :: 0 <= o < |slot.dates| && slot.dates[o].Some? ==> slot.dates[o].value == x + o * l.bucketMs
  }

  predicate Dated(slot: Slot, l: Lengths) {
    Dates(slot.stamp, slot, l)
  }

  ghost predicate Uniform(slot: Slot, l: Lengths) {
    exists x :: Dates(x, slot, l)
  }

  predicate Blank(slot: Slot) {
    forall o :: 0 <= o < |slot.dates| ==> slot.dates[o].None?
  }

  predicate AllDated(slots: seq<Slot>, l: Lengths) {
    forall b :: 0 <= b < |slots| ==> Dated(slots[b], l)
  }

  ghost predicate AllUniform(slots: seq<Slot>, l: Lengths) {
    forall b :: 0 <= b < |slots| ==> Uniform(slots[b], l)
  }

  /** Some sample of the batch is left when the pass has copied into it. */
  predicate Survives(slot: Slot, p: Pass, j: nat, l: Lengths)
    requires l.Valid()
  {
    exists o :: 0 <= o < |slot.dates| && slot.dates[o].Some? && !(0 <= SampleAt(p, j, o, l) < p.n)
  }

  /** The condition on clocks and cells for one batch. */
  predicate Agrees(slot: Slot, p: Pass, j: nat, l: Lengths)
    requires l.Valid()
  {
    CopiesInto(p, j, l) && Survives(slot, p, j, l) ==> slot.due == Some(StampDue(p, j, l))
  }

  /** Wherever a pass copies into a batch that keeps earlier samples, its generation needs the stamp
      that is due there already. */
  predicate Joins(m: Buffer, step: Step, l: Lengths)
    requires l.Valid()
  {
    step.Copy? ==>
      forall b :: m.next <= b < |m.slots| ==> Agrees(m.slots[b], step.p, b - m.next, l)
  }

  /** The due stamp dates all samples, and there is one if there are any. */
  predicate Sound(slot: Slot, l: Lengths) {
    && |slot.dates| == l.samples
    && (slot.due.None? ==> Blank(slot))
    && (slot.due.Some? ==> Dates(slot.due.value, slot, l) && !Blank(slot))
  }

  predicate OwnStamp(slot: Slot) {
    slot.due.Some? ==> slot.stamp == slot.due.value
  }

  lemma SoundIsUniform(slot: Slot, l: Lengths)
    requires Sound(slot, l)
    ensures Uniform(slot, l)
    ensures Dated(slot, l) <==> OwnStamp(slot)
  {
    if slot.due.Some? {
      assert Dates(slot.due.value, slot, l);
    } else {
      assert Dates(0, slot, l);
    }
  }

  lemma CopiesIntoIff(p: Pass, j: nat, l: Lengths) returns (o: nat)
    requires l.Valid()
    ensures o < l.samples
    ensures CopiesInto(p, j, l) ==> 0 <= SampleAt(p, j, o, l) < p.n
    ensures !CopiesInto(p, j, l) ==> forall c :: 0 <= c < l.samples ==> !(0 <= SampleAt(p, j, c, l) < p.n)
  {
    o := if j == 0 then Offset(p, l) else 0;
    ProductNonNegative(j, l.samples);
    MulStep(0, j, l.samples);
  }

  lemma PassedDates(slot: Slot, p: Pass, j: nat, l: Lengths, o: nat)
    requires l.Valid() && o < |slot.dates|
    ensures var after, k := Passed(slot, p, j, l), SampleAt(p, j, o, l);
            if 0 <= k < p.n then after.dates[o] == Some(StampDue(p, j, l) + o * l.bucketMs)
            else after.dates[o] == slot.dates[o]
  {
    var k := SampleAt(p, j, o, l);
    if 0 <= k < p.n {
      DueDates(p.start, p.t, j, o, k, l.samples, l.bucketMs);
    }
  }

  /** A pass that agrees keeps a batch sound. */
  lemma PassedSound(slot: Slot, p: Pass, j: nat, l: Lengths)
    requires l.Valid() && Sound(slot, l) && Agrees(slot, p, j, l)
    ensures Sound(Passed(slot, p, j, l), l)
  {
    var after := Passed(slot, p, j, l);
    var own := CopiesIntoIff(p, j, l);
    forall o | 0 <= o < |slot.dates| && after.dates[o].Some?
      ensures after.due.Some? && after.dates[o].value == after.due.value + o * l.bucketMs
    {
      PassedDates(slot, p, j, l, o);
    }
    if CopiesInto(p, j, l) {
      PassedDates(slot, p, j, l, own);
      assert after.dates[own].Some?;
    } else {
      assert after.dates == slot.dates;
    }
  }

  /** One that does not leaves the batch with samples that no stamp dates together. */
  lemma PassedMixed(slot: Slot, p: Pass, j: nat, l: Lengths)
    requires l.Valid() && Sound(slot, l) && !Agrees(slot, p, j, l)
    ensures !Uniform(Passed(slot, p, j, l), l)
  {
    var after := Passed(slot, p, j, l);
    var own := CopiesIntoIff(p, j, l);
    var kept :| 0 <= kept < |slot.dates| && slot.dates[kept].Some? && !(0 <= SampleAt(p, j, kept, l) < p.n);
    PassedDates(slot, p, j, l, own);
    PassedDates(slot, p, j, l, kept);
    assert after.dates[own].Some? && after.dates[kept].Some?;
    forall x | Dates(x, after, l) ensures false {
    }
  }

  // ---------- One step ----------

  predicate AllSound(slots: seq<Slot>, l: Lengths) {
    forall b :: 0 <= b < |slots| ==> Sound(slots[b], l)
  }

  predicate Inv(m: Buffer, l: Lengths) {
    && AllSound(m.slots, l) && AllSound(m.exported, l)
    && m.current <= m.next
  }

  lemma CopiesIntoBefore(p: Pass, j: nat, l: Lengths)
    requires l.Valid() && j < (Offset(p, l) + p.n) / l.samples
    ensures CopiesInto(p, j, l)
  {
    DivisionFacts(Offset(p, l) + p.n, l.samples);
    MulStep(j, (Offset(p, l) + p.n) / l.samples, l.samples);
  }

  lemma CopiesIntoFirst(p: Pass, l: Lengths)
    requires l.Valid()
    ensures CopiesInto(p, 0, l) <==> p.n > 0
  {
  }

  lemma PassKeepsSound(m: Buffer, p: Pass, l: Lengths)
    requires l.Valid() && AllSound(m.slots, l) && Joins(m, Copy(p), l)
    ensures AllSound(AfterPass(m, p, l).slots, l)
  {
    var after := AfterPass(m, p, l);
    forall b | 0 <= b < |m.slots| ensures Sound(after.slots[b], l) {
      if m.next <= b <= after.next {
        PassedSound(m.slots[b], p, b - m.next, l);
      }
    }
  }

  lemma StepKeepsInv(m: Buffer, step: Step, l: Lengths)
    requires l.Valid() && Inv(m, l) && Enabled(m, step, l) && Joins(m, step, l)
    ensures Inv(Next(m, step, l), l)
  {
    match step
    case Copy(p) =>
      PassKeepsSound(m, p, l);
      DivisionFacts(Offset(p, l) + p.n, l.samples);
    case Save =>
  }

  lemma AfterCopying(m: Buffer, p: Pass, l: Lengths, b: nat)
    requires l.Valid() && m.next <= b < |m.slots| && CopiesInto(p, b - m.next, l)
    ensures AfterPass(m, p, l).slots[b] == Passed(m.slots[b], p, b - m.next, l)
  {
    var q := (Offset(p, l) + p.n) / l.samples;
    DivisionFacts(Offset(p, l) + p.n, l.samples);
    if q < b - m.next {
      MulStep(q, b - m.next, l.samples);
    }
  }

  /** Exactly the passes that join leave every batch of the buffer with samples that one stamp
      could date. */
  lemma StepUniformIff(m: Buffer, step: Step, l: Lengths)
    requires l.Valid() && Inv(m, l) && Enabled(m, step, l)
    ensures var after := Next(m, step, l);
            AllUniform(after.slots, l) && AllUniform(after.exported, l) <==> Joins(m, step, l)
  {
    if Joins(m, step, l) {
      StepKeepsInv(m, step, l);
      InvIsUniform(Next(m, step, l), l);
    } else {
      var b :| m.next <= b < |m.slots| && !Agrees(m.slots[b], step.p, b - m.next, l);
      AfterCopying(m, step.p, l, b);
      PassedMixed(m.slots[b], step.p, b - m.next, l);
      assert !Uniform(Next(m, step, l).slots[b], l);
    }
  }

  lemma InvIsUniform(m: Buffer, l: Lengths)
    requires Inv(m, l)
    ensures AllUniform(m.slots, l) && AllUniform(m.exported, l)
  {
    forall b | 0 <= b < |m.slots| ensures Uniform(m.slots[b], l) {
      SoundIsUniform(m.slots[b], l);
    }
    forall b | 0 <= b < |m.exported| ensures Uniform(m.exported[b], l) {
      SoundIsUniform(m.exported[b], l);
    }
  }

  // ---------- Runs ----------

  /** A run: `trace[i + 1]` follows from `trace[i]` by `steps[i]`. */
  predicate Run(trace: seq<Buffer>, steps: seq<Step>, n: nat, l: Lengths)
    requires l.Valid() && |trace| == |steps| + 1 && n <= |steps|
  {
    n > 0 ==>
      && Run(trace, steps, n - 1, l)
      && Enabled(trace[n - 1], steps[n - 1], l) && trace[n] == Next(trace[n - 1], steps[n - 1], l)
  }

  predicate AllJoin(trace: seq<Buffer>, steps: seq<Step>, n: nat, l: Lengths)
    requires l.Valid() && |trace| == |steps| + 1 && n <= |steps|
  {
    n == 0 || (AllJoin(trace, steps, n - 1, l) && Joins(trace[n - 1], steps[n - 1], l))
  }

  /** Up to state `n` one stamp could always have dated the samples of any one batch. */
  ghost predicate AlwaysUniform(trace: seq<Buffer>, n: nat, l: Lengths)
    requires n < |trace|
  {
    && (n == 0 || AlwaysUniform(trace, n - 1, l))
    && AllUniform(trace[n].slots, l) && AllUniform(trace[n].exported, l)
  }

  lemma {:induction false} RunKeepsInv(trace: seq<Buffer>, steps: seq<Step>, n: nat, l: Lengths)
    requires l.Valid() && |trace| == |steps| + 1 && n <= |steps|
    requires Run(trace, steps, n, l) && AllJoin(trace, steps, n, l) && Inv(trace[0], l)
    ensures Inv(trace[n], l)
  {
    if n == 0 {
    } else {
      RunKeepsInv(trace, steps, n - 1, l);
      StepKeepsInv(trace[n - 1], steps[n - 1], l);
    }
  }

  /** Over every run, whatever is overwritten or cleared on the way: at all times each batch of the
      buffer and of the files holds samples that one stamp could date, if and only if every
      pass joins. */
  lemma {:induction false} BatchesUniformIff(trace: seq<Buffer>, steps: seq<Step>, n: nat, l: Lengths)
    requires l.Valid() && |trace| == |steps| + 1 && n <= |steps| && Run(trace, steps, n, l) && Inv(trace[0], l)
    ensures AlwaysUniform(trace, n, l) <==> AllJoin(trace, steps, n, l)
  {
    if n == 0 {
      InvIsUniform(trace[0], l);
    } else {
      BatchesUniformIff(trace, steps, n - 1, l);
      if AllJoin(trace, steps, n - 1, l) {
        RunKeepsInv(trace, steps, n - 1, l);
        StepUniformIff(trace[n - 1], steps[n - 1], l);
      }
    }
  }

  /** The freshly allocated buffer. */
  function Fresh(times: seq<int>, S: nat): Buffer {
    Buffer(seq(|times|, b requires 0 <= b < |times| => Slot(times[b], seq(S, _ => None), None)), 0, 0, [])
  }

  predicate BlankBeyond(m: Buffer) {
    forall b :: m.next < b < |m.slots| ==> Blank(m.slots[b])
  }

  lemma FreshIsSound(times: seq<int>, l: Lengths)
    ensures Inv(Fresh(times, l.samples), l) && BlankBeyond(Fresh(times, l.samples))
  {
  }
}
