/** What the exported batches and the buffer together record over a run
    (src/millisecond_bandwidth_output.cc). */
module BatchRecord {
  import opened Arithmetic
  import opened RealSums
  import opened BatchBuffer
  import opened BatchTimes

  /** One series: what was exported, the buffer, its cursors; as history, the samples of all
      passes and the cell of the first one. */
  datatype Record = Record(exported: Rows, rows: Rows, current: nat, next: nat, samples: seq<real>, origin: nat)

  /** `Pass` registers the time and copies; `offset` is where the clock says the pass begins. */
  datatype Step = Pass(offset: nat, data: seq<real>) | Save

  ghost predicate StepTo(r: Record, step: Step, after: Record, S: nat) {
    match step
    case Pass(offset, data) =>
      && after.exported == r.exported
      && Copied(r.rows, after.rows, S, Cell(r.next, offset, S), data)
      && after.current == r.next
      && after.next == r.next + (if S > 0 then (offset + |data|) / S else 0)
      && after.samples == r.samples + data && after.origin == r.origin
    case Save =>
      && r.current < |r.rows|
      && after == Record(r.exported + r.rows[..r.current], Saved(r.rows, r.current, S), 0, 0, r.samples, r.origin)
  }

  /** The circumstances in which nothing is lost or moved: every pass begins where the last one
      ended and fits, and every save finds its current batch to be the last one begun, and not
      the first of the buffer. */
  predicate Orderly(r: Record, step: Step, S: nat) {
    match step
    case Pass(offset, data) =>
      && offset < S
      && Cell(|r.exported| + r.next, offset, S) == r.origin + |r.samples|
      && Cell(r.next, offset, S) + |data| < Cell(|r.rows|, 0, S)
    case Save => 0 < r.current == r.next < |r.rows|
  }

  function Sample(samples: seq<real>, k: int): real {
    if 0 <= k < |samples| then samples[k] else 0.0
  }

  /** Cell `k` of the exported batches and the buffer holds the sample due there. */
  ghost predicate Intact(record: Rows, samples: seq<real>, origin: nat, S: nat) {
    forall c, o :: 0 <= c < |record| && 0 <= o < |record[c]| ==>
      record[c][o] == Sample(samples, Cell(c, o, S) - origin)
  }

  /** The last sample lies in the batch where the next pass begins, or just before it. */
  predicate Cursor(r: Record, S: nat) {
    r.next < |r.rows| && r.origin + |r.samples| < Cell(|r.exported| + r.next, S, S)
  }

  ghost predicate Inv(r: Record, S: nat) {
    && S > 0
    && Shaped(r.exported, |r.exported|, S) && Shaped(r.rows, |r.rows|, S)
    && Intact(r.exported + r.rows, r.samples, r.origin, S)
    && Cursor(r, S)
  }

  lemma CellsAdd(a: nat, b: nat, o: nat, S: nat)
    ensures Cell(a + b, o, S) == Cell(a, 0, S) + Cell(b, o, S)
    ensures Cell(a + 1, o, S) == Cell(a, S, S) + o
  {
    assert (a + b) * S == a * S + b * S;
    Distribute(a, 0, S);
  }

  lemma ExportedCell(samples: seq<real>, data: seq<real>, origin: int, S: nat, c: nat, o: nat, b: nat, p: nat)
    requires c < b && o < S && p < S && Cell(b, p, S) == origin + |samples|
    ensures Sample(samples + data, Cell(c, o, S) - origin) == Sample(samples, Cell(c, o, S) - origin)
  {
    CellOrder(c, o, b, p, S);
  }

  lemma BufferCell(before: Rows, rows: Rows, S: nat, base: nat, next: nat, offset: nat, data: seq<real>,
                   samples: seq<real>, origin: int, b: nat, o: nat)
    requires Copied(before, rows, S, Cell(next, offset, S), data) && b < |before| && o < |before[b]|
    requires before[b][o] == Sample(samples, Cell(base + b, o, S) - origin)
    requires Cell(base + next, offset, S) == origin + |samples|
    ensures rows[b][o] == Sample(samples + data, Cell(base + b, o, S) - origin)
  {
    CellsAdd(base, b, o, S);
    CellsAdd(base, next, offset, S);
  }

  lemma PassKeepsIntact(exported: Rows, before: Rows, rows: Rows, S: nat, next: nat, offset: nat, data: seq<real>,
                        samples: seq<real>, origin: nat)
    requires Shaped(exported, |exported|, S) && Shaped(before, |before|, S) && offset < S
    requires Intact(exported + before, samples, origin, S)
    requires Cell(|exported| + next, offset, S) == origin + |samples|
    requires Copied(before, rows, S, Cell(next, offset, S), data)
    ensures Intact(exported + rows, samples + data, origin, S)
  {
    var base := |exported|;
    forall c, o | 0 <= c < base + |rows| && 0 <= o < S
      ensures (exported + rows)[c][o] == Sample(samples + data, Cell(c, o, S) - origin)
    {
      assert (exported + before)[c][o] == Sample(samples, Cell(c, o, S) - origin);
      if c < base {
        ExportedCell(samples, data, origin, S, c, o, base + next, offset);
      } else {
        BufferCell(before, rows, S, base, next, offset, data, samples, origin, c - base, o);
      }
    }
  }

  lemma PassKeepsInv(r: Record, step: Step, after: Record, S: nat)
    requires step.Pass? && Inv(r, S) && Orderly(r, step, S) && StepTo(r, step, after, S)
    ensures Inv(after, S)
  {
    PassKeepsIntact(r.exported, r.rows, after.rows, S, r.next, step.offset, step.data, r.samples, r.origin);
    CursorMoves(|r.exported|, r.next, step.offset, |step.data|, |r.rows|, S);
  }

  lemma CursorMoves(base: nat, b: nat, o: nat, n: nat, B: nat, S: nat)
    requires o < S && Cell(b, o, S) + n < Cell(B, 0, S)
    ensures var c := b + (o + n) / S;
            c < B && Cell(base + b, o, S) + n < Cell(base + c, S, S)
  {
    var c := b + (o + n) / S;
    DivisionFacts(o + n, S);
    CellsAdd(b, (o + n) / S, 0, S);
    CellsAdd(base, b, o, S);
    CellsAdd(base, c, S, S);
    if c >= B {
      MulStep(B, c, S);
    }
  }

  lemma LaterBatchesEmpty(r: Record, S: nat)
    requires Inv(r, S)
    ensures AllZeroFrom(r.rows, r.next + 1)
  {
    var base := |r.exported|;
    forall c | r.next + 1 <= c < |r.rows| ensures AllZero(r.rows[c]) {
      forall o | 0 <= o < |r.rows[c]| ensures r.rows[c][o] == 0.0 {
        assert (r.exported + r.rows)[base + c][o] == Sample(r.samples, Cell(base + c, o, S) - r.origin);
        BeyondCursor(r, S, base + c, o);
      }
    }
  }

  lemma EmptyBatchesAppended(r: Record, S: nat, record: Rows, u: nat)
    requires record == r.exported + r.rows && Intact(record, r.samples, r.origin, S) && Cursor(r, S)
    ensures Intact(record + ZeroRows(u, S), r.samples, r.origin, S)
  {
    var longer := record + ZeroRows(u, S);
    forall c, o | 0 <= c < |longer| && 0 <= o < |longer[c]|
      ensures longer[c][o] == Sample(r.samples, Cell(c, o, S) - r.origin)
    {
      if c >= |record| {
        BeyondCursor(r, S, c, o);
      }
    }
  }

  lemma SaveKeepsInv(r: Record, after: Record, S: nat)
    requires Inv(r, S) && Orderly(r, Save, S) && StepTo(r, Save, after, S)
    ensures Inv(after, S)
  {
    var u, B := r.current, |r.rows|;
    var record := r.exported + r.rows;
    LaterBatchesEmpty(r, S);
    SaveKeepsRecordIff(r.rows, u, B, S);
    assert after.exported + after.rows == record + ZeroRows(u, S) by {
      assert after.exported + after.rows == r.exported + (r.rows[..u] + Saved(r.rows, u, S));
    }
    EmptyBatchesAppended(r, S, record, u);
    assert Shaped(after.rows, B, S) && Shaped(after.exported, |after.exported|, S);
  }

  lemma BeyondCursor(r: Record, S: nat, c: nat, o: nat)
    requires Cursor(r, S) && c > |r.exported| + r.next
    ensures Cell(c, o, S) - r.origin >= |r.samples|
  {
    CellsAdd(|r.exported| + r.next, 0, 0, S);
    MulStep(|r.exported| + r.next, c, S);
  }

  lemma StepKeepsInv(r: Record, step: Step, after: Record, S: nat)
    requires Inv(r, S) && Orderly(r, step, S) && StepTo(r, step, after, S)
    ensures Inv(after, S)
  {
    match step
    case Pass(_, _) => PassKeepsInv(r, step, after, S);
    case Save => SaveKeepsInv(r, after, S);
  }

  /** A run: `trace[i + 1]` follows from `trace[i]` by `steps[i]`. */
  ghost predicate Run(trace: seq<Record>, steps: seq<Step>, n: nat, S: nat)
    requires |trace| == |steps| + 1 && n <= |steps|
  {
    n == 0 || (Run(trace, steps, n - 1, S) && StepTo(trace[n - 1], steps[n - 1], trace[n], S))
  }

  predicate AllOrderly(trace: seq<Record>, steps: seq<Step>, n: nat, S: nat)
    requires |trace| == |steps| + 1 && n <= |steps|
  {
    n == 0 || (AllOrderly(trace, steps, n - 1, S) && Orderly(trace[n - 1], steps[n - 1], S))
  }

  /** Over every orderly run, the exported batches followed by the buffer hold every sample ever
      copied exactly once, in order, and zeros everywhere else. */
  lemma {:induction false} NothingLostOrMoved(trace: seq<Record>, steps: seq<Step>, n: nat, S: nat)
    requires |trace| == |steps| + 1 && n <= |steps| && Run(trace, steps, n, S) && AllOrderly(trace, steps, n, S)
    requires Inv(trace[0], S)
    ensures Inv(trace[n], S)
    ensures Intact(trace[n].exported + trace[n].rows, trace[n].samples, trace[n].origin, S)
  {
    if n == 0 {
    } else {
      NothingLostOrMoved(trace, steps, n - 1, S);
      StepKeepsInv(trace[n - 1], steps[n - 1], trace[n], S);
    }
  }

  /** The freshly allocated buffer, when the first pass will begin at `offset`. */
  lemma EmptyBufferIntact(B: nat, S: nat, offset: nat)
    requires B > 0 && offset < S
    ensures Inv(Record([], ZeroRows(B, S), 0, 0, [], offset), S)
  {
    var record := [] + ZeroRows(B, S);
    forall c, o | 0 <= c < |record| && 0 <= o < |record[c]|
      ensures record[c][o] == Sample([], Cell(c, o, S) - offset)
    {
    }
  }

  // ---------- The save at the end ----------

  /** What has been written once the program ends: the save then includes the current batch. */
  function Written(r: Record): Rows {
    r.exported + r.rows[..if r.current + 1 < |r.rows| then r.current + 1 else |r.rows|]
  }

  ghost predicate Found(record: Rows, S: nat, i: nat, x: real) {
    exists c, o :: 0 <= c < |record| && 0 <= o < |record[c]| && Cell(c, o, S) == i && record[c][o] == x
  }

  /** Every sample is in its cell. */
  ghost predicate Complete(record: Rows, samples: seq<real>, origin: nat, S: nat) {
    forall k :: 0 <= k < |samples| ==> Found(record, S, origin + k, samples[k])
  }

  lemma FoundIff(r: Record, S: nat, k: nat)
    requires Inv(r, S) && r.current <= r.next && k < |r.samples|
    ensures Found(Written(r), S, r.origin + k, r.samples[k])
            <==> r.origin + k < Cell(|r.exported| + r.current, S, S)
  {
    var written, record, i := Written(r), r.exported + r.rows, r.origin + k;
    var last := |r.exported| + r.current;
    assert written == record[..last + 1];
    if Found(written, S, i, r.samples[k]) {
      var c, o :| 0 <= c < |written| && 0 <= o < |written[c]| && Cell(c, o, S) == i && written[c][o] == r.samples[k];
      CellsAdd(last, 0, 0, S);
      CellOrder(c, o, last + 1, 0, S);
    }
    if i < Cell(last, S, S) {
      var c, o := i / S, i % S;
      QuotientAndRemainder(i, S, c, o);
      CellOrder(last + 1, 0, c, o, S);
      CellsAdd(last, 0, 0, S);
      assert Cell(c, o, S) == i && written[c][o] == record[c][o] == r.samples[k];
    }
  }

  lemma WrittenCompleteIff(r: Record, S: nat)
    requires Inv(r, S) && r.current <= r.next
    ensures Complete(Written(r), r.samples, r.origin, S)
            <==> r.samples == [] || r.origin + |r.samples| <= Cell(|r.exported| + r.current, S, S)
  {
    if r.samples != [] {
      FoundIff(r, S, |r.samples| - 1);
    }
    forall k | 0 <= k < |r.samples| && r.origin + |r.samples| <= Cell(|r.exported| + r.current, S, S)
      ensures Found(Written(r), S, r.origin + k, r.samples[k])
    {
      FoundIff(r, S, k);
    }
  }

  lemma EndsWithin(b: nat, o: nat, n: nat, S: nat)
    ensures Cell(b, o, S) + n <= Cell(b, S, S) <==> o + n <= S
  {
  }

  lemma FinalSaveAfterPass(r: Record, offset: nat, n: nat, S: nat)
    requires Inv(r, S) && r.current <= r.next && offset < S && n <= |r.samples|
    requires Cell(|r.exported| + r.current, offset, S) + n == r.origin + |r.samples|
    ensures Complete(Written(r), r.samples, r.origin, S) <==> offset + n <= S
  {
    EndsWithin(|r.exported| + r.current, offset, n, S);
    WrittenCompleteIff(r, S);
  }

  lemma AfterPass(r: Record, offset: nat, data: seq<real>, after: Record, S: nat)
    requires Inv(r, S) && Orderly(r, Pass(offset, data), S) && StepTo(r, Pass(offset, data), after, S)
    ensures after.current <= after.next && |data| <= |after.samples|
    ensures Cell(|after.exported| + after.current, offset, S) + |data| == after.origin + |after.samples|
  {
    DivisionFacts(offset + |data|, S);
  }

  /** A save at the end of the program right after a pass leaves no sample out exactly if the pass
      stayed within its first batch; after an ordinary save it leaves none out. */
  lemma FinalSaveAfterStep(r: Record, step: Step, after: Record, S: nat)
    requires Inv(r, S) && Orderly(r, step, S) && StepTo(r, step, after, S)
    ensures Complete(Written(after), after.samples, after.origin, S)
            <==> (step.Pass? ==> step.offset + |step.data| <= S)
  {
    StepKeepsInv(r, step, after, S);
    match step
    case Pass(offset, data) =>
      AfterPass(r, offset, data, after, S);
      FinalSaveAfterPass(after, offset, |data|, S);
    case Save =>
      WrittenCompleteIff(after, S);
  }

  /** Over every orderly run: everything copied has been written when the program ends exactly if
      the last step was a save, or a pass that stayed within the batch in which it began. */
  lemma FinalSaveCompleteIff(trace: seq<Record>, steps: seq<Step>, n: nat, S: nat)
    requires |trace| == |steps| + 1 && 0 < n <= |steps| && Run(trace, steps, n, S) && AllOrderly(trace, steps, n, S)
    requires Inv(trace[0], S)
    ensures Complete(Written(trace[n]), trace[n].samples, trace[n].origin, S)
            <==> (steps[n - 1].Pass? ==> steps[n - 1].offset + |steps[n - 1].data| <= S)
  {
    NothingLostOrMoved(trace, steps, n - 1, S);
    FinalSaveAfterStep(trace[n - 1], steps[n - 1], trace[n], S);
  }

  function Copy(before: Rows, S: nat, start: int, data: seq<real>): Rows {
    seq(|before|, b requires 0 <= b < |before| =>
      seq(|before[b]|, o requires 0 <= o < |before[b]| =>
        var k := Cell(b, o, S) - start; if 0 <= k < |data| then data[k] else before[b][o]))
  }

  lemma CanPass(r: Record, offset: nat, data: seq<real>, S: nat) returns (after: Record)
    requires S > 0
    ensures StepTo(r, Pass(offset, data), after, S)
  {
    after := Record(r.exported, Copy(r.rows, S, Cell(r.next, offset, S), data), r.next,
                    r.next + (offset + |data|) / S, r.samples + data, r.origin);
  }

  lemma OneStepRun(r: Record, step: Step, after: Record, S: nat)
    requires StepTo(r, step, after, S) && Orderly(r, step, S)
    ensures Run([r, after], [step], 1, S) && AllOrderly([r, after], [step], 1, S)
  {
    assert Run([r, after], [step], 0, S) && AllOrderly([r, after], [step], 0, S);
  }

  /** The first pass over a fresh buffer: when it goes beyond its batch, its last samples are
      not written by a save at the end of the program; such as two samples in batches of one. */
  lemma LastSamplesLeftOut(B: nat, S: nat, offset: nat, data: seq<real>) returns (trace: seq<Record>, step: Step)
    requires offset < S < offset + |data| && Cell(0, offset, S) + |data| < Cell(B, 0, S)
    ensures |trace| == 2 && Run(trace, [step], 1, S) && AllOrderly(trace, [step], 1, S) && Inv(trace[0], S)
    ensures trace[1].samples == data && !Complete(Written(trace[1]), data, offset, S)
  {
    var r := Record([], ZeroRows(B, S), 0, 0, [], offset);
    EmptyBufferIntact(B, S, offset);
    step := Pass(offset, data);
    var after := CanPass(r, offset, data, S);
    assert [] + data == data;
    OneStepRun(r, step, after, S);
    FinalSaveAfterStep(r, step, after, S);
    trace := [r, after];
  }

  // ---------- A pass that does not follow on ----------

  function Counting(v: real, n: nat): seq<real> {
    seq(n, i => v + i as real)
  }

  /** A pass that does not begin where the last one ended: there are data for which the sample that
      falls on its first cell is not the one due there. */
  lemma BreaksRecord(r: Record, offset: nat, n: nat, S: nat) returns (data: seq<real>)
    requires Inv(r, S) && offset < S && n > 0 && Cell(r.next, offset, S) + n < Cell(|r.rows|, 0, S)
    requires Cell(|r.exported| + r.next, offset, S) != r.origin + |r.samples|
    ensures |data| == n
    ensures forall rows :: Copied(r.rows, rows, S, Cell(r.next, offset, S), data) ==>
              !Intact(r.exported + rows, r.samples + data, r.origin, S)
  {
    var c := |r.exported| + r.next;
    var k := Cell(c, offset, S) - r.origin;
    data := Counting(Sample(r.samples, k) + 1.0, n);
    forall rows | Copied(r.rows, rows, S, Cell(r.next, offset, S), data)
      ensures !Intact(r.exported + rows, r.samples + data, r.origin, S)
    {
      assert (r.exported + rows)[c][offset] == data[0];
      assert Sample(r.samples + data, k) != data[0];
    }
  }

  /** Whatever the samples are, a pass that fits keeps the record intact exactly if it begins where
      the last one ended. */
  lemma PassKeepsRecordIff(r: Record, offset: nat, n: nat, S: nat)
    requires Inv(r, S) && offset < S && n > 0 && Cell(r.next, offset, S) + n < Cell(|r.rows|, 0, S)
    ensures (forall data, rows :: |data| == n && Copied(r.rows, rows, S, Cell(r.next, offset, S), data) ==>
               Intact(r.exported + rows, r.samples + data, r.origin, S))
            <==> Cell(|r.exported| + r.next, offset, S) == r.origin + |r.samples|
  {
    if Cell(|r.exported| + r.next, offset, S) == r.origin + |r.samples| {
      forall data, rows | |data| == n && Copied(r.rows, rows, S, Cell(r.next, offset, S), data)
        ensures Intact(r.exported + rows, r.samples + data, r.origin, S)
      {
        PassKeepsIntact(r.exported, r.rows, rows, S, r.next, offset, data, r.samples, r.origin);
      }
    } else {
      var data := BreaksRecord(r, offset, n, S);
      assert Copied(r.rows, Copy(r.rows, S, Cell(r.next, offset, S), data), S, Cell(r.next, offset, S), data);
    }
  }

  // ---------- The object's calls are these steps ----------

  ghost function View(b: MillisecondBandwidthOutput, series: Series, exported: Rows, samples: seq<real>,
      origin: nat): Record
    requires series in b.cells
    reads b
  {
    Record(exported, b.cells[series], b.currentBatch, b.nextBatch, samples, origin)
  }

  /** One registration of the time and the copies of all series: the step of each of them. */
  method PassOver(b: MillisecondBandwidthOutput, order: seq<Series>, data: map<Series, seq<real>>, n: nat,
                  now: nat, wallClock: nat, ghost exported: map<Series, Rows>,
                  ghost samples: map<Series, seq<real>>, ghost origin: nat)
    requires b.Valid() && Distinct(order) && (forall s :: s in order <==> s in b.cells)
    requires forall s :: s in order ==> s in data && |data[s]| == n && s in exported && s in samples
    requires b.timeDiff == 0 || b.timeDiff + now >= 0
    requires var o := ClockOffset(b.TimeOf(now, wallClock), b.bucketMs, b.samplesPerBatch);
             Cell(b.nextBatch, o, b.samplesPerBatch) + n < Cell(b.bufferSize, 0, b.samplesPerBatch)
    modifies b
    ensures b.samplesPerBatch > 0 && b.bucketMs > 0 && b.cells.Keys == old(b.cells).Keys
    ensures forall s :: s in order ==>
              StepTo(old(View(b, s, exported[s], samples[s], origin)),
                     Pass(ClockOffset(b.currentTime, b.bucketMs, b.samplesPerBatch), data[s]),
                     View(b, s, exported[s], samples[s] + data[s], origin), b.samplesPerBatch)
  {
    b.RegisterCurrentTimeInMilliseconds(now, wallClock);
    b.CopyOverAll(order, data, n);
  }

  /** Saving: the last message written extends what was exported of every series. */
  method SaveAll(b: MillisecondBandwidthOutput, ghost exported: map<Series, Rows>,
                 ghost samples: map<Series, seq<real>>, ghost origin: nat)
    requires b.Valid() && (forall s :: s in b.cells ==> s in exported && s in samples)
    requires b.currentBatch < b.bufferSize
    modifies b
    ensures b.cells.Keys == old(b.cells).Keys
    ensures |b.out| == |old(b.out)| + 1 && b.out[|b.out| - 1].cells.Keys == b.cells.Keys
    ensures forall s :: s in b.cells ==>
              StepTo(old(View(b, s, exported[s], samples[s], origin)), Save,
                     View(b, s, exported[s] + b.out[|b.out| - 1].cells[s], samples[s], origin), b.samplesPerBatch)
  {
    b.SaveBandwidthStats(false);
  }

  /** The save at the end of the program. */
  method FinalSave(b: MillisecondBandwidthOutput, ghost exported: map<Series, Rows>,
                   ghost samples: map<Series, seq<real>>, ghost origin: nat)
    requires b.Valid() && forall s :: s in b.cells ==> s in exported && s in samples
    modifies b
    ensures |b.out| == |old(b.out)| + 1 && b.out[|b.out| - 1].cells.Keys == b.cells.Keys == old(b.cells).Keys
    ensures forall s :: s in b.cells ==>
              exported[s] + b.out[|b.out| - 1].cells[s] == Written(old(View(b, s, exported[s], samples[s], origin)))
  {
    b.SaveBandwidthStats(true);
  }
}
