/** The millisecond bandwidth buffer (src/millisecond_bandwidth_output.cc,
    src/millisecond_bandwidth_output.h): batches of samples for every NIC and direction, and
    their export. */
module BatchBuffer {
  import opened Arithmetic
  import opened RealSums

  /** The samples of one direction of one NIC. */
  datatype Series = Series(ip: string, tx: bool)

  type Rows = seq<seq<real>>

  predicate Shaped(rows: Rows, B: nat, S: nat) {
    |rows| == B && forall b :: 0 <= b < B ==> |rows[b]| == S
  }

  /** Cells are counted through the batches in order. */
  function Cell(b: nat, o: nat, S: nat): int {
    b * S + o
  }

  lemma CellOrder(b: nat, o: nat, c: nat, p: nat, S: nat)
    requires o < S && p < S
    ensures b < c ==> Cell(b, o, S) + S - o + p <= Cell(c, p, S)
    ensures Cell(b, o, S) == Cell(c, p, S) <==> b == c && o == p
    ensures Cell(b, o, S) >= 0
  {
    MulStep(b, c, S);
    MulStep(c, b, S);
    ProductNonNegative(b, S);
  }

  /** `after` is `before` with `data` written from cell `start` on, and nothing else changed. */
  ghost predicate Copied(before: Rows, after: Rows, S: nat, start: int, data: seq<real>) {
    && |after| == |before|
    && (forall b :: 0 <= b < |before| ==> |after[b]| == |before[b]|)
    && forall b, o :: 0 <= b < |before| && 0 <= o < |before[b]| ==>
         after[b][o] == var k := Cell(b, o, S) - start; if 0 <= k < |data| then data[k] else before[b][o]
  }

  lemma CopyOne(before: Rows, rows: Rows, B: nat, S: nat, start: int, data: seq<real>, i: nat, b: nat, o: nat)
    requires Shaped(before, B, S) && i < |data| && b < B && o < S
    requires Copied(before, rows, S, start, data[..i]) && Cell(b, o, S) == start + i
    ensures Copied(before, rows[b := rows[b][o := data[i]]], S, start, data[..i + 1])
  {
    var after := rows[b := rows[b][o := data[i]]];
    forall c, p | 0 <= c < |before| && 0 <= p < |before[c]|
      ensures after[c][p] == var k := Cell(c, p, S) - start; if 0 <= k < i + 1 then data[k] else before[c][p]
    {
      CellOrder(b, o, c, p, S);
      assert rows[c][p] == var k := Cell(c, p, S) - start; if 0 <= k < i then data[k] else before[c][p];
    }
  }

  /** What SaveBandwidthStats leaves of one series when `u` is the current batch: the batch
      moves to the front and everything before it is cleared, unless it was at the front. */
  function Saved(rows: Rows, u: nat, S: nat): Rows
    requires u < |rows|
  {
    seq(|rows|, b requires 0 <= b < |rows| =>
      if b == 0 && u > 0 then rows[u] else if b <= u then Zeros(S) else rows[b])
  }

  predicate AllZeroFrom(rows: Rows, b: nat) {
    forall c :: b <= c < |rows| ==> AllZero(rows[c])
  }

  function ZeroRows(n: nat, S: nat): Rows {
    seq(n, _ => Zeros(S))
  }

  lemma {:induction false} ShiftedOnlyIfZero(rows: Rows, u: nat, B: nat, S: nat, c: nat)
    requires Shaped(rows, B, S) && 0 < u < B && u < c < B
    requires rows[..u] + Saved(rows, u, S) == rows + ZeroRows(u, S)
    ensures rows[c] == Zeros(S)
    decreases c
  {
    var left, right := rows[..u] + Saved(rows, u, S), rows + ZeroRows(u, S);
    assert left[c] == right[c] == rows[c];
    assert left[c] == Saved(rows, u, S)[c - u];
    if c - u > u {
      ShiftedOnlyIfZero(rows, u, B, S, c - u);
    }
  }

  /** Exporting keeps the record intact, that is, the exported batches followed by the buffer are
      the buffer before followed by empty batches, in exactly these cases: the current batch
      is not the first one and nothing lies beyond it, or it is the first one and empty. */
  lemma SaveKeepsRecordIff(rows: Rows, u: nat, B: nat, S: nat)
    requires Shaped(rows, B, S) && u < B
    ensures rows[..u] + Saved(rows, u, S) == rows + ZeroRows(u, S)
            <==> if u == 0 then AllZero(rows[0]) else AllZeroFrom(rows, u + 1)
  {
    var left, right := rows[..u] + Saved(rows, u, S), rows + ZeroRows(u, S);
    if u == 0 {
      assert left == Saved(rows, 0, S) && right == rows;
      assert left[0] == Zeros(S) && right[0] == rows[0];
      if AllZero(rows[0]) {
        assert rows[0] == Zeros(S);
      }
    } else {
      if left == right {
        forall c | u < c < B ensures AllZero(rows[c]) {
          ShiftedOnlyIfZero(rows, u, B, S, c);
        }
      }
      if AllZeroFrom(rows, u + 1) {
        forall c | u < c < B ensures rows[c] == Zeros(S) {
          assert AllZero(rows[c]);
        }
        forall k | 0 <= k < B + u ensures left[k] == right[k] {
          if k > u {
            assert left[k] == Saved(rows, u, S)[k - u];
          }
        }
      }
    }
  }

  // ---------- The object ----------

  predicate Distinct(order: seq<Series>) {
    forall i, j :: 0 <= i < j < |order| ==> order[i] != order[j]
  }

  datatype Export = Export(cells: map<Series, Rows>, times: seq<int>)

  class MillisecondBandwidthOutput {
    const bufferSize: nat
    const samplesPerBatch: nat
    const bucketMs: nat
    const batchMs: nat
    var cells: map<Series, Rows>
    var times: seq<int>
    var currentTime: nat
    var currentBatch: nat
    var nextBatch: nat
    var batchTimesSet: bool
    var timeDiff: int
    var out: seq<Export>

    ghost predicate Valid()
      reads this
    {
      && samplesPerBatch > 0 && bucketMs > 0 && batchMs > 0
      && |times| == bufferSize
      && forall s :: s in cells ==> Shaped(cells[s], bufferSize, samplesPerBatch)
    }

    /** Half as many batches again as whole ones fit between two exports; none when disabled. */
    constructor (enabled: bool, intervalMs: nat, batchMs: nat, bucketMs: nat)
      requires 0 < bucketMs <= batchMs
      ensures Valid() && cells == map[] && out == [] && currentBatch == nextBatch == 0 && timeDiff == 0
      ensures this.batchMs == batchMs && this.bucketMs == bucketMs && samplesPerBatch == batchMs / bucketMs
      ensures if enabled then 2 * bufferSize <= 3 * (intervalMs / batchMs) < 2 * bufferSize + 2 else bufferSize == 0
    {
      DivisionFacts(batchMs, bucketMs);
      var batches := if enabled then 3 * (intervalMs / batchMs) / 2 else 0;
      bufferSize, this.batchMs, this.bucketMs := batches, batchMs, bucketMs;
      samplesPerBatch := batchMs / bucketMs;
      cells, times, out := map[], seq(batches, _ => 0), [];
      currentTime, currentBatch, nextBatch, batchTimesSet, timeDiff := 0, 0, 0, false, 0;
    }

    method AllocateBufferForNic(ip: string)
      requires Valid()
      modifies this`cells
      ensures Valid()
      ensures var empty := ZeroRows(bufferSize, samplesPerBatch);
              cells == old(cells)[Series(ip, true) := empty][Series(ip, false) := empty]
    {
      var empty := ZeroRows(bufferSize, samplesPerBatch);
      cells := cells[Series(ip, true) := empty][Series(ip, false) := empty];
    }

    /** The Unix time of clock reading `now`, by the difference of the clocks taken earlier or, the
        first time, now. */
    function TimeOf(now: nat, wallClock: nat): nat
      requires timeDiff == 0 || timeDiff + now >= 0
      reads this`timeDiff
    {
      if timeDiff == 0 then wallClock else timeDiff + now
    }

    /** `wallClock` is the Unix time; the difference of the clocks is taken once. */
    method RegisterCurrentTimeInMilliseconds(now: nat, wallClock: nat)
      requires Valid() && (timeDiff == 0 || timeDiff + now >= 0)
      modifies this`timeDiff, this`currentTime, this`batchTimesSet, this`currentBatch
      ensures Valid() && currentBatch == nextBatch && !batchTimesSet
      ensures timeDiff == if old(timeDiff) == 0 then wallClock - now else old(timeDiff)
      ensures currentTime == old(TimeOf(now, wallClock)) == timeDiff + now
    {
      if timeDiff == 0 {
        timeDiff := wallClock - now;
      }
      currentTime := timeDiff + now;
      batchTimesSet := false;
      currentBatch := nextBatch;
    }

    function Offset(): (o: nat)
      requires samplesPerBatch > 0 && bucketMs > 0
      reads this`currentTime
      ensures o < samplesPerBatch
    {
      ((currentTime % 1000) / bucketMs) % samplesPerBatch
    }

    /** The cell of the first sample of a pass, and where the pass ends. */
    ghost function Start(): int
      requires samplesPerBatch > 0 && bucketMs > 0
      reads this`currentTime, this`currentBatch
    {
      Cell(currentBatch, Offset(), samplesPerBatch)
    }

    ghost function BatchAfter(n: nat): int
      requires samplesPerBatch > 0 && bucketMs > 0
      reads this`currentTime, this`currentBatch
    {
      currentBatch + (Offset() + n) / samplesPerBatch
    }

    method CopyOverBandwidthStats(series: Series, data: seq<real>)
      requires Valid() && series in cells
      requires Start() + |data| < Cell(bufferSize, 0, samplesPerBatch)
      modifies this`cells, this`nextBatch, this`times, this`batchTimesSet
      ensures Valid() && batchTimesSet
      ensures series in cells && cells == old(cells)[series := cells[series]]
      ensures Copied(old(cells)[series], cells[series], samplesPerBatch, Start(), data)
      ensures nextBatch == BatchAfter(|data|) < bufferSize
      ensures times == if old(batchTimesSet) then old(times)
                       else Stamped(old(times), currentBatch, nextBatch + 1, FirstTime(currentTime, batchMs), batchMs)
    {
      var rows, batch := CopyLoop(cells[series], data);
      cells := cells[series := rows];
      nextBatch := batch;
      if !batchTimesSet {
        StampBatches(batch);
        batchTimesSet := true;
      }
    }

    method NextCursor(batch0: nat, offset0: nat) returns (batch: nat, offset: nat)
      requires offset0 < samplesPerBatch
      ensures Cell(batch, offset, samplesPerBatch) == Cell(batch0, offset0, samplesPerBatch) + 1
      ensures offset < samplesPerBatch && batch >= batch0
    {
      offset := offset0 + 1;
      batch := batch0 + offset / samplesPerBatch;
      offset := offset % samplesPerBatch;
      Advance(batch0, offset0, samplesPerBatch, batch, offset);
    }

    /** One iteration: the cursor steps to the next batch when the offset reaches its size. */
    method CopyDatum(ghost before: Rows, rows0: Rows, data: seq<real>, i: nat, batch0: nat, offset0: nat,
        ghost start: int)
      returns (rows: Rows, batch: nat, offset: nat)
      requires Shaped(before, bufferSize, samplesPerBatch) && Shaped(rows0, bufferSize, samplesPerBatch)
      requires i < |data| && Copied(before, rows0, samplesPerBatch, start, data[..i])
      requires offset0 < samplesPerBatch && Cell(batch0, offset0, samplesPerBatch) == start + i
      requires start + |data| < Cell(bufferSize, 0, samplesPerBatch)
      ensures Shaped(rows, bufferSize, samplesPerBatch) && Copied(before, rows, samplesPerBatch, start, data[..i + 1])
      ensures offset < samplesPerBatch && batch >= batch0 && Cell(batch, offset, samplesPerBatch) == start + i + 1
    {
      CellOrder(bufferSize, 0, batch0, offset0, samplesPerBatch);
      CopyOne(before, rows0, bufferSize, samplesPerBatch, start, data, i, batch0, offset0);
      rows := rows0[batch0 := rows0[batch0][offset0 := data[i]]];
      batch, offset := NextCursor(batch0, offset0);
    }

    method CopyLoop(before: Rows, data: seq<real>) returns (rows: Rows, batch: nat)
      requires Valid() && Shaped(before, bufferSize, samplesPerBatch)
      requires Start() + |data| < Cell(bufferSize, 0, samplesPerBatch)
      ensures Shaped(rows, bufferSize, samplesPerBatch)
      ensures Copied(before, rows, samplesPerBatch, Start(), data)
      ensures currentBatch <= batch == BatchAfter(|data|) < bufferSize
    {
      rows, batch := before, currentBatch;
      var offset: nat := Offset();
      ghost var start := Start();
      for i := 0 to |data|
        invariant Shaped(rows, bufferSize, samplesPerBatch) && offset < samplesPerBatch && batch >= currentBatch
        invariant Copied(before, rows, samplesPerBatch, start, data[..i])
        invariant Cell(batch, offset, samplesPerBatch) == start + i
      {
        rows, batch, offset := CopyDatum(before, rows, data, i, batch, offset, start);
      }
      assert data[..|data|] == data;
      CellOrder(bufferSize, 0, batch, offset, samplesPerBatch);
      BatchesPassed(currentBatch, Offset(), |data|, batch, offset, samplesPerBatch);
    }

    /** The copies of one pass: every series in turn, the same number of samples of each. */
    method CopyOverAll(order: seq<Series>, data: map<Series, seq<real>>, n: nat)
      requires Valid() && Distinct(order) && forall s :: s in order ==> s in cells && s in data && |data[s]| == n
      requires Start() + n < Cell(bufferSize, 0, samplesPerBatch)
      modifies this`cells, this`nextBatch, this`times, this`batchTimesSet
      ensures Valid() && cells.Keys == old(cells).Keys
      ensures forall s :: s in cells && s in order ==>
                Copied(old(cells)[s], cells[s], samplesPerBatch, Start(), data[s])
      ensures forall s :: s in cells && s !in order ==> cells[s] == old(cells)[s]
      ensures order != [] ==> nextBatch == BatchAfter(n) < bufferSize
      ensures order != [] && !old(batchTimesSet) ==>
                times == Stamped(old(times), currentBatch, nextBatch + 1, FirstTime(currentTime, batchMs), batchMs)
    {
      for i := 0 to |order|
        invariant Valid() && cells.Keys == old(cells).Keys
        invariant forall s :: s in cells && s in order[..i] ==>
                    Copied(old(cells)[s], cells[s], samplesPerBatch, Start(), data[s])
        invariant forall s :: s in cells && s !in order[..i] ==> cells[s] == old(cells)[s]
        invariant i > 0 ==> batchTimesSet && nextBatch == BatchAfter(n) < bufferSize
        invariant i == 0 ==> batchTimesSet == old(batchTimesSet) && times == old(times)
        invariant i > 0 && !old(batchTimesSet) ==>
                    times == Stamped(old(times), currentBatch, nextBatch + 1, FirstTime(currentTime, batchMs), batchMs)
      {
        assert order[..i + 1] == order[..i] + [order[i]];
        CopyOverBandwidthStats(order[i], data[order[i]]);
      }
      assert order[..|order|] == order;
    }

    method StampBatches(last: nat)
      requires Valid() && currentBatch <= last < bufferSize
      modifies this`times
      ensures times == Stamped(old(times), currentBatch, last + 1, FirstTime(currentTime, batchMs), batchMs)
    {
      var first := FirstTime(currentTime, batchMs);
      var i := currentBatch;
      assert times == Stamped(times, currentBatch, i, first, batchMs);
      while i <= last
        invariant currentBatch <= i <= last + 1
        invariant times == Stamped(old(times), currentBatch, i, first, batchMs)
      {
        times := times[i := first + BatchSpan(i - currentBatch, batchMs)];
        i := i + 1;
      }
    }

    method SaveBandwidthStats(includeIncomplete: bool)
      requires Valid() && (includeIncomplete || currentBatch < bufferSize)
      modifies this`out, this`cells, this`currentBatch, this`nextBatch
      ensures Valid()
      ensures var n := if includeIncomplete then old(currentBatch) + 1 else old(currentBatch);
              var upper := if n < bufferSize then n else bufferSize;
              out == old(out) + [Export(map s | s in old(cells) :: old(cells)[s][..upper], times[..upper])]
      ensures if includeIncomplete then cells == old(cells) && currentBatch == old(currentBatch)
          && nextBatch == old(nextBatch)
              else cells == (map s | s in old(cells) :: Saved(old(cells)[s], old(currentBatch), samplesPerBatch))
                   && currentBatch == nextBatch == 0
    {
      var wanted := if includeIncomplete then currentBatch + 1 else currentBatch;
      var upper := if wanted < bufferSize then wanted else bufferSize;
      out := out + [Export(map s | s in cells :: cells[s][..upper], times[..upper])];
      if includeIncomplete {
        return;
      }
      Shift(upper);
    }

    /** Resets the buffer, except that the current batch becomes the first one. */
    method Shift(upper: nat)
      requires Valid() && upper < bufferSize
      modifies this`cells, this`currentBatch, this`nextBatch
      ensures cells == map s | s in old(cells) :: Saved(old(cells)[s], upper, samplesPerBatch)
      ensures currentBatch == nextBatch == 0 && Valid()
    {
      ghost var before := cells;
      ClearBatches(upper);
      MoveToFront(upper);
      ZeroOutNicData(upper);
      currentBatch, nextBatch := 0, 0;
      SavedCells(before, cells, upper, bufferSize, samplesPerBatch);
    }

    method ClearBatches(upper: nat)
      requires upper <= bufferSize && forall s :: s in cells ==> |cells[s]| == bufferSize
      modifies this`cells
      ensures cells == map s | s in old(cells) :: ClearedTo(old(cells)[s], upper, samplesPerBatch)
    {
      for i := 0 to upper
        invariant cells.Keys == old(cells).Keys
        invariant forall s :: s in cells ==> cells[s] == ClearedTo(old(cells)[s], i, samplesPerBatch)
      {
        ZeroOutNicData(i);
      }
    }

    /** The copy loop over the NICs of the current batch. */
    method MoveToFront(b: nat)
      requires b < bufferSize && forall s :: s in cells ==> |cells[s]| == bufferSize
      modifies this`cells
      ensures cells == map s | s in old(cells) :: old(cells)[s][0 := old(cells)[s][b]]
    {
      cells := map s | s in cells :: cells[s][0 := cells[s][b]];
    }

    method ZeroOutNicData(b: nat)
      requires b < bufferSize && forall s :: s in cells ==> |cells[s]| == bufferSize
      modifies this`cells
      ensures cells == map s | s in old(cells) :: old(cells)[s][b := Zeros(samplesPerBatch)]
    {
      cells := map s | s in cells :: cells[s][b := Zeros(samplesPerBatch)];
    }
  }

  /** When the batch that holds millisecond `t` begins. */
  function FirstTime(t: nat, batchMs: nat): int
    requires batchMs > 0
  {
    t - (t % 1000) % batchMs
  }

  /** The batches a pass writes to have their times set, one batch length apart. */
  function Stamped(times: seq<int>, from: nat, to: nat, first: int, batchMs: nat): seq<int> {
    seq(|times|, i requires 0 <= i < |times| =>
      if from <= i < to then first + BatchSpan(i - from, batchMs) else times[i])
  }

  /** `n` batch lengths. */
  function BatchSpan(n: nat, batchMs: nat): nat {
    if n == 0 then 0 else BatchSpan(n - 1, batchMs) + batchMs
  }

  function ClearedTo(rows: Rows, n: nat, S: nat): Rows {
    seq(|rows|, b requires 0 <= b < |rows| => if b < n then Zeros(S) else rows[b])
  }

  lemma SavedSteps(rows: Rows, u: nat, B: nat, S: nat)
    requires u < B && Shaped(rows, B, S)
    ensures var cleared := ClearedTo(rows, u, S);
            cleared[0 := cleared[u]][u := Zeros(S)] == Saved(rows, u, S)
    ensures Shaped(Saved(rows, u, S), B, S)
  {
  }

  lemma SavedCells(before: map<Series, Rows>, after: map<Series, Rows>, u: nat, B: nat, S: nat)
    requires u < B && after.Keys == before.Keys
    requires forall s :: s in before ==> |before[s]| == B && Shaped(before[s], B, S)
    requires forall s :: s in before ==>
               after[s] == var cleared := ClearedTo(before[s], u, S); cleared[0 := cleared[u]][u := Zeros(S)]
    ensures after == map s | s in before :: Saved(before[s], u, S)
    ensures forall s :: s in after ==> Shaped(after[s], B, S)
  {
    forall s | s in before
      ensures after[s] == Saved(before[s], u, S) && Shaped(after[s], B, S)
    {
      SavedSteps(before[s], u, B, S);
    }
  }

  /** The cursor after one more sample. */
  lemma Advance(b: nat, o: nat, S: nat, c: nat, p: nat)
    requires o < S && c == b + (o + 1) / S && p == (o + 1) % S
    ensures Cell(c, p, S) == Cell(b, o, S) + 1 && p < S && c >= b
  {
    if o + 1 == S {
      QuotientUnique(o + 1, S, 1);
      assert o + 1 == S * 1 + p;
      Distribute(b, 0, S);
    } else {
      QuotientUnique(o + 1, S, 0);
      assert o + 1 == S * 0 + p;
    }
  }

  lemma BatchesPassed(b: nat, o: nat, n: nat, c: nat, p: nat, S: nat)
    requires o < S && p < S && c >= b && Cell(c, p, S) == Cell(b, o, S) + n
    ensures c == b + (o + n) / S
  {
    assert (c - b) * S == c * S - b * S;
    QuotientUnique(o + n, S, c - b);
  }
}
