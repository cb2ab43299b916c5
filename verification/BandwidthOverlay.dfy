/** Overlaying the batches of all processes on common time intervals
    (scripts/simpleParserMsBwProtobuf.py), in whole milliseconds. */
module BandwidthOverlay {
  import opened RealSums
  import opened IntervalMerge

  datatype Ip = Ip(address: string)

  datatype Data = Data(tx: seq<real>, rx: seq<real>) {
    function Side(transmitted: bool): seq<real> { if transmitted then tx else rx }
  }

  datatype Nic = Nic(ip: Ip, data: Data)

  /** One process: when its recording begins, and the samples of its NICs. */
  datatype Batch = Batch(time: int, nics: seq<Nic>)

  type NicMap = map<Ip, Data>

  function LongestTo(nics: seq<Nic>, n: nat): nat
    requires n <= |nics|
  {
    if n == 0 then 0
    else
      var l := LongestTo(nics, n - 1);
      if |nics[n - 1].data.tx| > l then |nics[n - 1].data.tx| else l
  }

  lemma {:induction false} LongestIsLongest(nics: seq<Nic>, n: nat, j: nat)
    requires j < n <= |nics|
    ensures |nics[j].data.tx| <= LongestTo(nics, n)
  {
    if j < n - 1 {
      LongestIsLongest(nics, n - 1, j);
    }
  }

  lemma {:induction false} LongestIsThere(nics: seq<Nic>, n: nat) returns (j: nat)
    requires 0 < n <= |nics|
    ensures j < n && |nics[j].data.tx| == LongestTo(nics, n)
  {
    if n > 1 && |nics[n - 1].data.tx| <= LongestTo(nics, n - 1) {
      j := LongestIsThere(nics, n - 1);
    } else {
      j := n - 1;
    }
  }

  function Extent(b: Batch): Interval {
    Interval(b.time, b.time + LongestTo(b.nics, |b.nics|))
  }

  /** The extent of a process is made of the milliseconds of which some NIC has a sample. */
  lemma ExtentIff(b: Batch, t: int)
    ensures In(t, Extent(b)) <==> exists j :: 0 <= j < |b.nics| && 0 <= t - b.time < |b.nics[j].data.tx|
  {
    if In(t, Extent(b)) {
      var j := LongestIsThere(b.nics, |b.nics|);
      assert 0 <= t - b.time < |b.nics[j].data.tx|;
    }
    forall j | 0 <= j < |b.nics| ensures |b.nics[j].data.tx| <= LongestTo(b.nics, |b.nics|) {
      LongestIsLongest(b.nics, |b.nics|, j);
    }
  }

  /** Some NIC has samples, and every NIC has as many in one direction as in the other. */
  predicate WellFormed(b: Batch) {
    && LongestTo(b.nics, |b.nics|) > 0
    && forall j :: 0 <= j < |b.nics| ==> |b.nics[j].data.tx| == |b.nics[j].data.rx|
  }

  // ---------- What was recorded at an instant ----------

  function SampleAt(s: seq<real>, time: int, t: int): real {
    if 0 <= t - time < |s| then s[t - time] else 0.0
  }

  function NicAt(nic: Nic, time: int, ip: Ip, tx: bool, t: int): real {
    if nic.ip == ip then SampleAt(nic.data.Side(tx), time, t) else 0.0
  }

  function BatchAt(b: Batch, n: nat, ip: Ip, tx: bool, t: int): real
    requires n <= |b.nics|
  {
    if n == 0 then 0.0 else BatchAt(b, n - 1, ip, tx, t) + NicAt(b.nics[n - 1], b.time, ip, tx, t)
  }

  /** The sum of all samples of a NIC, in one direction, at millisecond `t`, over `n` batches. */
  function TotalAt(batches: seq<Batch>, n: nat, ip: Ip, tx: bool, t: int): real
    requires n <= |batches|
  {
    if n == 0 then 0.0
    else TotalAt(batches, n - 1, ip, tx, t) + BatchAt(batches[n - 1], |batches[n - 1].nics|, ip, tx, t)
  }

  lemma {:induction false} NothingOutsideExtent(b: Batch, n: nat, ip: Ip, tx: bool, t: int)
    requires WellFormed(b) && n <= |b.nics| && !In(t, Extent(b))
    ensures BatchAt(b, n, ip, tx, t) == 0.0
  {
    if n == 0 {
    } else {
      NothingOutsideExtent(b, n - 1, ip, tx, t);
      LongestIsLongest(b.nics, |b.nics|, n - 1);
    }
  }

  // ---------- The overlay ----------

  function Value(m: NicMap, ip: Ip, tx: bool, k: nat): real {
    if ip in m && k < |m[ip].Side(tx)| then m[ip].Side(tx)[k] else 0.0
  }

  predicate Sized(m: NicMap, length: nat) {
    forall ip :: ip in m ==> |m[ip].tx| == length && |m[ip].rx| == length
  }

  method AddLists(a: seq<real>, b: seq<real>) returns (r: seq<real>)
    requires |a| == |b|
    ensures |r| == |a| && forall k :: 0 <= k < |a| ==> r[k] == a[k] + b[k]
  {
    r := a;
    for i := 0 to |b|
      invariant |r| == |a|
      invariant forall k :: 0 <= k < |a| ==> r[k] == if k < i then a[k] + b[k] else a[k]
    {
      r := r[i := r[i] + b[i]];
    }
  }

  function Padded(before: nat, s: seq<real>, after: nat): seq<real> {
    Zeros(before) + s + Zeros(after)
  }

  /** The body of the innermost loop over NICs. */
  method AddNic(m: NicMap, nic: Nic, time: int, v: Interval) returns (r: NicMap)
    requires v.start <= time && time + |nic.data.tx| <= v.end && |nic.data.tx| == |nic.data.rx|
    requires Sized(m, v.end - v.start)
    ensures Sized(r, v.end - v.start)
    ensures forall ip, tx, k: nat :: k < v.end - v.start ==>
              Value(r, ip, tx, k) == Value(m, ip, tx, k) + NicAt(nic, time, ip, tx, v.start + k)
  {
    var before := time - v.start;
    var after := v.end - time - |nic.data.tx|;
    var newTx := Padded(before, nic.data.tx, after);
    var newRx := Padded(before, nic.data.rx, after);
    if nic.ip !in m {
      r := m[nic.ip := Data(newTx, newRx)];
    } else {
      var tx := AddLists(m[nic.ip].tx, newTx);
      var rx := AddLists(m[nic.ip].rx, newRx);
      r := m[nic.ip := Data(tx, rx)];
    }
  }

  method AddBatch(m: NicMap, b: Batch, v: Interval) returns (r: NicMap)
    requires WellFormed(b) && Contains(v, Extent(b)) && Sized(m, v.end - v.start)
    ensures Sized(r, v.end - v.start)
    ensures forall ip, tx, k: nat :: k < v.end - v.start ==>
              Value(r, ip, tx, k) == Value(m, ip, tx, k) + BatchAt(b, |b.nics|, ip, tx, v.start + k)
  {
    r := m;
    assert forall ip, tx, t :: BatchAt(b, 0, ip, tx, t) == 0.0;
    for j := 0 to |b.nics|
      invariant Sized(r, v.end - v.start)
      invariant forall ip, tx, k: nat :: k < v.end - v.start ==>
                  Value(r, ip, tx, k) == Value(m, ip, tx, k) + BatchAt(b, j, ip, tx, v.start + k)
    {
      LongestIsLongest(b.nics, |b.nics|, j);
      r := AddNic(r, b.nics[j], b.time, v);
    }
  }

  predicate AllWellFormed(batches: seq<Batch>) {
    forall k :: 0 <= k < |batches| ==> WellFormed(batches[k])
  }

  function Extents(batches: seq<Batch>): seq<Interval> {
    seq(|batches|, k requires 0 <= k < |batches| => Extent(batches[k]))
  }

  /** After `n` batches, the value kept for a NIC at a millisecond of an interval is the sum
      of all their samples at that instant. */
  ghost predicate Overlaid(merged: seq<NicMap>, intervals: seq<Interval>, batches: seq<Batch>, n: nat)
    requires n <= |batches|
  {
    && |merged| == |intervals|
    && (forall i :: 0 <= i < |merged| ==> Sized(merged[i], Length(intervals[i])))
    && forall i, ip, tx, k: nat :: 0 <= i < |merged| && k < Length(intervals[i]) ==>
         Value(merged[i], ip, tx, k) == TotalAt(batches, n, ip, tx, intervals[i].start + k)
  }

  function Length(v: Interval): nat {
    if v.start <= v.end then v.end - v.start else 0
  }

  method FindInterval(intervals: seq<Interval>, b: Batch) returns (i: nat)
    requires Separated(intervals) && CoveredBy(Extent(b), intervals) && WellFormed(b)
    ensures i < |intervals| && Contains(intervals[i], Extent(b))
    ensures forall j, t :: 0 <= j < |intervals| && j != i && In(t, Extent(b)) ==> !In(t, intervals[j])
  {
    i := 0;
    ghost var c :| 0 <= c < |intervals| && Contains(intervals[c], Extent(b));
    while intervals[i].end <= b.time
      invariant i <= c
      invariant forall j :: 0 <= j < i ==> intervals[j].end <= b.time
      decreases c - i
    {
      i := i + 1;
    }
    FirstEndingAfter(intervals, Extent(b), i);
  }

  lemma OthersUnchanged(merged: seq<NicMap>, intervals: seq<Interval>, batches: seq<Batch>, n: nat, i: nat, m: NicMap)
    requires n < |batches| && Overlaid(merged, intervals, batches, n) && i < |merged| && WellFormed(batches[n])
    requires forall j, t :: 0 <= j < |intervals| && j != i && In(t, Extent(batches[n])) ==> !In(t, intervals[j])
    requires Sized(m, Length(intervals[i]))
    requires forall ip, tx, k: nat :: k < Length(intervals[i]) ==>
               Value(m, ip, tx, k) == Value(merged[i], ip, tx, k)
                                      + BatchAt(batches[n], |batches[n].nics|, ip, tx, intervals[i].start + k)
    ensures Overlaid(merged[i := m], intervals, batches, n + 1)
  {
    var after := merged[i := m];
    forall j, ip, tx, k: nat | 0 <= j < |after| && k < Length(intervals[j])
      ensures Value(after[j], ip, tx, k) == TotalAt(batches, n + 1, ip, tx, intervals[j].start + k)
    {
      if j != i {
        var t := intervals[j].start + k;
        assert In(t, intervals[j]);
        NothingOutsideExtent(batches[n], |batches[n].nics|, ip, tx, t);
      }
    }
  }

  /** merge_batches_with_overlapping_time_interval: intervals in order with gaps between them,
      covering exactly the recorded milliseconds, and at each of their milliseconds the sum
      of everything recorded then. */
  method Overlay(batches: seq<Batch>) returns (intervals: seq<Interval>, merged: seq<NicMap>)
    requires AllWellFormed(batches)
    ensures Merges(intervals, Extents(batches), |batches|)
    ensures Overlaid(merged, intervals, batches, |batches|)
  {
    intervals := MergeIntervals(Extents(batches));
    merged := seq(|intervals|, _ => map[]);
    for n := 0 to |batches|
      invariant Overlaid(merged, intervals, batches, n)
    {
      assert CoveredBy(Extents(batches)[n], intervals);
      var i := FindInterval(intervals, batches[n]);
      var m := AddBatch(merged[i], batches[n], intervals[i]);
      OthersUnchanged(merged, intervals, batches, n, i, m);
      merged := merged[i := m];
    }
  }

  // ---------- Totals ----------

  /** The sum of a list recorded at `time`, over the `n` milliseconds from `from` on. */
  function SpanOfList(s: seq<real>, time: int, from: int, n: nat): real {
    if n == 0 then 0.0 else SpanOfList(s, time, from, n - 1) + SampleAt(s, time, from + n - 1)
  }

  lemma {:induction false} SpanBefore(s: seq<real>, time: int, from: int, n: nat)
    requires from + n <= time
    ensures SpanOfList(s, time, from, n) == 0.0
  {
    if n == 0 {
    } else {
      SpanBefore(s, time, from, n - 1);
    }
  }

  lemma {:induction false} SpanWithin(s: seq<real>, time: int, from: int, n: nat)
    requires from <= time <= from + n
    ensures SpanOfList(s, time, from, n) == SumTo(s, if from + n - time < |s| then from + n - time else |s|)
    decreases n
  {
    if from + n == time {
      SpanBefore(s, time, from, n);
    } else {
      SpanWithin(s, time, from, n - 1);
    }
  }

  function SpanOfBatch(b: Batch, ip: Ip, tx: bool, from: int, n: nat): real {
    if n == 0 then 0.0 else SpanOfBatch(b, ip, tx, from, n - 1) + BatchAt(b, |b.nics|, ip, tx, from + n - 1)
  }

  /** The same sum, NIC by NIC. */
  function SpanOfNics(b: Batch, j: nat, ip: Ip, tx: bool, from: int, n: nat): real
    requires j <= |b.nics|
  {
    if j == 0 then 0.0
    else SpanOfNics(b, j - 1, ip, tx, from, n)
         + if b.nics[j - 1].ip == ip then SpanOfList(b.nics[j - 1].data.Side(tx), b.time, from, n) else 0.0
  }

  lemma {:induction false} SpanOfNicsStep(b: Batch, j: nat, ip: Ip, tx: bool, from: int, n: nat)
    requires j <= |b.nics|
    ensures SpanOfNics(b, j, ip, tx, from, n + 1) == SpanOfNics(b, j, ip, tx, from, n) + BatchAt(b, j, ip, tx, from + n)
  {
    if j == 0 {
    } else {
      SpanOfNicsStep(b, j - 1, ip, tx, from, n);
    }
  }

  lemma {:induction false} SpanOfNicsNone(b: Batch, j: nat, ip: Ip, tx: bool, from: int)
    requires j <= |b.nics|
    ensures SpanOfNics(b, j, ip, tx, from, 0) == 0.0
  {
    if j == 0 {
    } else {
      SpanOfNicsNone(b, j - 1, ip, tx, from);
    }
  }

  lemma {:induction false} SpansAgree(b: Batch, ip: Ip, tx: bool, from: int, n: nat)
    ensures SpanOfBatch(b, ip, tx, from, n) == SpanOfNics(b, |b.nics|, ip, tx, from, n)
  {
    if n == 0 {
      SpanOfNicsNone(b, |b.nics|, ip, tx, from);
    } else {
      SpansAgree(b, ip, tx, from, n - 1);
      SpanOfNicsStep(b, |b.nics|, ip, tx, from, n - 1);
    }
  }

  /** Everything a batch recorded for a NIC. */
  function Recorded(b: Batch, j: nat, ip: Ip, tx: bool): real
    requires j <= |b.nics|
  {
    if j == 0 then 0.0
    else Recorded(b, j - 1, ip, tx) + if b.nics[j - 1].ip == ip then Sum(b.nics[j - 1].data.Side(tx)) else 0.0
  }

  lemma {:induction false} SpanOfWholeBatch(b: Batch, j: nat, ip: Ip, tx: bool, v: Interval)
    requires WellFormed(b) && Contains(v, Extent(b)) && j <= |b.nics|
    ensures SpanOfNics(b, j, ip, tx, v.start, Length(v)) == Recorded(b, j, ip, tx)
  {
    if j == 0 {
    } else {
      SpanOfWholeBatch(b, j - 1, ip, tx, v);
      LongestIsLongest(b.nics, |b.nics|, j - 1);
      SpanWithin(b.nics[j - 1].data.Side(tx), b.time, v.start, Length(v));
    }
  }

  lemma {:induction false} SpanOutside(b: Batch, ip: Ip, tx: bool, v: Interval, n: nat)
    requires WellFormed(b) && n <= Length(v) && forall t :: In(t, v) ==> !In(t, Extent(b))
    ensures SpanOfBatch(b, ip, tx, v.start, n) == 0.0
  {
    if n == 0 {
    } else {
      SpanOutside(b, ip, tx, v, n - 1);
      assert In(v.start + n - 1, v);
      NothingOutsideExtent(b, |b.nics|, ip, tx, v.start + n - 1);
    }
  }

  function SpanOverIntervals(b: Batch, ip: Ip, tx: bool, intervals: seq<Interval>, n: nat): real
    requires n <= |intervals|
  {
    if n == 0 then 0.0
    else SpanOverIntervals(b, ip, tx, intervals, n - 1)
         + SpanOfBatch(b, ip, tx, intervals[n - 1].start, Length(intervals[n - 1]))
  }

  lemma {:induction false} BatchInOneInterval(b: Batch, ip: Ip, tx: bool, intervals: seq<Interval>, n: nat, c: nat)
    requires Separated(intervals) && WellFormed(b) && n <= |intervals| && c < |intervals|
        && Contains(intervals[c], Extent(b))
    ensures SpanOverIntervals(b, ip, tx, intervals, n) == if c < n then Recorded(b, |b.nics|, ip, tx) else 0.0
  {
    if n == 0 {
    } else {
      var v := intervals[n - 1];
      BatchInOneInterval(b, ip, tx, intervals, n - 1, c);
      if c == n - 1 {
        SpansAgree(b, ip, tx, v.start, Length(v));
        SpanOfWholeBatch(b, |b.nics|, ip, tx, v);
      } else {
        InOrder(intervals, n - 1, c);
        SpanOutside(b, ip, tx, v, Length(v));
      }
    }
  }

  /** The sum of the overlay over the first `n` milliseconds of an interval. */
  function SpanOfValues(m: NicMap, ip: Ip, tx: bool, n: nat): real {
    if n == 0 then 0.0 else SpanOfValues(m, ip, tx, n - 1) + Value(m, ip, tx, n - 1)
  }

  function OverlayTotal(merged: seq<NicMap>, intervals: seq<Interval>, ip: Ip, tx: bool, i: nat): real
    requires i <= |merged| == |intervals|
  {
    if i == 0 then 0.0
    else OverlayTotal(merged, intervals, ip, tx, i - 1) + SpanOfValues(merged[i - 1], ip, tx, Length(intervals[i - 1]))
  }

  function RecordedTotal(batches: seq<Batch>, n: nat, ip: Ip, tx: bool): real
    requires n <= |batches|
  {
    if n == 0 then 0.0
    else RecordedTotal(batches, n - 1, ip, tx) + Recorded(batches[n - 1], |batches[n - 1].nics|, ip, tx)
  }

  function SpanOfTotals(batches: seq<Batch>, n: nat, ip: Ip, tx: bool, from: int, k: nat): real
    requires n <= |batches|
  {
    if k == 0 then 0.0 else SpanOfTotals(batches, n, ip, tx, from, k - 1) + TotalAt(batches, n, ip, tx, from + k - 1)
  }

  lemma {:induction false} SpanOfTotalsStep(batches: seq<Batch>, n: nat, ip: Ip, tx: bool, from: int, k: nat)
    requires n < |batches|
    ensures SpanOfTotals(batches, n + 1, ip, tx, from, k)
            == SpanOfTotals(batches, n, ip, tx, from, k) + SpanOfBatch(batches[n], ip, tx, from, k)
  {
    if k == 0 {
    } else {
      SpanOfTotalsStep(batches, n, ip, tx, from, k - 1);
    }
  }

  lemma {:induction false} SpanOfTotalsNone(batches: seq<Batch>, ip: Ip, tx: bool, from: int, k: nat)
    ensures SpanOfTotals(batches, 0, ip, tx, from, k) == 0.0
  {
    if k == 0 {
    } else {
      SpanOfTotalsNone(batches, ip, tx, from, k - 1);
    }
  }

  function TotalsOverIntervals(batches: seq<Batch>, n: nat, ip: Ip, tx: bool, intervals: seq<Interval>, i: nat): real
    requires n <= |batches| && i <= |intervals|
  {
    if i == 0 then 0.0
    else TotalsOverIntervals(batches, n, ip, tx, intervals, i - 1)
         + SpanOfTotals(batches, n, ip, tx, intervals[i - 1].start, Length(intervals[i - 1]))
  }

  lemma {:induction false} TotalsStep(batches: seq<Batch>, n: nat, ip: Ip, tx: bool, intervals: seq<Interval>, i: nat)
    requires n < |batches| && i <= |intervals|
    ensures TotalsOverIntervals(batches, n + 1, ip, tx, intervals, i)
            == TotalsOverIntervals(batches, n, ip, tx, intervals, i)
                + SpanOverIntervals(batches[n], ip, tx, intervals, i)
  {
    if i == 0 {
    } else {
      TotalsStep(batches, n, ip, tx, intervals, i - 1);
      SpanOfTotalsStep(batches, n, ip, tx, intervals[i - 1].start, Length(intervals[i - 1]));
    }
  }

  lemma {:induction false} TotalsNone(batches: seq<Batch>, ip: Ip, tx: bool, intervals: seq<Interval>, i: nat)
    requires i <= |intervals|
    ensures TotalsOverIntervals(batches, 0, ip, tx, intervals, i) == 0.0
  {
    if i == 0 {
    } else {
      TotalsNone(batches, ip, tx, intervals, i - 1);
      SpanOfTotalsNone(batches, ip, tx, intervals[i - 1].start, Length(intervals[i - 1]));
    }
  }

  lemma {:induction false} TotalsAreRecorded(batches: seq<Batch>, n: nat, ip: Ip, tx: bool, intervals: seq<Interval>)
    requires AllWellFormed(batches) && n <= |batches| && Merges(intervals, Extents(batches), |batches|)
    ensures TotalsOverIntervals(batches, n, ip, tx, intervals, |intervals|) == RecordedTotal(batches, n, ip, tx)
  {
    if n == 0 {
      TotalsNone(batches, ip, tx, intervals, |intervals|);
    } else {
      TotalsAreRecorded(batches, n - 1, ip, tx, intervals);
      TotalsStep(batches, n - 1, ip, tx, intervals, |intervals|);
      assert CoveredBy(Extents(batches)[n - 1], intervals);
      var c :| 0 <= c < |intervals| && Contains(intervals[c], Extent(batches[n - 1]));
      BatchInOneInterval(batches[n - 1], ip, tx, intervals, |intervals|, c);
    }
  }

  lemma {:induction false} ValuesAreTotals(merged: seq<NicMap>, intervals: seq<Interval>, batches: seq<Batch>, i: nat,
                                           ip: Ip, tx: bool, k: nat)
    requires Overlaid(merged, intervals, batches, |batches|) && i < |intervals| && k <= Length(intervals[i])
    ensures SpanOfValues(merged[i], ip, tx, k) == SpanOfTotals(batches, |batches|, ip, tx, intervals[i].start, k)
  {
    if k == 0 {
    } else {
      ValuesAreTotals(merged, intervals, batches, i, ip, tx, k - 1);
    }
  }

  lemma {:induction false} OverlayIsTotals(merged: seq<NicMap>, intervals: seq<Interval>, batches: seq<Batch>, i: nat,
      ip: Ip, tx: bool)
    requires Overlaid(merged, intervals, batches, |batches|) && i <= |intervals|
    ensures OverlayTotal(merged, intervals, ip, tx, i) == TotalsOverIntervals(batches, |batches|, ip, tx, intervals, i)
  {
    if i == 0 {
    } else {
      OverlayIsTotals(merged, intervals, batches, i - 1, ip, tx);
      ValuesAreTotals(merged, intervals, batches, i - 1, ip, tx, Length(intervals[i - 1]));
    }
  }

  /** Whatever Overlay returns adds up, for every NIC and direction, to what was recorded. */
  lemma {:induction false} OverlayConservesTotals(batches: seq<Batch>, intervals: seq<Interval>, merged: seq<NicMap>,
      ip: Ip, tx: bool)
    requires AllWellFormed(batches)
    requires Merges(intervals, Extents(batches), |batches|) && Overlaid(merged, intervals, batches, |batches|)
    ensures OverlayTotal(merged, intervals, ip, tx, |intervals|) == RecordedTotal(batches, |batches|, ip, tx)
  {
    OverlayIsTotals(merged, intervals, batches, |intervals|, ip, tx);
    TotalsAreRecorded(batches, |batches|, ip, tx, intervals);
  }
}
