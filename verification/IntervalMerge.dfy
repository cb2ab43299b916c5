/** Merging the time intervals of all batches (scripts/simpleParserMsBwProtobuf.py), in whole
    milliseconds. */
module IntervalMerge {

  /** From `start` up to, but not including, `end`. */
  datatype Interval = Interval(start: int, end: int)

  predicate In(t: int, v: Interval) {
    v.start <= t < v.end
  }

  predicate Contains(outer: Interval, inner: Interval) {
    outer.start <= inner.start && inner.end <= outer.end
  }

  predicate InSome(t: int, s: seq<Interval>, n: nat)
    requires n <= |s|
  {
    exists k :: 0 <= k < n && In(t, s[k])
  }

  predicate CoveredBy(v: Interval, s: seq<Interval>) {
    exists i :: 0 <= i < |s| && Contains(s[i], v)
  }

  predicate AllNonEmpty(s: seq<Interval>) {
    forall k :: 0 <= k < |s| ==> s[k].start < s[k].end
  }

  predicate SortedByStart(s: seq<Interval>) {
    forall j, k :: 0 <= j < k < |s| ==> s[j].start <= s[k].start
  }

  /** In order, with a gap between any two. */
  predicate Separated(s: seq<Interval>) {
    && AllNonEmpty(s)
    && forall j, k :: 0 <= j < k < |s| ==> s[j].end < s[k].start
  }

  /** `merged` is the first `n` intervals of `s`, merged. */
  ghost predicate Merges(merged: seq<Interval>, s: seq<Interval>, n: nat)
    requires n <= |s|
  {
    && Separated(merged)
    && (forall k :: 0 <= k < n ==> CoveredBy(s[k], merged))
    && (forall t, i :: 0 <= i < |merged| && In(t, merged[i]) ==> InSome(t, s, n))
  }

  // ---------- Sorting ----------

  function Insert(v: Interval, s: seq<Interval>): (r: seq<Interval>)
    ensures |r| == |s| + 1 && multiset(r) == multiset(s) + multiset{v}
  {
    if s == [] then [v]
    else if v.start < s[|s| - 1].start then
      assert s == s[..|s| - 1] + [s[|s| - 1]];
      Insert(v, s[..|s| - 1]) + [s[|s| - 1]]
    else s + [v]
  }

  lemma {:induction false} InsertSorted(v: Interval, s: seq<Interval>)
    requires SortedByStart(s)
    ensures SortedByStart(Insert(v, s))
    decreases |s|
  {
    if s != [] && v.start < s[|s| - 1].start {
      var front, last := s[..|s| - 1], s[|s| - 1];
      InsertSorted(v, front);
      var r := Insert(v, front);
      forall k | 0 <= k < |r| ensures r[k].start <= last.start {
        assert r[k] in multiset(front) + multiset{v};
        assert r[k] == v || r[k] in front;
      }
    }
  }

  /** intervals.sort by start time; equal keys keep their order. */
  function Sorted(s: seq<Interval>): (r: seq<Interval>)
    ensures |r| == |s| && multiset(r) == multiset(s)
    ensures SortedByStart(r)
    decreases |s|
  {
    if s == [] then []
    else
      var front, last := s[..|s| - 1], s[|s| - 1];
      assert s == front + [last];
      InsertSorted(last, Sorted(front));
      Insert(last, Sorted(front))
  }

  function IfBeginningAt(v: Interval, start: int): seq<Interval> {
    if v.start == start then [v] else []
  }

  /** Those that begin at `start`, in order. */
  function BeginningAt(s: seq<Interval>, start: int): seq<Interval> {
    if s == [] then []
    else
      var last := |s| - 1;
      BeginningAt(s[..last], start) + IfBeginningAt(s[last], start)
  }

  lemma BeginningAtSnoc(s: seq<Interval>, v: Interval, start: int)
    ensures BeginningAt(s + [v], start) == BeginningAt(s, start) + IfBeginningAt(v, start)
  {
    assert (s + [v])[..|s|] == s;
  }

  lemma EitherOrder(a: seq<Interval>, b: seq<Interval>, c: seq<Interval>)
    requires b == [] || c == []
    ensures (a + b) + c == (a + c) + b
  {
    assert a + [] == a;
  }

  lemma {:induction false} InsertStable(v: Interval, s: seq<Interval>, start: int)
    ensures BeginningAt(Insert(v, s), start) == BeginningAt(s, start) + IfBeginningAt(v, start)
    decreases |s|
  {
    if s == [] || v.start >= s[|s| - 1].start {
      assert s + [v] == Insert(v, s);
      BeginningAtSnoc(s, v, start);
    } else {
      var front, last := s[..|s| - 1], s[|s| - 1];
      InsertStable(v, front, start);
      BeginningAtSnoc(Insert(v, front), last, start);
      EitherOrder(BeginningAt(front, start), IfBeginningAt(v, start), IfBeginningAt(last, start));
    }
  }

  /** Sorting keeps the order of intervals that begin together. */
  lemma {:induction false} SortedIsStable(s: seq<Interval>, start: int)
    ensures BeginningAt(Sorted(s), start) == BeginningAt(s, start)
  {
    if s == [] {
    } else {
      var front, last := s[..|s| - 1], s[|s| - 1];
      SortedIsStable(front, start);
      InsertStable(last, Sorted(front), start);
      assert Sorted(s) == Insert(last, Sorted(front));
    }
  }

  // ---------- Merging ----------

  lemma Grow(merged: seq<Interval>, current: Interval, s: seq<Interval>, n: nat)
    requires n < |s| && Merges(merged + [current], s, n)
    requires current.start <= s[n].start <= current.end && s[n].start < s[n].end
    ensures var end := if s[n].end > current.end then s[n].end else current.end;
            Merges(merged + [Interval(current.start, end)], s, n + 1)
  {
    var end := if s[n].end > current.end then s[n].end else current.end;
    var was, now := merged + [current], merged + [Interval(current.start, end)];
    assert was[|merged|] == current;
    forall j, k | 0 <= j < k < |now| ensures now[j].end < now[k].start {
      assert was[j].end < was[k].start;
    }
    forall k | 0 <= k < |now| ensures now[k].start < now[k].end {
      assert was[k].start < was[k].end;
    }
    forall k | 0 <= k < n + 1 ensures CoveredBy(s[k], now) {
      if k < n {
        assert CoveredBy(s[k], was);
        var i :| 0 <= i < |was| && Contains(was[i], s[k]);
        assert Contains(now[i], s[k]);
      } else {
        assert Contains(now[|merged|], s[n]);
      }
    }
    forall t, i | 0 <= i < |now| && In(t, now[i]) ensures InSome(t, s, n + 1) {
      if In(t, was[i]) {
        assert InSome(t, s, n);
      } else {
        assert In(t, s[n]);
      }
    }
  }

  lemma Append(merged: seq<Interval>, s: seq<Interval>, n: nat)
    requires n < |s| && Merges(merged, s, n) && s[n].start < s[n].end
    requires forall i :: 0 <= i < |merged| ==> merged[i].end < s[n].start
    ensures Merges(merged + [s[n]], s, n + 1)
  {
    var now := merged + [s[n]];
    forall k | 0 <= k < n + 1 ensures CoveredBy(s[k], now) {
      if k < n {
        assert CoveredBy(s[k], merged);
        var i :| 0 <= i < |merged| && Contains(merged[i], s[k]);
        assert Contains(now[i], s[k]);
      } else {
        assert Contains(now[|merged|], s[n]);
      }
    }
    forall t, i | 0 <= i < |now| && In(t, now[i]) ensures InSome(t, s, n + 1) {
      if i < |merged| {
        assert In(t, merged[i]) && InSome(t, s, n);
      } else {
        assert In(t, s[n]);
      }
    }
  }

  method MergeSorted(s: seq<Interval>) returns (merged: seq<Interval>)
    requires s != [] && SortedByStart(s) && AllNonEmpty(s)
    ensures Merges(merged, s, |s|)
  {
    merged := [];
    var current := s[0];
    assert Contains((merged + [current])[0], s[0]);
    for n := 1 to |s|
      invariant Merges(merged + [current], s, n)
      invariant forall k :: n <= k < |s| ==> current.start <= s[k].start
    {
      var next := s[n];
      if next.start <= current.end {
        Grow(merged, current, s, n);
        current := Interval(current.start, if next.end > current.end then next.end else current.end);
      } else {
        LastEndsLatest(merged, current);
        Append(merged + [current], s, n);
        merged := merged + [current];
        current := next;
      }
    }
    merged := merged + [current];
  }

  lemma LastEndsLatest(merged: seq<Interval>, current: Interval)
    requires Separated(merged + [current])
    ensures forall i :: 0 <= i < |merged + [current]| ==> (merged + [current])[i].end <= current.end
  {
    var all := merged + [current];
    forall i | 0 <= i < |all| ensures all[i].end <= current.end {
      assert i < |merged| ==> all[i].end < all[|merged|].start;
    }
  }

  /** Sorted, strictly separated, covering each given interval by one merged interval, and no
      millisecond that no given interval covers. */
  method MergeIntervals(intervals: seq<Interval>) returns (merged: seq<Interval>)
    requires AllNonEmpty(intervals)
    ensures Merges(merged, intervals, |intervals|)
  {
    if intervals == [] {
      return [];
    }
    var s := Sorted(intervals);
    forall k | 0 <= k < |s| ensures s[k].start < s[k].end {
      assert s[k] in multiset(intervals);
    }
    merged := MergeSorted(s);
    MergesPermutation(merged, s, intervals);
  }

  lemma MergesPermutation(merged: seq<Interval>, s: seq<Interval>, intervals: seq<Interval>)
    requires Merges(merged, s, |s|) && multiset(s) == multiset(intervals)
    ensures Merges(merged, intervals, |intervals|)
  {
    forall k | 0 <= k < |intervals| ensures CoveredBy(intervals[k], merged) {
      assert intervals[k] in multiset(s);
      var j :| 0 <= j < |s| && s[j] == intervals[k];
    }
    forall t, i | 0 <= i < |merged| && In(t, merged[i]) ensures InSome(t, intervals, |intervals|) {
      assert InSome(t, s, |s|);
      var j :| 0 <= j < |s| && In(t, s[j]);
      assert s[j] in multiset(intervals);
      var k :| 0 <= k < |intervals| && intervals[k] == s[j];
    }
  }

  /** The merged intervals and the given ones cover the same milliseconds. */
  lemma {:induction false} SameUnion(merged: seq<Interval>, intervals: seq<Interval>, t: int)
    requires Merges(merged, intervals, |intervals|)
    ensures InSome(t, merged, |merged|) <==> InSome(t, intervals, |intervals|)
  {
    if InSome(t, intervals, |intervals|) {
      var k :| 0 <= k < |intervals| && In(t, intervals[k]);
      assert CoveredBy(intervals[k], merged);
      var i :| 0 <= i < |merged| && Contains(merged[i], intervals[k]);
      assert In(t, merged[i]);
    }
  }

  lemma InOrder(merged: seq<Interval>, j: nat, k: nat)
    requires Separated(merged) && j < |merged| && k < |merged|
    ensures j < k ==> merged[j].end < merged[k].start
    ensures k < j ==> merged[k].end < merged[j].start
  {
  }

  /** The search of the overlay, for the first interval that ends after `time`, finds the
      interval that contains the whole of the given one; no other meets it. */
  lemma {:induction false} FirstEndingAfter(merged: seq<Interval>, v: Interval, i: nat)
    requires Separated(merged) && CoveredBy(v, merged) && v.start < v.end
    requires i < |merged| && v.start < merged[i].end && forall j :: 0 <= j < i ==> merged[j].end <= v.start
    ensures Contains(merged[i], v)
    ensures forall j, t :: 0 <= j < |merged| && j != i && In(t, v) ==> !In(t, merged[j])
  {
    var c :| 0 <= c < |merged| && Contains(merged[c], v);
    InOrder(merged, i, c);
    forall j, t | 0 <= j < |merged| && j != i && In(t, v) ensures !In(t, merged[j]) {
      InOrder(merged, i, j);
    }
  }
}
