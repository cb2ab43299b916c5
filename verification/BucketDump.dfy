/** The text form of a histogram (src/distribution_bucketer.cc): one line a range, with runs of
    empty buckets coalesced. A line is represented by its three numbers. */
module BucketDump {

  datatype Bucket = Bucket(upperBound: real, count: nat)

  datatype Range = Range(lower: real, upper: real, count: nat)

  predicate Increasing(buckets: seq<Bucket>) {
    && (forall i :: 0 <= i < |buckets| ==> buckets[i].upperBound > 0.0)
    && (forall i, j :: 0 <= i < j < |buckets| ==> buckets[i].upperBound < buckets[j].upperBound)
  }

  /** Where bucket `i` begins; for `i == |buckets|`, where the last one ends. */
  function Start(buckets: seq<Bucket>, i: nat): real
    requires i <= |buckets|
  {
    if i == 0 then 0.0 else buckets[i - 1].upperBound
  }

  function End(ranges: seq<Range>): real {
    if ranges == [] then 0.0 else ranges[|ranges| - 1].upper
  }

  /** The ranges join end to end, beginning at zero. */
  predicate Tiles(ranges: seq<Range>) {
    && (ranges != [] ==> ranges[0].lower == 0.0)
    && (forall k :: 0 < k < |ranges| ==> ranges[k - 1].upper == ranges[k].lower)
    && (forall k :: 0 <= k < |ranges| ==> ranges[k].lower < ranges[k].upper)
  }

  predicate Coalesced(ranges: seq<Range>) {
    forall k :: 0 < k < |ranges| ==> ranges[k - 1].count != 0 || ranges[k].count != 0
  }

  /** What a reader finds for the bucket from `lower` to `upper`: the count of the range
      around it, looking from the end. */
  function CountIn(ranges: seq<Range>, n: nat, lower: real, upper: real): nat
    requires n <= |ranges|
  {
    if n == 0 then 0
    else if ranges[n - 1].lower <= lower && upper <= ranges[n - 1].upper then ranges[n - 1].count
    else CountIn(ranges, n - 1, lower, upper)
  }

  predicate Recovers(ranges: seq<Range>, buckets: seq<Bucket>) {
    forall i :: 0 <= i < |buckets| ==>
      CountIn(ranges, |ranges|, Start(buckets, i), Start(buckets, i + 1)) == buckets[i].count
  }

  /** A range that is not empty is one bucket. */
  predicate Exact(ranges: seq<Range>, buckets: seq<Bucket>) {
    forall k :: 0 <= k < |ranges| && ranges[k].count != 0 ==>
      exists i :: 0 <= i < |buckets| && ranges[k] == Range(Start(buckets, i), buckets[i].upperBound, buckets[i].count)
  }

  // ---------- Lines and the buckets they stand for ----------

  /** `r` is the line for the buckets from `a` up to `b`. */
  predicate Line(r: Range, buckets: seq<Bucket>, a: nat, b: nat) {
    && a < b <= |buckets|
    && r == Range(Start(buckets, a), Start(buckets, b), buckets[a].count)
    && (b == a + 1 || Empty(buckets, a, b))
  }

  predicate Empty(buckets: seq<Bucket>, a: nat, b: nat) {
    a <= b <= |buckets| && forall i :: a <= i < b ==> buckets[i].count == 0
  }

  /** The first `k` lines stand for the buckets up to `cuts[k]`. */
  predicate Written(ranges: seq<Range>, cuts: seq<nat>, buckets: seq<Bucket>, k: nat)
    requires k <= |ranges| && |cuts| == |ranges| + 1
  {
    if k == 0 then cuts[0] == 0
    else
      && Written(ranges, cuts, buckets, k - 1)
      && Line(ranges[k - 1], buckets, cuts[k - 1], cuts[k])
      && (k >= 2 ==> ranges[k - 2].count != 0 || ranges[k - 1].count != 0)
  }

  lemma {:induction false} WrittenPrefix(ranges: seq<Range>, cuts: seq<nat>, buckets: seq<Bucket>, r: Range, b: nat,
      k: nat)
    requires k <= |ranges| && |cuts| == |ranges| + 1 && Written(ranges, cuts, buckets, k)
    ensures Written(ranges + [r], cuts + [b], buckets, k)
  {
    if k == 0 {
    } else {
      WrittenPrefix(ranges, cuts, buckets, r, b, k - 1);
    }
  }

  lemma WriteLine(ranges: seq<Range>, cuts: seq<nat>, buckets: seq<Bucket>, r: Range, b: nat)
    requires |cuts| == |ranges| + 1 && Written(ranges, cuts, buckets, |ranges|)
    requires Line(r, buckets, cuts[|ranges|], b)
    requires ranges == [] || ranges[|ranges| - 1].count != 0 || r.count != 0
    ensures Written(ranges + [r], cuts + [b], buckets, |ranges| + 1)
  {
    WrittenPrefix(ranges, cuts, buckets, r, b, |ranges|);
  }

  lemma {:induction false} WrittenUpTo(ranges: seq<Range>, cuts: seq<nat>, buckets: seq<Bucket>, k: nat, n: nat)
    requires k <= n <= |ranges| && |cuts| == |ranges| + 1 && Written(ranges, cuts, buckets, n)
    ensures Written(ranges, cuts, buckets, k) && cuts[k] <= |buckets|
    decreases n
  {
    if k < n {
      WrittenUpTo(ranges, cuts, buckets, k, n - 1);
    }
  }

  lemma {:induction false} StartsGrow(buckets: seq<Bucket>, i: nat, j: nat)
    requires Increasing(buckets) && i <= j <= |buckets|
    ensures Start(buckets, i) <= Start(buckets, j) && (i < j ==> Start(buckets, i) < Start(buckets, j))
  {
  }

  /** Reading the lines back gives the count of every bucket. */
  lemma {:induction false} WrittenRecovers(ranges: seq<Range>, cuts: seq<nat>, buckets: seq<Bucket>, k: nat, i: nat)
    requires Increasing(buckets) && k <= |ranges| && |cuts| == |ranges| + 1 && Written(ranges, cuts, buckets, k)
    requires cuts[k] <= |buckets| && i < cuts[k]
    ensures CountIn(ranges, k, Start(buckets, i), Start(buckets, i + 1)) == buckets[i].count
  {
    var a, b := cuts[k - 1], cuts[k];
    if i >= a {
      StartsGrow(buckets, a, i);
      StartsGrow(buckets, i + 1, b);
    } else {
      StartsGrow(buckets, i, a);
      WrittenRecovers(ranges, cuts, buckets, k - 1, i);
    }
  }

  lemma WrittenTiles(ranges: seq<Range>, cuts: seq<nat>, buckets: seq<Bucket>)
    requires Increasing(buckets) && |cuts| == |ranges| + 1 && Written(ranges, cuts, buckets, |ranges|)
    ensures Tiles(ranges) && Coalesced(ranges) && End(ranges) == Start(buckets, cuts[|ranges|])
  {
    if ranges != [] {
      WrittenUpTo(ranges, cuts, buckets, 1, |ranges|);
      assert Written(ranges, cuts, buckets, 0);
    }
    forall k | 0 <= k < |ranges|
      ensures ranges[k].lower < ranges[k].upper
      ensures k > 0 ==> ranges[k - 1].upper == ranges[k].lower && (ranges[k - 1].count != 0 || ranges[k].count != 0)
    {
      WrittenUpTo(ranges, cuts, buckets, k + 1, |ranges|);
      StartsGrow(buckets, cuts[k], cuts[k + 1]);
    }
  }

  lemma WrittenExact(ranges: seq<Range>, cuts: seq<nat>, buckets: seq<Bucket>)
    requires |cuts| == |ranges| + 1 && Written(ranges, cuts, buckets, |ranges|)
    ensures Exact(ranges, buckets)
  {
    forall k | 0 <= k < |ranges| && ranges[k].count != 0
      ensures exists i :: 0 <= i < |buckets| && ranges[k] == Range(Start(buckets, i), buckets[i].upperBound,
          buckets[i].count)
    {
      WrittenUpTo(ranges, cuts, buckets, k + 1, |ranges|);
      assert ranges[k] == Range(Start(buckets, cuts[k]), buckets[cuts[k]].upperBound, buckets[cuts[k]].count);
    }
  }

  method WriteLines(buckets: seq<Bucket>) returns (ranges: seq<Range>, ghost cuts: seq<nat>)
    ensures |cuts| == |ranges| + 1 && cuts[|ranges|] == |buckets|
    ensures Written(ranges, cuts, buckets, |ranges|)
  {
    ranges, cuts := [], [0];
    var coalescedLower, coalescedUpper, prevUpper, coalesced := 0.0, 0.0, 0.0, false;
    for i := 0 to |buckets|
      invariant |cuts| == |ranges| + 1 && Written(ranges, cuts, buckets, |ranges|)
      invariant cuts[|ranges|] <= i && (coalesced <==> cuts[|ranges|] < i)
      invariant ranges != [] ==> ranges[|ranges| - 1].count != 0
      invariant Empty(buckets, cuts[|ranges|], i)
      invariant prevUpper == Start(buckets, cuts[|ranges|])
      invariant coalesced ==> coalescedLower == prevUpper && coalescedUpper == Start(buckets, i)
    {
      var count := buckets[i].count;
      if count == 0 {
        if !coalesced {
          coalescedLower := prevUpper;
        }
        coalescedUpper := buckets[i].upperBound;
        coalesced := true;
        continue;
      }
      if coalesced {
        var zeros := Range(coalescedLower, coalescedUpper, 0);
        WriteLine(ranges, cuts, buckets, zeros, i);
        ranges, cuts := ranges + [zeros], cuts + [i];
        prevUpper := coalescedUpper;
      }
      coalesced := false;
      var line := Range(prevUpper, buckets[i].upperBound, count);
      WriteLine(ranges, cuts, buckets, line, i + 1);
      ranges, cuts := ranges + [line], cuts + [i + 1];
      prevUpper := buckets[i].upperBound;
    }
    if coalesced {
      var zeros := Range(coalescedLower, coalescedUpper, 0);
      WriteLine(ranges, cuts, buckets, zeros, |buckets|);
      ranges, cuts := ranges + [zeros], cuts + [|buckets|];
    }
  }

  /** The lines join end to end from zero to the last bound, no two neighbours are both empty,
      a line that is not empty is one bucket, and the counts can be read back. */
  method Dump(buckets: seq<Bucket>) returns (ranges: seq<Range>)
    requires Increasing(buckets)
    ensures Tiles(ranges) && End(ranges) == Start(buckets, |buckets|)
    ensures Coalesced(ranges)
    ensures Recovers(ranges, buckets)
    ensures Exact(ranges, buckets)
  {
    ghost var cuts;
    ranges, cuts := WriteLines(buckets);
    WrittenTiles(ranges, cuts, buckets);
    WrittenExact(ranges, cuts, buckets);
    forall i | 0 <= i < |buckets|
      ensures CountIn(ranges, |ranges|, Start(buckets, i), Start(buckets, i + 1)) == buckets[i].count
    {
      WrittenRecovers(ranges, cuts, buckets, |ranges|, i);
    }
  }
}
