/** Dropping the histograms that are not to be uploaded (src/utils.cc). */
module HistogramFilter {
  import opened Wrappers

  datatype Histogram = Histogram(id: nat, distType: Option<nat>)

  /** The elements that are kept, in order. */
  function Filter(s: seq<Histogram>, n: nat, remove: Histogram -> bool): (r: seq<Histogram>)
    requires n <= |s|
    ensures |r| <= n
  {
    if n == 0 then []
    else if remove(s[n - 1]) then Filter(s, n - 1, remove)
    else Filter(s, n - 1, remove) + [s[n - 1]]
  }

  function Filtered(s: seq<Histogram>, remove: Histogram -> bool): seq<Histogram> {
    Filter(s, |s|, remove)
  }

  /** Exactly the matching elements go, every copy of them, and nothing else. */
  lemma {:induction false} FilterCounts(s: seq<Histogram>, n: nat, remove: Histogram -> bool, h: Histogram)
    requires n <= |s|
    ensures multiset(Filter(s, n, remove))[h] == if remove(h) then 0 else multiset(s[..n])[h]
  {
    if n == 0 {
    } else {
      FilterCounts(s, n - 1, remove, h);
      assert s[..n] == s[..n - 1] + [s[n - 1]];
      CountSnoc(s[..n - 1], s[n - 1], h);
      CountSnoc(Filter(s, n - 1, remove), s[n - 1], h);
    }
  }

  lemma CountSnoc(s: seq<Histogram>, x: Histogram, h: Histogram)
    ensures multiset(s + [x])[h] == multiset(s)[h] + if x == h then 1 else 0
  {
  }

  lemma {:induction false} KeepsAll(s: seq<Histogram>, n: nat, remove: Histogram -> bool)
    requires n <= |s| && forall i :: 0 <= i < n ==> !remove(s[i])
    ensures Filter(s, n, remove) == s[..n]
  {
    if n == 0 {
    } else {
      KeepsAll(s, n - 1, remove);
      assert s[..n] == s[..n - 1] + [s[n - 1]];
    }
  }

  lemma {:induction false} OnlyKept(s: seq<Histogram>, n: nat, remove: Histogram -> bool)
    requires n <= |s|
    ensures forall i :: 0 <= i < |Filter(s, n, remove)| ==> !remove(Filter(s, n, remove)[i])
  {
    if n == 0 {
    } else {
      OnlyKept(s, n - 1, remove);
    }
  }

  /** Filtering again changes nothing. */
  lemma FilterIdempotent(s: seq<Histogram>, remove: Histogram -> bool)
    ensures Filtered(Filtered(s, remove), remove) == Filtered(s, remove)
  {
    var r := Filtered(s, remove);
    OnlyKept(s, |s|, remove);
    KeepsAll(r, |r|, remove);
    assert r[..|r|] == r;
  }

  lemma {:induction false} FilterPrefix(a: seq<Histogram>, b: seq<Histogram>, n: nat, remove: Histogram -> bool)
    requires n <= |a| && n <= |b| && forall i :: 0 <= i < n ==> a[i] == b[i]
    ensures Filter(a, n, remove) == Filter(b, n, remove)
  {
    if n == 0 {
    } else {
      FilterPrefix(a, b, n - 1, remove);
    }
  }

  lemma SwapKeepsElements(before: seq<Histogram>, after: seq<Histogram>, i: nat, j: nat)
    requires i < j < |before| && after == before[i := before[j]][j := before[i]]
    ensures multiset(after) == multiset(before)
  {
    assert before == before[..i] + [before[i]] + before[i + 1..j] + [before[j]] + before[j + 1..];
    assert after == before[..i] + [before[j]] + before[i + 1..j] + [before[i]] + before[j + 1..];
  }

  /** Up to `scan`, the elements of `was` have been sorted into kept ones, in order, and others. */
  predicate Partitioned(now: seq<Histogram>, was: seq<Histogram>, write: nat, scan: nat, remove: Histogram -> bool) {
    && write <= scan <= |was| == |now|
    && now[..write] == Filter(was, scan, remove)
    && (forall i :: write <= i < scan ==> remove(now[i]))
    && (forall i :: scan <= i < |now| ==> now[i] == was[i])
    && multiset(now) == multiset(was)
  }

  lemma Skip(now: seq<Histogram>, was: seq<Histogram>, write: nat, scan: nat, remove: Histogram -> bool)
    requires Partitioned(now, was, write, scan, remove) && scan < |now| && remove(now[scan])
    ensures Partitioned(now, was, write, scan + 1, remove)
  {
  }

  lemma Keep(before: seq<Histogram>, after: seq<Histogram>, was: seq<Histogram>, write: nat, scan: nat,
      remove: Histogram -> bool)
    requires Partitioned(before, was, write, scan, remove) && write < scan < |before| && !remove(before[scan])
    requires after == before[write := before[scan]][scan := before[write]]
    ensures Partitioned(after, was, write + 1, scan + 1, remove)
  {
    SwapKeepsElements(before, after, write, scan);
    assert after[..write + 1] == before[..write] + [before[scan]];
  }

  /** A repeated field: an array whose first `size` slots are in use. */
  class RepeatedField {
    const data: array<Histogram>
    var size: nat

    predicate Valid()
      reads this
    {
      size <= data.Length
    }

    function Contents(): seq<Histogram>
      requires Valid()
      reads this, data
    {
      data[..size]
    }

    method Truncate(newSize: nat)
      requires Valid() && newSize <= size
      modifies this`size
      ensures Valid() && size == newSize && Contents() == old(Contents())[..newSize]
    {
      size := newSize;
    }

    /** The swapping loop. The slots up to `kept` end up holding what is kept, in order, and the
        rest what is not; between them the elements are the same as before. */
    method Partition(remove: Histogram -> bool) returns (kept: nat)
      requires Valid()
      modifies data
      ensures kept <= size && Partitioned(Contents(), old(Contents()), kept, size, remove)
    {
      ghost var was := Contents();
      var n := size;
      var write := FirstMatch(remove);
      KeepsAll(was, write, remove);
      if write == n {
        return write;
      }
      var scan := write + 1;
      assert Filter(was, scan, remove) == was[..write];
      while scan < n
        invariant n == size && write < scan <= n && Partitioned(Contents(), was, write, scan, remove)
      {
        write := ScanOne(was, write, scan, remove);
        scan := scan + 1;
      }
      kept := write;
    }

    method ScanOne(ghost was: seq<Histogram>, write0: nat, scan: nat, remove: Histogram -> bool) returns (write: nat)
      requires Valid() && write0 < scan < size && Partitioned(Contents(), was, write0, scan, remove)
      modifies data
      ensures write <= scan && Partitioned(Contents(), was, write, scan + 1, remove)
    {
      write := write0;
      if remove(data[scan]) {
        Skip(Contents(), was, write, scan, remove);
      } else {
        ghost var before := Contents();
        Swap(write, scan);
        Keep(before, Contents(), was, write, scan, remove);
        write := write + 1;
      }
    }

    method FirstMatch(remove: Histogram -> bool) returns (write: nat)
      requires Valid()
      ensures write <= size && forall i :: 0 <= i < write ==> !remove(data[i])
      ensures write < size ==> remove(data[write])
    {
      write := 0;
      while write < size && !remove(data[write])
        invariant write <= size && forall i :: 0 <= i < write ==> !remove(data[i])
      {
        write := write + 1;
      }
    }

    method Swap(i: nat, j: nat)
      requires Valid() && i < j < size
      modifies data
      ensures Contents() == old(Contents())[i := old(data[j])][j := old(data[i])]
    {
      data[i], data[j] := data[j], data[i];
    }

    method RemoveIf(remove: Histogram -> bool) returns (removed: nat)
      requires Valid()
      modifies this`size, data
      ensures Valid() && Contents() == Filtered(old(Contents()), remove)
      ensures removed == |old(Contents())| - |Contents()|
    {
      var before := size;
      var kept := Partition(remove);
      Truncate(kept);
      removed := before - kept;
    }
  }

  /** Whether a histogram is to be dropped: it has no type, or one that is not wanted. */
  function Unwanted(types: set<nat>): Histogram -> bool {
    (h: Histogram) => h.distType.None? || h.distType.value !in types
  }

  /** What is left are exactly the histograms of the wanted types, every copy of them. */
  lemma WantedStay(s: seq<Histogram>, types: set<nat>, h: Histogram)
    ensures multiset(Filtered(s, Unwanted(types)))[h]
         == if exists t :: t in types && h.distType == Some(t) then multiset(s)[h] else 0
  {
    FilterCounts(s, |s|, Unwanted(types), h);
    assert s[..|s|] == s;
    if h.distType.Some? {
      assert h.distType == Some(h.distType.value);
    }
  }

  /** And those in front of any one of them stay in front of it. */
  lemma {:induction false} FilterAppend(a: seq<Histogram>, b: seq<Histogram>, remove: Histogram -> bool)
    ensures Filtered(a + b, remove) == Filtered(a, remove) + Filtered(b, remove)
  {
    if b == [] {
      assert a + b == a;
    } else {
      var last := |b| - 1;
      FilterAppend(a, b[..last], remove);
      assert (a + b)[..|a| + last] == a + b[..last];
      FilterPrefix(a + b, a + b[..last], |a| + last, remove);
      FilterPrefix(b, b[..last], last, remove);
    }
  }

  predicate Disjoint(fields: seq<RepeatedField>)
  {
    forall i, j :: 0 <= i < j < |fields| ==> fields[i] != fields[j] && fields[i].data != fields[j].data
  }

  /** filterHistogramsByDistType, over the histograms of every connection of a message. */
  method FilterHistogramsByDistType(conns: seq<RepeatedField>, types: set<nat>)
    requires Disjoint(conns) && forall i :: 0 <= i < |conns| ==> conns[i].Valid()
    modifies conns, set i | 0 <= i < |conns| :: conns[i].data
    ensures forall i :: 0 <= i < |conns| ==>
              conns[i].Valid() && conns[i].Contents() == Filtered(old(conns[i].Contents()), Unwanted(types))
  {
    for n := 0 to |conns|
      invariant Disjoint(conns)
      invariant forall i :: 0 <= i < |conns| ==> conns[i].Valid()
      invariant forall i :: 0 <= i < n ==> conns[i].Contents() == Filtered(old(conns[i].Contents()), Unwanted(types))
      invariant forall i :: n <= i < |conns| ==> conns[i].Contents() == old(conns[i].Contents())
    {
      var _ := conns[n].RemoveIf(Unwanted(types));
    }
  }

  /** Filtering for one set of types and then for another keeps what both want. */
  lemma {:induction false} FilterTwice(s: seq<Histogram>, n: nat, a: set<nat>, b: set<nat>)
    requires n <= |s|
    ensures var once := Filter(s, n, Unwanted(a));
            Filtered(once, Unwanted(b)) == Filter(s, n, Unwanted(a * b))
  {
    if n == 0 {
    } else {
      FilterTwice(s, n - 1, a, b);
      var earlier := Filter(s, n - 1, Unwanted(a));
      FilterPrefix(earlier, earlier + [s[n - 1]], |earlier|, Unwanted(b));
    }
  }
}
