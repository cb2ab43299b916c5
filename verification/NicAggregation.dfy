/** Totals of finite maps of exact reals, independent of any iteration order. */
module MapTotals {

  ghost function Total<K(!new)>(m: map<K, real>): real {
    if m == map[] then 0.0
    else
      var k :| k in m;
      m[k] + Total(m - {k})
  }

  lemma {:induction false} TotalRemove<K(!new)>(m: map<K, real>, k: K)
    requires k in m
    ensures Total(m) == m[k] + Total(m - {k})
  {
    var first :| first in m && Total(m) == m[first] + Total(m - {first});
    if first != k {
      TotalRemove(m - {first}, k);
      TotalRemove(m - {k}, first);
      assert m - {first} - {k} == m - {k} - {first};
    }
  }

  lemma TotalUpdate<K(!new)>(m: map<K, real>, k: K, x: real)
    requires k in m
    ensures Total(m[k := x]) == Total(m) - m[k] + x
  {
    TotalRemove(m, k);
    TotalRemove(m[k := x], k);
    assert m[k := x] - {k} == m - {k};
  }

  lemma {:induction false} TotalAllZero<K(!new)>(m: map<K, real>)
    requires forall k :: k in m ==> m[k] == 0.0
    ensures Total(m) == 0.0
  {
    if m != map[] {
      var k :| k in m;
      TotalRemove(m, k);
      TotalAllZero(m - {k});
    }
  }

  /** An order in which a loop over the map may visit its keys. */
  ghost predicate IsOrder<K(!new)>(order: seq<K>, keys: set<K>) {
    && (forall i, j :: 0 <= i < j < |order| ==> order[i] != order[j])
    && (forall k :: k in order <==> k in keys)
  }

  lemma OrderPush<K(!new)>(order: seq<K>, keys: set<K>, k: K)
    requires IsOrder(order, keys) && k !in keys
    ensures IsOrder(order + [k], keys + {k})
  {
  }

  lemma OrderPop<K(!new)>(order: seq<K>, keys: set<K>)
    requires IsOrder(order, keys) && order != []
    ensures order[|order| - 1] in keys
    ensures IsOrder(order[..|order| - 1], keys - {order[|order| - 1]})
  {
    var rest := order[..|order| - 1];
    assert order == rest + [order[|order| - 1]];
    forall k | k in keys && k != order[|order| - 1] ensures k in rest {
      assert k in order;
    }
  }
}

/** The pass over all NIC vectors at the end of a generation (src/nccl_stats_aggregator.cc,
    aggregateNicStatsinHistogram and zeroOutNicStats). One carry is shared by every NIC and
    both directions. */
module NicAggregation {
  import opened RealSums
  import opened BandwidthWindow
  import opened NicShaping
  import opened MapTotals

  datatype NicCells = NicCells(send: seq<real>, recv: seq<real>)

  /** A NIC, named by its local address. */
  datatype Nic = Nic(ip: string)

  type NicMap = map<Nic, NicCells>

  predicate AllOfSize(nics: NicMap, size: nat) {
    forall k :: k in nics ==> |nics[k].send| == |nics[k].recv| == size
  }

  /** The spans processed by the pass, in processing order: per NIC first Send, then Recv. */
  function Arrivals(nics: NicMap, order: seq<Nic>, limit: nat, size: nat): seq<real>
    requires limit <= size && AllOfSize(nics, size)
    requires forall k :: k in order ==> k in nics
  {
    if order == [] then []
    else
      var last := |order| - 1;
      Arrivals(nics, order[..last], limit, size)
      + nics[order[last]].send[..limit] + nics[order[last]].recv[..limit]
  }

  function Processed(cells: NicCells, limit: nat): real
    requires limit <= |cells.send| && limit <= |cells.recv|
  {
    Sum(cells.send[..limit]) + Sum(cells.recv[..limit])
  }

  function ProcessedMap(nics: NicMap, keys: set<Nic>, limit: nat, size: nat): map<Nic, real>
    requires limit <= size && AllOfSize(nics, size) && keys <= nics.Keys
  {
    map k | k in keys :: Processed(nics[k], limit)
  }

  lemma ArrivalsLastSum(nics: NicMap, order: seq<Nic>, limit: nat, size: nat)
    requires limit <= size && AllOfSize(nics, size) && order != []
    requires forall x :: x in order ==> x in nics
    ensures var last := |order| - 1;
            Sum(Arrivals(nics, order, limit, size))
            == Sum(Arrivals(nics, order[..last], limit, size)) + Processed(nics[order[last]], limit)
  {
    var last := |order| - 1;
    var k := order[last];
    var before := Arrivals(nics, order[..last], limit, size);
    SumAppend(before, nics[k].send[..limit]);
    SumAppend(before + nics[k].send[..limit], nics[k].recv[..limit]);
  }

  lemma ProcessedRemove(nics: NicMap, keys: set<Nic>, k: Nic, limit: nat, size: nat)
    requires limit <= size && AllOfSize(nics, size) && keys <= nics.Keys && k in keys
    ensures Total(ProcessedMap(nics, keys, limit, size))
         == Processed(nics[k], limit) + Total(ProcessedMap(nics, keys - {k}, limit, size))
  {
    TotalRemove(ProcessedMap(nics, keys, limit, size), k);
    assert ProcessedMap(nics, keys, limit, size) - {k} == ProcessedMap(nics, keys - {k}, limit, size);
  }

  /** The bytes the pass processes do not depend on the order it takes. */
  lemma {:induction false} ArrivalsTotal(nics: NicMap, order: seq<Nic>, keys: set<Nic>, limit: nat, size: nat)
    requires limit <= size && AllOfSize(nics, size) && keys <= nics.Keys && IsOrder(order, keys)
    ensures Sum(Arrivals(nics, order, limit, size)) == Total(ProcessedMap(nics, keys, limit, size))
  {
    if order == [] {
      assert keys == {};
      TotalAllZero(ProcessedMap(nics, keys, limit, size));
    } else {
      var k, front := order[|order| - 1], order[..|order| - 1];
      OrderPop(order, keys);
      ArrivalsTotal(nics, front, keys - {k}, limit, size);
      ArrivalsLastSum(nics, order, limit, size);
      ProcessedRemove(nics, keys, k, limit, size);
    }
  }

  lemma {:induction false} ArrivalsNonNegative(nics: NicMap, order: seq<Nic>, limit: nat, size: nat)
    requires limit <= size && AllOfSize(nics, size)
    requires forall k :: k in order ==> k in nics
    requires forall k :: k in nics ==> NonNegative(nics[k].send) && NonNegative(nics[k].recv)
    ensures NonNegative(Arrivals(nics, order, limit, size))
  {
    if order == [] {
    } else {
      ArrivalsNonNegative(nics, order[..|order| - 1], limit, size);
    }
  }

  /** A whole pass in any order: shaped bytes plus the new carry equal the processed bytes
      plus the old carry, the carry stays non-negative and every shaped slot obeys the cap. */
  lemma PassConserves(nics: NicMap, order: seq<Nic>, limit: nat, size: nat, carry: real, cap: real)
    requires limit <= size && AllOfSize(nics, size) && IsOrder(order, nics.Keys)
    requires forall k :: k in nics ==> NonNegative(nics[k].send) && NonNegative(nics[k].recv)
    requires carry >= 0.0 && cap >= 0.0
    ensures var arrivals := Arrivals(nics, order, limit, size);
            var shaped := Shape(carry, arrivals, cap);
            && Sum(shaped) + Carry(carry, arrivals, cap) == carry + Total(ProcessedMap(nics, nics.Keys, limit, size))
            && Carry(carry, arrivals, cap) >= 0.0
            && forall i :: 0 <= i < |shaped| ==> 0.0 <= shaped[i] <= cap
  {
    ArrivalsNonNegative(nics, order, limit, size);
    ArrivalsTotal(nics, order, nics.Keys, limit, size);
    ShapeConserves(carry, Arrivals(nics, order, limit, size), cap);
  }

  /** Shaping one more NIC extends the pass. */
  lemma ShapeOneMore(nics: NicMap, order: seq<Nic>, k: Nic, limit: nat, size: nat, c0: real, cap: real)
    requires limit <= size && AllOfSize(nics, size) && k in nics
    requires forall x :: x in order ==> x in nics
    ensures var seen := Arrivals(nics, order, limit, size);
            var all := Arrivals(nics, order + [k], limit, size);
            var afterSend := Carry(Carry(c0, seen, cap), nics[k].send[..limit], cap);
            && Shape(c0, all, cap) == Shape(c0, seen, cap)
                                      + Shape(Carry(c0, seen, cap), nics[k].send[..limit], cap)
                                      + Shape(afterSend, nics[k].recv[..limit], cap)
            && Carry(c0, all, cap) == Carry(afterSend, nics[k].recv[..limit], cap)
  {
    var seen := Arrivals(nics, order, limit, size);
    assert (order + [k])[..|order|] == order;
    ShapeAppend(c0, seen, nics[k].send[..limit], cap);
    ShapeAppend(c0, seen + nics[k].send[..limit], nics[k].recv[..limit], cap);
  }

  /** The clearing at the end of a pass throws away nothing but zeros when no connection
      wrote beyond the processed prefix. */
  lemma ClearingDiscardsOnlyZeros(cells: NicCells, limit: nat)
    requires limit <= |cells.send| && limit <= |cells.recv|
    requires NonNegative(cells.send) && NonNegative(cells.recv)
    ensures Processed(cells, limit) == Sum(cells.send) + Sum(cells.recv)
       <==> AllZero(cells.send[limit..]) && AllZero(cells.recv[limit..])
  {
    SumSplit(cells.send, limit);
    SumSplit(cells.recv, limit);
    assert NonNegative(cells.send[limit..]) && NonNegative(cells.recv[limit..]);
    SumZeroIffAllZero(cells.send[limit..]);
    SumZeroIffAllZero(cells.recv[limit..]);
    SumNonNegative(cells.send[limit..]);
    SumNonNegative(cells.recv[limit..]);
  }

  lemma SumOfRates(a: real, b: real, bucketTime: nat, x: real, y: real)
    requires Carries(a, bucketTime, x) && Carries(b, bucketTime, y)
    ensures Carries(a + b, bucketTime, x + y)
  {
    var seconds := bucketTime as real / 1000.0;
    assert (a + b) * seconds == a * seconds + b * seconds;
  }

  datatype NicVectors = NicVectors(send: array<real>, recv: array<real>)

  class NcclStatsAggregator {
    const cap: real
    const bucketTime: nat
    const size: nat
    const carryOverBuckets: nat
    const nics: map<Nic, NicVectors>
    var carry: real

    ghost predicate Valid() {
      && bucketTime > 0
      && (forall k :: k in nics ==> nics[k].send != nics[k].recv
                                    && nics[k].send.Length == nics[k].recv.Length == size)
      && (forall k, l :: k in nics && l in nics && k != l ==>
            {nics[k].send, nics[k].recv} !! {nics[l].send, nics[l].recv})
    }

    ghost function Arrays(): set<array<real>> {
      (set k | k in nics :: nics[k].send) + (set k | k in nics :: nics[k].recv)
    }

    ghost function View(): (v: NicMap)
      requires Valid()
      reads Arrays()
      ensures v.Keys == nics.Keys && AllOfSize(v, size)
    {
      map k | k in nics :: NicCells(nics[k].send[..], nics[k].recv[..])
    }

    constructor (cap: real, bucketTime: nat, size: nat, carryOverBuckets: nat, nics: map<Nic, NicVectors>)
      requires bucketTime > 0
      requires forall k :: k in nics ==> nics[k].send != nics[k].recv
                                         && nics[k].send.Length == nics[k].recv.Length == size
      requires forall k, l :: k in nics && l in nics && k != l ==>
                 {nics[k].send, nics[k].recv} !! {nics[l].send, nics[l].recv}
      ensures Valid() && carry == 0.0
      ensures this.cap == cap && this.size == size && this.carryOverBuckets == carryOverBuckets
      ensures this.nics == nics && this.bucketTime == bucketTime
    {
      this.cap, this.bucketTime, this.size := cap, bucketTime, size;
      this.carryOverBuckets, this.nics := carryOverBuckets, nics;
      carry := 0.0;
    }

    ghost function CellsOf(k: Nic): NicCells
      requires Valid() && k in nics
      reads nics[k].send, nics[k].recv
    {
      NicCells(nics[k].send[..], nics[k].recv[..])
    }

    /** aggregateNicStatsinHistogram followed by zeroOutNicStats. The visiting order is
        arbitrary; it is returned together with everything submitted. */
    method AggregateNicStats(unused: nat) returns (order: seq<Nic>, shaped: seq<real>)
      requires Valid()
      modifies this`carry, Arrays()
      ensures IsOrder(order, nics.Keys)
      ensures var arrivals := Arrivals(old(View()), order, ValidLimit(carryOverBuckets, unused, size), size);
              shaped == Shape(old(carry), arrivals, cap) && carry == Carry(old(carry), arrivals, cap)
      ensures forall k :: k in nics ==> View()[k] == NicCells(Zeros(size), Zeros(size))
    {
      var limit := ValidLimit(carryOverBuckets, unused, size);
      ghost var before := View();
      order, shaped := [], [];
      var visited: set<Nic> := {};
      while nics.Keys - visited != {}
        invariant visited <= nics.Keys
        invariant IsOrder(order, visited)
        invariant forall k :: k in nics ==>
                    CellsOf(k) == if k in visited then NicCells(Zeros(size), Zeros(size)) else before[k]
        invariant shaped == Shape(old(carry), Arrivals(before, order, limit, size), cap)
        invariant carry == Carry(old(carry), Arrivals(before, order, limit, size), cap)
        decreases nics.Keys - visited
      {
        var k :| k in nics.Keys - visited;
        var _, send, recv := ShapeNic(k, limit);
        ShapeOneMore(before, order, k, limit, size, old(carry), cap);
        OrderPush(order, visited, k);
        order := order + [k];
        shaped := shaped + send + recv;
        visited := visited + {k};
      }
      assert visited == nics.Keys;
    }

    /** calculateAndUpdateHistogram for both directions of one NIC. */
    method ShapeNic(k: Nic, limit: nat) returns (samples: seq<real>, send: seq<real>, recv: seq<real>)
      requires Valid() && k in nics && limit <= size
      modifies this`carry, Arrays()
      ensures var before := old(CellsOf(k));
              var afterSend := Carry(old(carry), before.send[..limit], cap);
              && send == Shape(old(carry), before.send[..limit], cap)
              && recv == Shape(afterSend, before.recv[..limit], cap)
              && carry == Carry(afterSend, before.recv[..limit], cap)
      ensures CellsOf(k) == NicCells(Zeros(size), Zeros(size))
      ensures forall l :: l in nics && l != k ==> CellsOf(l) == old(CellsOf(l))
      ensures |samples| == 2 * limit
      ensures forall i :: 0 <= i < limit ==> samples[i] == BitsPerSecond(send[i], bucketTime)
                                             && samples[limit + i] == BitsPerSecond(recv[i], bucketTime)
      ensures Carries(Sum(samples), bucketTime, Sum(send) + Sum(recv))
    {
      var sendSamples, recvSamples;
      ghost var before := CellsOf(k);
      assert nics[k].send[..limit] == before.send[..limit];
      assert nics[k].recv[..limit] == before.recv[..limit];
      sendSamples, send, carry := CalculateAndUpdateHistogram(nics[k].send, limit, cap, bucketTime, carry);
      recvSamples, recv, carry := CalculateAndUpdateHistogram(nics[k].recv, limit, cap, bucketTime, carry);
      samples := sendSamples + recvSamples;
      SumAppend(sendSamples, recvSamples);
      SumOfRates(Sum(sendSamples), Sum(recvSamples), bucketTime, Sum(send), Sum(recv));
    }
  }
}
