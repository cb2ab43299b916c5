/** The splitter and UpdateQueue over real message objects
    (src/nccl_stats_uploader_executor.cc). The destination of a field is a reference taken
    when the field is begun; a flush replaces the current message but not that reference. */
module UploaderQueue {
  import opened Arithmetic
  import opened MessageSplitting

  datatype FieldKind = Logs | Conns | Events

  class AllStats {
    var uploadIndex: Counter
    var logs: seq<Element>
    var conns: seq<Element>
    var events: seq<Element>

    constructor ()
      ensures View() == Message(0, Fields([], [], []))
    {
      uploadIndex, logs, conns, events := 0, [], [], [];
    }

    function View(): Message
      reads this
    {
      Message(uploadIndex, Fields(logs, conns, events))
    }

    method Append(kind: FieldKind, e: Element)
      modifies this
      ensures View() == Message(old(uploadIndex), Extended(old(View()).fields, kind, [e]))
    {
      match kind
      case Logs => logs := logs + [e];
      case Conns => conns := conns + [e];
      case Events => events := events + [e];
    }
  }

  function Extended(f: Fields, kind: FieldKind, more: seq<Element>): Fields {
    match kind
    case Logs => f.(logs := f.logs + more)
    case Conns => f.(conns := f.conns + more)
    case Events => f.(events := f.events + more)
  }

  lemma ExtendedTwice(f: Fields, kind: FieldKind, a: seq<Element>, e: Element)
    ensures Extended(Extended(f, kind, a), kind, [e]) == Extended(f, kind, a + [e])
    ensures Extended(f, kind, []) == f
  {
    match kind
    case Logs => assert (f.logs + a) + [e] == f.logs + (a + [e]); assert f.logs + [] == f.logs;
    case Conns => assert (f.conns + a) + [e] == f.conns + (a + [e]); assert f.conns + [] == f.conns;
    case Events => assert (f.events + a) + [e] == f.events + (a + [e]); assert f.events + [] == f.events;
  }

  /** uint64_t */
  type Counter = c: nat | c < TWO_64

  predicate Distinct<T(==)>(s: seq<T>) {
    forall i, j :: 0 <= i < j < |s| ==> s[i] != s[j]
  }

  const EMPTY: Fields := Fields([], [], [])

  /** What the queued messages and the current one hold. */
  ghost function Contents(q: seq<AllStats>, sub: AllStats): (c: seq<Fields>)
    reads q, sub
    ensures |c| == |q| + 1
  {
    seq(|q| + 1, j requires 0 <= j < |q| + 1 reads q, sub =>
      if j < |q| then q[j].View().fields else sub.View().fields)
  }

  ghost predicate Numbered(q: seq<AllStats>, index0: nat)
    reads q
  {
    forall j :: 0 <= j < |q| ==> q[j].uploadIndex == IndexAt(index0, j)
  }

  /** Appending a field to the last of `before`, with empty messages after it. */
  function AfterField(before: seq<Fields>, kind: FieldKind, more: seq<Element>, m: nat): seq<Fields>
    requires before != []
  {
    var last := |before| - 1;
    seq(m, j requires 0 <= j =>
      if j < last then before[j]
      else if j == last then Extended(before[j], kind, more)
      else EMPTY)
  }

  lemma AfterFieldMore(before: seq<Fields>, kind: FieldKind, more: seq<Element>, m: nat)
    requires before != [] && m >= |before|
    ensures AfterField(before, kind, more, m + 1) == AfterField(before, kind, more, m) + [EMPTY]
  {
  }

  lemma AfterFieldOne(before: seq<Fields>, kind: FieldKind, more: seq<Element>, e: Element, m: nat)
    requires 0 < |before| <= m
    ensures var k := |before| - 1;
            var now := AfterField(before, kind, more, m);
            now[k := Extended(now[k], kind, [e])] == AfterField(before, kind, more + [e], m)
  {
    ExtendedTwice(before[|before| - 1], kind, more, e);
  }

  function TwoFields(f: Fields, c: nat, m: nat): seq<Fields> {
    AfterField(AfterField([EMPTY], Logs, Reversed(f.logs), c + 1), Conns, Reversed(f.conns), m)
  }

  function AllFields(f: Fields, c: nat, e: nat, m: nat): seq<Fields> {
    seq(m, j requires 0 <= j => PlacedAt(f, c, e, j))
  }

  lemma ThreeFields(f: Fields, c: nat, e: nat, n: nat)
    requires c <= e <= n
    ensures AfterField(TwoFields(f, c, e + 1), Events, Reversed(f.events), n + 1) == AllFields(f, c, e, n + 1)
  {
    var logs := AfterField([EMPTY], Logs, Reversed(f.logs), c + 1);
    var conns := TwoFields(f, c, e + 1);
    var events := AfterField(conns, Events, Reversed(f.events), n + 1);
    assert [] + Reversed(f.logs) == Reversed(f.logs);
    assert [] + Reversed(f.conns) == Reversed(f.conns);
    assert [] + Reversed(f.events) == Reversed(f.events);
    forall j: nat | j <= n ensures events[j] == PlacedAt(f, c, e, j) {
      if j <= c {
        assert logs[j] == Fields(if j == 0 then Reversed(f.logs) else [], [], []);
      }
      if j <= e {
        assert conns[j] == Fields(if j == 0 then Reversed(f.logs) else [], if j == c then Reversed(f.conns) else [],
            []);
      }
    }
  }

  /** While a field is being split: `before` is what the messages held when it was begun,
      its last entry is the destination, and `moved` has been moved there since. */
  ghost predicate Holds(q: seq<AllStats>, sub: AllStats, destination: AllStats, before: seq<Fields>,
                        kind: FieldKind, moved: seq<Element>, index0: nat)
    reads q, sub
  {
    && 0 < |before| <= |q| + 1
    && Distinct(q) && sub !in q
    && destination == (if |before| == |q| + 1 then sub else q[|before| - 1])
    && Contents(q, sub) == AfterField(before, kind, moved, |q| + 1)
    && Numbered(q, index0)
  }

  lemma ItemsSlices(f: Fields)
    ensures var items := Items(f); var a := |f.logs|; var b := a + |f.conns|;
            && items[0..a] == Reversed(f.logs)
            && items[a..b] == Reversed(f.conns)
            && items[b..b + |f.events|] == Reversed(f.events)
            && b + |f.events| == |items|
  {
  }

  class NcclStatsUploaderExecutor {
    const hasUploader: bool
    var index: Counter
    var queue: seq<AllStats>

    constructor (hasUploader: bool)
      ensures index == 0 && queue == [] && this.hasUploader == hasUploader
    {
      this.hasUploader, index, queue := hasUploader, 0, [];
    }

    /** The lambda addSubMessageToQ: numbers and queues the current message, begins a new one. */
    method AddSubMessageToQ(q0: seq<AllStats>, sub0: AllStats) returns (q: seq<AllStats>, sub: AllStats)
      modifies this`index, sub0`uploadIndex
      ensures q == q0 + [sub0] && fresh(sub)
      ensures Contents(q, sub) == old(Contents(q0, sub0)) + [EMPTY]
      ensures sub0.uploadIndex == old(index) && index == (old(index) + 1) % TWO_64
    {
      sub0.uploadIndex := index;
      index := (index + 1) % TWO_64;
      q := q0 + [sub0];
      sub := new AllStats();
    }

    /** MoveSingleElementToEnd, as seen from the queue that holds the destination. */
    method AppendAt(q: seq<AllStats>, sub: AllStats, destination: AllStats, ghost k: nat, kind: FieldKind, e: Element)
      requires Distinct(q) && sub !in q && k <= |q| && destination == (if k == |q| then sub else q[k])
      modifies destination
      ensures Contents(q, sub) == old(Contents(q, sub))[k := Extended(old(Contents(q, sub))[k], kind, [e])]
      ensures destination.uploadIndex == old(destination.uploadIndex)
    {
      destination.Append(kind, e);
    }

    /** One iteration of splitField: flush if the element does not fit, then move it to the
        field's destination, which is message `k`. */
    method PlaceElement(current: Element, kind: FieldKind, quota: nat, q0: seq<AllStats>, sub0: AllStats,
                        size0: nat, destination: AllStats, ghost k: nat,
                        ghost before: seq<Fields>, ghost moved: seq<Element>, ghost index0: nat)
      returns (q: seq<AllStats>, sub: AllStats, size: nat)
      requires |before| == k + 1 && Holds(q0, sub0, destination, before, kind, moved, index0)
      requires index == IndexAt(index0, |q0|)
      modifies this`index, sub0`uploadIndex, destination
      ensures Holds(q, sub, destination, before, kind, moved + [current], index0)
      ensures index == IndexAt(index0, |q|)
      ensures size == (if size0 != 0 && size0 + current.size > quota then 0 else size0) + current.size
      ensures if size0 != 0 && size0 + current.size > quota then q == q0 + [sub0] && fresh(sub)
              else q == q0 && sub == sub0
    {
      q, sub, size := q0, sub0, size0;
      if size != 0 && size + current.size > quota {
        IndexSuccessor(index0, |q|);
        AfterFieldMore(before, kind, moved, |q| + 1);
        q, sub := AddSubMessageToQ(q, sub);
        size := 0;
      }
      AfterFieldOne(before, kind, moved, current, |q| + 1);
      AppendAt(q, sub, destination, k, kind, current);
      size := size + current.size;
    }

    /** The lambda splitField. `items[n..]` starts with the reversed source. */
    method SplitField(source: seq<Element>, kind: FieldKind, quota: nat,
                      q0: seq<AllStats>, sub0: AllStats, size0: nat,
                      ghost items: seq<Element>, ghost n: nat, ghost index0: nat)
      returns (q: seq<AllStats>, sub: AllStats, size: nat)
      requires n + |source| <= |items| && items[n..n + |source|] == Reversed(source)
      requires size0 == Running(items, quota, n) && |q0| == Flushes(items, quota, n)
      requires Distinct(q0) && sub0 !in q0
      requires index == IndexAt(index0, |q0|) && Numbered(q0, index0)
      modifies this`index, sub0
      ensures size == Running(items, quota, n + |source|) && |q| == Flushes(items, quota, n + |source|)
      ensures |q| >= |q0| && q[..|q0|] == q0
      ensures forall j :: |q0| < j < |q| ==> fresh(q[j])
      ensures |q| > |q0| ==> fresh(sub)
      ensures Holds(q, sub, sub0, old(Contents(q0, sub0)), kind, Reversed(source), index0)
      ensures index == IndexAt(index0, |q|)
    {
      q, sub, size := q0, sub0, size0;
      var destination := sub;
      var remaining := source;
      ghost var before := Contents(q0, sub0);
      ghost var moved := [];
      ExtendedTwice(sub0.View().fields, kind, [], Element(0, 0));
      assert Contents(q, sub) == AfterField(before, kind, moved, |q| + 1);
      while remaining != []
        invariant |remaining| + |moved| == |source|
        invariant remaining == source[..|remaining|]
        invariant moved == Reversed(source)[..|moved|]
        invariant size == Running(items, quota, n + |moved|) && |q| == Flushes(items, quota, n + |moved|)
        invariant |q| >= |q0| && q[..|q0|] == q0
        invariant forall j :: |q0| < j < |q| ==> fresh(q[j])
        invariant if |q| > |q0| then fresh(sub) else sub == sub0
        invariant Holds(q, sub, destination, before, kind, moved, index0)
        invariant index == IndexAt(index0, |q|)
        decreases |remaining|
      {
        var current := remaining[|remaining| - 1];
        assert current == Reversed(source)[|moved|] == items[n + |moved|];
        q, sub, size := PlaceElement(current, kind, quota, q, sub, size, destination, |q0|, before, moved, index0);
        remaining := remaining[..|remaining| - 1];
        moved := moved + [current];
      }
      assert moved == Reversed(source);
    }

    /** The first two calls of splitField. */
    method SplitLogsAndConns(msg: Fields, quota: nat, ghost items: seq<Element>, ghost c: nat)
      returns (q: seq<AllStats>, sub: AllStats, size: nat)
      requires var a := |msg.logs|; var b := a + |msg.conns|;
               && b <= |items| && items[0..a] == Reversed(msg.logs) && items[a..b] == Reversed(msg.conns)
               && c == Flushes(items, quota, a)
      modifies this`index
      ensures var b := |msg.logs| + |msg.conns|;
              size == Running(items, quota, b) && |q| == Flushes(items, quota, b)
      ensures Distinct(q) && sub !in q && fresh(sub) && forall j :: 0 <= j < |q| ==> fresh(q[j])
      ensures c <= |q|
      ensures Contents(q, sub) == TwoFields(msg, c, |q| + 1)
      ensures Numbered(q, old(index)) && index == IndexAt(old(index), |q|)
    {
      ghost var index0 := index;
      sub := new AllStats();
      size := 0;
      q := [];
      assert Contents(q, sub) == [EMPTY];
      q, sub, size := SplitField(msg.logs, Logs, quota, q, sub, size, items, 0, index0);
      q, sub, size := SplitField(msg.conns, Conns, quota, q, sub, size, items, |msg.logs|, index0);
    }

    /** The three calls of splitField; the last message is still being filled. */
    method SplitFields(msg: Fields, quota: nat, ghost items: seq<Element>, ghost c: nat, ghost e: nat)
      returns (q: seq<AllStats>, sub: AllStats)
      requires var a := |msg.logs|; var b := a + |msg.conns|;
               && |items| == b + |msg.events|
               && items[0..a] == Reversed(msg.logs)
               && items[a..b] == Reversed(msg.conns)
               && items[b..|items|] == Reversed(msg.events)
               && c == Flushes(items, quota, a) && e == Flushes(items, quota, b)
      modifies this`index
      ensures Distinct(q) && sub !in q && fresh(sub) && forall j :: 0 <= j < |q| ==> fresh(q[j])
      ensures |q| == Flushes(items, quota, |items|)
      ensures c <= e <= |q|
      ensures Contents(q, sub) == AfterField(TwoFields(msg, c, e + 1), Events, Reversed(msg.events), |q| + 1)
      ensures Numbered(q, old(index)) && index == IndexAt(old(index), |q|)
    {
      ghost var index0 := index;
      var size;
      q, sub, size := SplitLogsAndConns(msg, quota, items, c);
      q, sub, size := SplitField(msg.events, Events, quota, q, sub, size, items, |items| - |msg.events|, index0);
    }

    /** SplitAllStatsMessageIntoQ. */
    method SplitAllStatsMessageIntoQ(msg: Fields, bytesPerMessage: nat) returns (q: seq<AllStats>)
      modifies this`index
      ensures |q| == |Split(msg, bytesPerMessage, old(index))|
      ensures forall j :: 0 <= j < |q| ==>
                fresh(q[j]) && q[j].View() == Split(msg, bytesPerMessage, old(index))[j]
      ensures Distinct(q)
      ensures index == IndexAt(old(index), |q|)
    {
      ItemsSlices(msg);
      ghost var c, e := ConnsTarget(msg, bytesPerMessage), EventsTarget(msg, bytesPerMessage);
      var sub;
      q, sub := SplitFields(msg, bytesPerMessage, Items(msg), c, e);
      ThreeFields(msg, c, e, |q|);
      IndexSuccessor(old(index), |q|);
      q, sub := AddSubMessageToQ(q, sub);
      forall j | 0 <= j < |q| ensures q[j].View() == Split(msg, bytesPerMessage, old(index))[j] {
        assert q[j].View().fields == Contents(q, sub)[j] == PlacedAt(msg, c, e, j);
      }
    }

    /** UpdateQueue: appends the start entry, splits, and replaces the queue only if it is
        empty. A refused update has already consumed upload indices. */
    method UpdateQueue(msg: Fields, startEntry: Element, maxBytes: nat) returns (ok: bool)
      modifies this`index, this`queue
      ensures ok <==> hasUploader && old(queue) == []
      ensures !ok ==> queue == old(queue)
      ensures var split := Split(msg.(logs := msg.logs + [startEntry]), maxBytes, old(index));
              && index == (if hasUploader then IndexAt(old(index), |split|) else old(index))
              && (ok ==> |queue| == |split| && Distinct(queue)
                         && forall j :: 0 <= j < |split| ==> queue[j].View() == split[j])
      ensures ok ==> queue != [] && queue[0].logs != [] && queue[0].logs[0] == startEntry
    {
      if !hasUploader {
        return false;
      }
      var q := SplitAllStatsMessageIntoQ(msg.(logs := msg.logs + [startEntry]), maxBytes);
      ok := queue == [];
      if ok {
        queue := q;
      }
    }
  }
}
