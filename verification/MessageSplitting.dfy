/** How SplitAllStatsMessageIntoQ cuts a telemetry message (src/nccl_stats_uploader_executor.cc):
    when it flushes, and into which message an element really goes. */
module MessageSplitting {
  import opened Arithmetic

  /** A log entry, connection statistics or event, as its serialized size. */
  datatype Element = Element(id: nat, size: nat)

  /** The three repeated fields of a telemetry message. */
  datatype Fields = Fields(logs: seq<Element>, conns: seq<Element>, events: seq<Element>)

  datatype Message = Message(index: nat, fields: Fields)

  function Reversed<T>(s: seq<T>): (r: seq<T>)
    ensures |r| == |s|
  {
    seq(|s|, i requires 0 <= i < |s| => s[|s| - 1 - i])
  }

  /** Elements in the order the splitter takes them: field by field, each backwards. */
  function Items(f: Fields): seq<Element> {
    Reversed(f.logs) + Reversed(f.conns) + Reversed(f.events)
  }

  function SizeTo(items: seq<Element>, n: nat): nat
    requires n <= |items|
  {
    if n == 0 then 0 else SizeTo(items, n - 1) + items[n - 1].size
  }

  function Size(items: seq<Element>): nat {
    SizeTo(items, |items|)
  }

  /** current_cumulative_size before item `n`. */
  function Running(items: seq<Element>, quota: nat, n: nat): nat
    requires n <= |items|
    decreases n, 0
  {
    if n == 0 then 0
    else if FlushesAt(items, quota, n - 1) then items[n - 1].size
    else Running(items, quota, n - 1) + items[n - 1].size
  }

  predicate FlushesAt(items: seq<Element>, quota: nat, k: nat)
    requires k < |items|
    decreases k, 1
  {
    Running(items, quota, k) != 0 && Running(items, quota, k) + items[k].size > quota
  }

  /** Messages queued before item `n` is placed. */
  function Flushes(items: seq<Element>, quota: nat, n: nat): nat
    requires n <= |items|
  {
    if n == 0 then 0
    else Flushes(items, quota, n - 1) + if FlushesAt(items, quota, n - 1) then 1 else 0
  }

  /** The message whose field a whole input field is moved to: the one current when the
      splitter starts on that field. */
  function ConnsTarget(f: Fields, quota: nat): nat {
    Flushes(Items(f), quota, |f.logs|)
  }

  function EventsTarget(f: Fields, quota: nat): nat {
    Flushes(Items(f), quota, |f.logs| + |f.conns|)
  }

  /** The content of message `j` when all conns go to message `c` and all events to `e`. */
  function PlacedAt(f: Fields, c: nat, e: nat, j: nat): Fields {
    Fields(if j == 0 then Reversed(f.logs) else [],
           if j == c then Reversed(f.conns) else [],
           if j == e then Reversed(f.events) else [])
  }

  function Placed(f: Fields, quota: nat, j: nat): Fields {
    PlacedAt(f, ConnsTarget(f, quota), EventsTarget(f, quota), j)
  }

  /** The upload index after `j` increments of the 64-bit counter. */
  function IndexAt(index: nat, j: nat): nat {
    (index + j) % TWO_64
  }

  /** The queue the splitter produces. */
  function Split(f: Fields, quota: nat, index: nat): seq<Message> {
    seq(Flushes(Items(f), quota, |Items(f)|) + 1, j requires 0 <= j =>
      Message(IndexAt(index, j), Placed(f, quota, j)))
  }

  // ---------- What every split keeps ----------

  function FlattenTo(g: seq<seq<Element>>, n: nat): seq<Element>
    requires n <= |g|
  {
    if n == 0 then [] else FlattenTo(g, n - 1) + g[n - 1]
  }

  function Flatten(g: seq<seq<Element>>): seq<Element> {
    FlattenTo(g, |g|)
  }

  lemma {:induction false} FlattenToPrefix(g: seq<seq<Element>>, h: seq<seq<Element>>, n: nat)
    requires n <= |g| && n <= |h| && forall j :: 0 <= j < n ==> g[j] == h[j]
    ensures FlattenTo(g, n) == FlattenTo(h, n)
  {
    if n == 0 {
    } else {
      FlattenToPrefix(g, h, n - 1);
    }
  }

  lemma {:induction false} FlattenSingle(g: seq<seq<Element>>, target: nat, x: seq<Element>, n: nat)
    requires n <= |g| && forall j :: 0 <= j < |g| ==> g[j] == if j == target then x else []
    ensures FlattenTo(g, n) == if target < n then x else []
  {
    if n == 0 {
    } else {
      FlattenSingle(g, target, x, n - 1);
      var before := FlattenTo(g, n - 1);
      assert before + g[n - 1] == if n - 1 == target then x else before by {
        assert [] + x == x && before + [] == before;
      }
    }
  }

  // Each field across the whole queue, message by message.
  function LogsOf(q: seq<Message>): seq<seq<Element>> {
    seq(|q|, j requires 0 <= j < |q| => q[j].fields.logs)
  }

  function ConnsOf(q: seq<Message>): seq<seq<Element>> {
    seq(|q|, j requires 0 <= j < |q| => q[j].fields.conns)
  }

  function EventsOf(q: seq<Message>): seq<seq<Element>> {
    seq(|q|, j requires 0 <= j < |q| => q[j].fields.events)
  }

  lemma {:induction false} FlushesMonotone(items: seq<Element>, quota: nat, m: nat, n: nat)
    requires m <= n <= |items|
    ensures Flushes(items, quota, m) <= Flushes(items, quota, n) <= Flushes(items, quota, m) + (n - m)
  {
    if m < n {
      FlushesMonotone(items, quota, m, n - 1);
    }
  }

  lemma TargetsAreQueued(f: Fields, quota: nat)
    ensures ConnsTarget(f, quota) <= EventsTarget(f, quota) <= Flushes(Items(f), quota, |Items(f)|)
  {
    FlushesMonotone(Items(f), quota, |f.logs|, |f.logs| + |f.conns|);
    FlushesMonotone(Items(f), quota, |f.logs| + |f.conns|, |Items(f)|);
  }

  /** A queue whose message 0 holds all logs, message `c` all conns, message `e` all events. */
  lemma PlacedOnce(q: seq<Message>, logs: seq<Element>, conns: seq<Element>, events: seq<Element>, c: nat, e: nat)
    requires 0 < |q| && c < |q| && e < |q|
    requires forall j :: 0 <= j < |q| ==>
               q[j].fields == Fields(if j == 0 then logs else [],
                                     if j == c then conns else [],
                                     if j == e then events else [])
    ensures Flatten(LogsOf(q)) == logs && Flatten(ConnsOf(q)) == conns && Flatten(EventsOf(q)) == events
  {
    FlattenSingle(LogsOf(q), 0, logs, |q|);
    FlattenSingle(ConnsOf(q), c, conns, |q|);
    FlattenSingle(EventsOf(q), e, events, |q|);
  }

  predicate Backwards(r: seq<Element>, s: seq<Element>) {
    |r| == |s| && forall i :: 0 <= i < |s| ==> r[|s| - 1 - i] == s[i]
  }

  lemma ReversedIsBackwards(s: seq<Element>)
    ensures Backwards(Reversed(s), s)
  {
  }

  /** Every element ends up in the queue exactly once: each field, read across the whole
      queue, is the input field from its end to its beginning. */
  lemma SplitConserves(f: Fields, quota: nat, index: nat)
    ensures var q := Split(f, quota, index);
            && Flatten(LogsOf(q)) == Reversed(f.logs) && Backwards(Flatten(LogsOf(q)), f.logs)
            && Flatten(ConnsOf(q)) == Reversed(f.conns) && Backwards(Flatten(ConnsOf(q)), f.conns)
            && Flatten(EventsOf(q)) == Reversed(f.events) && Backwards(Flatten(EventsOf(q)), f.events)
  {
    ReversedIsBackwards(f.logs);
    ReversedIsBackwards(f.conns);
    ReversedIsBackwards(f.events);
    var q := Split(f, quota, index);
    TargetsAreQueued(f, quota);
    assert forall j :: 0 <= j < |q| ==> q[j].fields == Placed(f, quota, j);
    PlacedOnce(q, Reversed(f.logs), Reversed(f.conns), Reversed(f.events),
               ConnsTarget(f, quota), EventsTarget(f, quota));
  }

  lemma IndexSuccessor(index: nat, j: nat)
    ensures IndexAt(index, j + 1) == (IndexAt(index, j) + 1) % TWO_64
  {
  }

  /** Upload indices are consecutive modulo 2^64, starting from the executor's counter. */
  lemma IndicesConsecutive(f: Fields, quota: nat, index: nat, j: nat)
    requires 0 < j < |Split(f, quota, index)|
    ensures Split(f, quota, index)[0].index == index % TWO_64
    ensures Split(f, quota, index)[j].index == (Split(f, quota, index)[j - 1].index + 1) % TWO_64
  {
    IndexSuccessor(index, j - 1);
  }

  // ---------- The groups between flushes ----------

  /** The items between consecutive flushes, up to item `n`. */
  function Groups(items: seq<Element>, quota: nat, n: nat): (g: seq<seq<Element>>)
    requires n <= |items|
    ensures |g| == Flushes(items, quota, n) + 1
  {
    if n == 0 then [[]]
    else
      var g := Groups(items, quota, n - 1);
      if FlushesAt(items, quota, n - 1) then g + [[items[n - 1]]]
      else g[|g| - 1 := g[|g| - 1] + [items[n - 1]]]
  }

  lemma {:induction false} SizeToPrefix(a: seq<Element>, b: seq<Element>, n: nat)
    requires n <= |a| && n <= |b| && forall i :: 0 <= i < n ==> a[i] == b[i]
    ensures SizeTo(a, n) == SizeTo(b, n)
  {
    if n == 0 {
    } else {
      SizeToPrefix(a, b, n - 1);
    }
  }

  lemma SizeSnoc(a: seq<Element>, e: Element)
    ensures Size(a + [e]) == Size(a) + e.size
  {
    SizeToPrefix(a + [e], a, |a|);
  }

  lemma {:induction false} SizeAppend(a: seq<Element>, b: seq<Element>)
    ensures Size(a + b) == Size(a) + Size(b)
  {
    if b == [] {
      assert a + b == a;
    } else {
      var last := |b| - 1;
      SizeAppend(a, b[..last]);
      assert a + b == (a + b[..last]) + [b[last]];
      SizeSnoc(a + b[..last], b[last]);
      assert b == b[..last] + [b[last]];
      SizeSnoc(b[..last], b[last]);
    }
  }

  lemma FlattenSnoc(g: seq<seq<Element>>, x: seq<Element>)
    ensures Flatten(g + [x]) == Flatten(g) + x
  {
    FlattenToPrefix(g + [x], g, |g|);
  }

  lemma FlattenExtendLast(g: seq<seq<Element>>, e: Element)
    requires g != []
    ensures Flatten(g[|g| - 1 := g[|g| - 1] + [e]]) == Flatten(g) + [e]
  {
    var last := |g| - 1;
    FlattenToPrefix(g[last := g[last] + [e]], g, last);
    assert FlattenTo(g, last) + (g[last] + [e]) == (FlattenTo(g, last) + g[last]) + [e];
  }

  lemma {:induction false} GroupsPartition(items: seq<Element>, quota: nat, n: nat)
    requires n <= |items|
    ensures Flatten(Groups(items, quota, n)) == items[..n]
  {
    if n == 0 {
      FlattenSnoc([], []);
      assert [] + [[]] == Groups(items, quota, 0);
    } else {
      GroupsPartition(items, quota, n - 1);
      FlattenSnoc(Groups(items, quota, n - 1), [items[n - 1]]);
      FlattenExtendLast(Groups(items, quota, n - 1), items[n - 1]);
      assert items[..n] == items[..n - 1] + [items[n - 1]];
    }
  }

  lemma {:induction false} LastGroupIsRunning(items: seq<Element>, quota: nat, n: nat)
    requires n <= |items|
    ensures var g := Groups(items, quota, n); Size(g[|g| - 1]) == Running(items, quota, n)
  {
    if n == 0 {
    } else {
      LastGroupIsRunning(items, quota, n - 1);
      var g := Groups(items, quota, n - 1);
      SizeSnoc(g[|g| - 1], items[n - 1]);
      SizeSnoc([], items[n - 1]);
      assert [] + [items[n - 1]] == [items[n - 1]];
    }
  }

  /** All elements but one have size zero. */
  predicate OneBigElement(g: seq<Element>) {
    exists i :: 0 <= i < |g| && g[i].size == Size(g)
                && forall k :: 0 <= k < |g| && k != i ==> g[k].size == 0
  }

  predicate WithinQuota(g: seq<Element>, quota: nat) {
    Size(g) <= quota || OneBigElement(g)
  }

  lemma {:induction false} SizeZero(g: seq<Element>, n: nat)
    requires n <= |g| && SizeTo(g, n) == 0
    ensures forall k :: 0 <= k < n ==> g[k].size == 0
  {
    if n == 0 {
    } else {
      SizeZero(g, n - 1);
    }
  }

  lemma ExtendGroup(g: seq<Element>, e: Element, quota: nat)
    requires WithinQuota(g, quota)
    requires Size(g) == 0 || Size(g) + e.size <= quota
    ensures WithinQuota(g + [e], quota)
  {
    SizeSnoc(g, e);
    if Size(g) == 0 {
      SizeZero(g, |g|);
      assert (g + [e])[|g|].size == Size(g + [e]);
    }
  }

  lemma {:induction false} GroupsWithinQuota(items: seq<Element>, quota: nat, n: nat)
    requires n <= |items|
    ensures forall j :: 0 <= j < |Groups(items, quota, n)| ==> WithinQuota(Groups(items, quota, n)[j], quota)
  {
    if n == 0 {
    } else {
      GroupsWithinQuota(items, quota, n - 1);
      LastGroupIsRunning(items, quota, n - 1);
      var g := Groups(items, quota, n - 1);
      var e := items[n - 1];
      if FlushesAt(items, quota, n - 1) {
        SizeSnoc([], e);
        assert [e] == [] + [e];
        assert [e][0].size == Size([e]);
      } else {
        ExtendGroup(g[|g| - 1], e, quota);
      }
    }
  }

  lemma {:induction false} AdjacentGroupsExceed(items: seq<Element>, quota: nat, n: nat)
    requires n <= |items|
    ensures forall j :: 0 < j < |Groups(items, quota, n)| ==>
              Size(Groups(items, quota, n)[j - 1]) + Size(Groups(items, quota, n)[j]) > quota
  {
    if n == 0 {
    } else {
      AdjacentGroupsExceed(items, quota, n - 1);
      LastGroupIsRunning(items, quota, n - 1);
      LastGroupIsRunning(items, quota, n);
      var g := Groups(items, quota, n - 1);
      SizeSnoc(g[|g| - 1], items[n - 1]);
    }
  }

  /** A message is queued only once something is in it. */
  lemma {:induction false} FlushedGroupsHoldBytes(items: seq<Element>, quota: nat, n: nat)
    requires n <= |items|
    ensures var g := Groups(items, quota, n); forall j :: 0 <= j < |g| - 1 ==> Size(g[j]) > 0
  {
    if n == 0 {
    } else {
      FlushedGroupsHoldBytes(items, quota, n - 1);
      LastGroupIsRunning(items, quota, n - 1);
    }
  }

  lemma {:induction false} FlushesOfPrefix(a: seq<Element>, b: seq<Element>, quota: nat, n: nat)
    requires n <= |a| && n <= |b| && forall i :: 0 <= i < n ==> a[i] == b[i]
    ensures Flushes(a, quota, n) == Flushes(b, quota, n) && Running(a, quota, n) == Running(b, quota, n)
  {
    if n == 0 {
    } else {
      FlushesOfPrefix(a, b, quota, n - 1);
    }
  }

  /** Message `target` has all of `part`, the others nothing. */
  predicate LiesWholeIn(field: seq<seq<Element>>, target: nat, part: seq<Element>) {
    target < |field| && forall j :: 0 <= j < |field| ==> field[j] == if j == target then part else []
  }

  /** Where each field lands: the logs in the first message, the connection statistics in the one begun
      when the logs alone have been packed, the events in the one begun when both have. */
  lemma FieldsLandWhole(f: Fields, quota: nat, index: nat)
    ensures var q := Split(f, quota, index);
            var logs, conns, events := Reversed(f.logs), Reversed(f.conns), Reversed(f.events);
            && LiesWholeIn(LogsOf(q), 0, logs)
            && LiesWholeIn(ConnsOf(q), |Groups(logs, quota, |logs|)| - 1, conns)
            && LiesWholeIn(EventsOf(q), |Groups(logs + conns, quota, |logs + conns|)| - 1, events)
  {
    var logs, conns := Reversed(f.logs), Reversed(f.conns);
    TargetsAreQueued(f, quota);
    FlushesOfPrefix(Items(f), logs, quota, |logs|);
    FlushesOfPrefix(Items(f), logs + conns, quota, |logs + conns|);
  }

  lemma {:induction false} PairsAddUp(g: seq<seq<Element>>, quota: nat, n: nat)
    requires 0 < n <= |g|
    requires forall j :: 0 < j < |g| ==> Size(g[j - 1]) + Size(g[j]) > quota
    ensures (n - 1) * quota <= 2 * Size(FlattenTo(g, n)) - Size(g[n - 1])
  {
    SizeAppend(FlattenTo(g, n - 1), g[n - 1]);
    if n > 1 {
      PairsAddUp(g, quota, n - 1);
      assert (n - 1) * quota == (n - 2) * quota + quota;
    }
  }

  /** The groups form a next-fit packing. They partition the items; a group exceeds the
      quota only if a single element makes up its size; adjacent groups together exceed the
      quota; only the last may be empty or of size zero; and for a positive quota at most
      2*total/quota + 1 messages are queued. */
  lemma NextFitPacking(f: Fields, quota: nat, index: nat)
    ensures var g := Groups(Items(f), quota, |Items(f)|);
            && Flatten(g) == Items(f)
            && |g| == |Split(f, quota, index)|
            && (forall j :: 0 <= j < |g| ==> WithinQuota(g[j], quota))
            && (forall j :: 0 < j < |g| ==> Size(g[j - 1]) + Size(g[j]) > quota)
            && (forall j :: 0 <= j < |g| - 1 ==> Size(g[j]) > 0)
    ensures quota > 0 ==> |Split(f, quota, index)| <= 2 * Size(Items(f)) / quota + 1
  {
    var items := Items(f);
    var g := Groups(items, quota, |items|);
    GroupsPartition(items, quota, |items|);
    assert items[..|items|] == items;
    GroupsWithinQuota(items, quota, |items|);
    AdjacentGroupsExceed(items, quota, |items|);
    FlushedGroupsHoldBytes(items, quota, |items|);
    PairsAddUp(g, quota, |g|);
    if quota > 0 {
      QuotientAtLeast(|g| - 1, 2 * Size(items), quota);
    }
  }

  // ---------- Message sizes ----------

  function FieldsSize(f: Fields): nat {
    Size(f.logs) + Size(f.conns) + Size(f.events)
  }

  lemma {:induction false} RunningBelowTotal(items: seq<Element>, quota: nat, n: nat)
    requires n <= |items|
    ensures Running(items, quota, n) <= SizeTo(items, n)
    ensures SizeTo(items, n) <= quota ==> Flushes(items, quota, n) == 0
    ensures Flushes(items, quota, n) > 0 ==> SizeTo(items, n) > quota
  {
    if n == 0 {
    } else {
      RunningBelowTotal(items, quota, n - 1);
    }
  }

  lemma {:induction false} SizeReversed(s: seq<Element>)
    ensures Size(Reversed(s)) == Size(s)
  {
    if s == [] {
    } else {
      SizeReversed(s[1..]);
      assert Reversed(s) == Reversed(s[1..]) + [s[0]];
      SizeSnoc(Reversed(s[1..]), s[0]);
      assert s == [s[0]] + s[1..];
      SizeAppend([s[0]], s[1..]);
      SizeSnoc([], s[0]);
      assert [] + [s[0]] == [s[0]];
    }
  }

  lemma ItemsSizes(f: Fields)
    ensures SizeTo(Items(f), |f.logs|) == Size(f.logs)
    ensures SizeTo(Items(f), |f.logs| + |f.conns|) == Size(f.logs) + Size(f.conns)
    ensures Size(Items(f)) == FieldsSize(f)
  {
    var a, b, c := Reversed(f.logs), Reversed(f.conns), Reversed(f.events);
    SizeReversed(f.logs);
    SizeReversed(f.conns);
    SizeReversed(f.events);
    SizeAppend(a, b);
    SizeAppend(a + b, c);
    SizeToPrefix(Items(f), a, |a|);
    SizeToPrefix(Items(f), a + b, |a + b|);
  }

  lemma PlacedSize(f: Fields, quota: nat)
    ensures FieldsSize(Placed(f, quota, 0))
         == Size(f.logs) + (if ConnsTarget(f, quota) == 0 then Size(f.conns) else 0)
                         + (if EventsTarget(f, quota) == 0 then Size(f.events) else 0)
  {
    SizeReversed(f.logs);
    SizeReversed(f.conns);
    SizeReversed(f.events);
  }

  /** A flush leaves the first message above the quota: every field that was begun before
      the flush goes there in full. */
  lemma FirstMessageSize(f: Fields, quota: nat)
    ensures FieldsSize(f) > quota ==> FieldsSize(Placed(f, quota, 0)) > quota
    ensures FieldsSize(f) <= quota ==>
              Flushes(Items(f), quota, |Items(f)|) == 0
              && FieldsSize(Placed(f, quota, 0)) == FieldsSize(f)
  {
    var items, a, b := Items(f), |f.logs|, |f.logs| + |f.conns|;
    ItemsSizes(f);
    PlacedSize(f, quota);
    TargetsAreQueued(f, quota);
    if ConnsTarget(f, quota) > 0 {
      RunningBelowTotal(items, quota, a);
    } else if EventsTarget(f, quota) > 0 {
      RunningBelowTotal(items, quota, b);
    } else {
      RunningBelowTotal(items, quota, |items|);
    }
    if FieldsSize(f) <= quota {
      RunningBelowTotal(items, quota, |items|);
    }
  }

  /** The bound the header promises for every queued message holds exactly when the input
      already fits into one message; whenever a split is really needed, it is exceeded. */
  lemma SizeBoundIff(f: Fields, quota: nat, index: nat)
    ensures (forall j :: 0 <= j < |Split(f, quota, index)| ==>
               FieldsSize(Split(f, quota, index)[j].fields) <= quota)
       <==> FieldsSize(f) <= quota
  {
    var q := Split(f, quota, index);
    FirstMessageSize(f, quota);
    assert q[0].fields == Placed(f, quota, 0);
  }

  /** Two log entries of 6 bytes under a quota of 10: two messages, the first of 12 bytes,
      the second empty. */
  lemma SizeBoundWitness()
    ensures var f := Fields([Element(0, 6), Element(1, 6)], [], []);
            var q := Split(f, 10, 0);
            && |q| == 2
            && FieldsSize(q[0].fields) == 12
            && q[1].fields == Fields([], [], [])
  {
    var f := Fields([Element(0, 6), Element(1, 6)], [], []);
    var items := Items(f);
    assert items == [Element(1, 6), Element(0, 6)];
    assert Running(items, 10, 1) == 6;
    assert FlushesAt(items, 10, 1);
    assert !FlushesAt(items, 10, 0);
    assert Flushes(items, 10, 1) == 0;
    assert Flushes(items, 10, 2) == 1;
    SizeReversed(f.logs);
  }
}
