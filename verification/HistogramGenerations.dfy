/** The two generations of histograms of one connection (src/nccl_stats_aggregator.cc,
    src/nccl_stats_aggregator.h). A bucketer is represented by the samples submitted to it
    since its last reset; how it summarises them is the subject of Bucketing. */
module HistogramGenerations {
  import opened Wrappers

  // Histogram indices; 0..6 are fed by writers, 7..10 by the reporter thread.
  const SEND_LATENCY_SW: nat := 0
  const RECV_LATENCY_SW: nat := 1
  const SEND_LATENCY_NET_HW: nat := 2
  const RECV_LATENCY_NET_HW: nat := 3
  const RECV_READY_LATENCY: nat := 4
  const SEND_MESSAGE_SIZE: nat := 5
  const RECV_MESSAGE_SIZE: nat := 6
  const TOTAL_TYPES: nat := 11

  predicate WriterType(dist: nat) { dist <= RECV_MESSAGE_SIZE }

  predicate ReporterType(dist: nat) { RECV_MESSAGE_SIZE < dist < TOTAL_TYPES }

  // ---------- What one measurement submits ----------

  datatype OpType = ChunkSend | ChunkRecv | OtherOp
  datatype LatencyType = Software | NetHW | RecvReady | OtherLatency
  datatype Operation = Operation(opType: OpType, size: nat, latencies: seq<(LatencyType, nat)>)
  datatype Sample = Sample(dist: nat, value: nat)
  function SizeType(op: OpType): Option<nat> {
    match op
    case ChunkSend => Some(SEND_MESSAGE_SIZE)
    case ChunkRecv => Some(RECV_MESSAGE_SIZE)
    case OtherOp => None
  }

  function LatencyDist(op: OpType, latency: LatencyType): Option<nat> {
    match (op, latency)
    case (ChunkSend, Software) => Some(SEND_LATENCY_SW)
    case (ChunkSend, NetHW) => Some(SEND_LATENCY_NET_HW)
    case (ChunkRecv, Software) => Some(RECV_LATENCY_SW)
    case (ChunkRecv, NetHW) => Some(RECV_LATENCY_NET_HW)
    case (ChunkRecv, RecvReady) => Some(RECV_READY_LATENCY)
    case _ => None
  }

  /** Latencies are submitted up to the first invalid one; the error does not undo them. */
  function LatencySamples(op: OpType, latencies: seq<(LatencyType, nat)>): (r: seq<Sample>)
    ensures forall i :: 0 <= i < |r| ==> WriterType(r[i].dist)
  {
    if latencies == [] then []
    else
      match LatencyDist(op, latencies[0].0)
      case None => []
      case Some(dist) => [Sample(dist, latencies[0].1)] + LatencySamples(op, latencies[1..])
  }

  function Submissions(op: Operation): (r: seq<Sample>)
    ensures forall i :: 0 <= i < |r| ==> WriterType(r[i].dist)
  {
    match SizeType(op.opType)
    case None => []
    case Some(dist) => [Sample(dist, op.size)] + LatencySamples(op.opType, op.latencies)
  }

  // ---------- One atomic histogram set ----------

  type Content = seq<seq<nat>>

  function Empty(): (c: Content)
    ensures |c| == TOTAL_TYPES
  {
    seq(TOTAL_TYPES, _ => [])
  }

  /** Submit and read-and-clear are indivisible; `reports` lists what was read. */
  datatype Atomic = Atomic(current: Content, reports: seq<Content>) {
    predicate Valid() {
      |current| == TOTAL_TYPES && forall i :: 0 <= i < |reports| ==> |reports[i]| == TOTAL_TYPES
    }
  }

  datatype Event = Submit(sample: Sample) | ReadAndClear | Silent

  function Add(c: Content, sample: Sample): Content
    requires sample.dist < |c|
  {
    c[sample.dist := c[sample.dist] + [sample.value]]
  }

  predicate ValidEvent(e: Event) {
    e.Submit? ==> e.sample.dist < TOTAL_TYPES
  }

  function AtomicNext(a: Atomic, e: Event): (b: Atomic)
    requires ValidEvent(e) && a.Valid()
    ensures b.Valid()
  {
    match e
    case Submit(sample) => a.(current := Add(a.current, sample))
    case ReadAndClear => Atomic(Empty(), a.reports + [a.current])
    case Silent => a
  }

  // ---------- The two generations ----------

  /** A writer holds the lock while it submits; the reader copies out the retired copy one
      histogram at a time and then resets it one histogram at a time. */
  datatype Writer = Unlocked | Writing(idx: nat, todo: seq<Sample>)
  datatype Reader = Idle | Reading(idx: nat, report: seq<seq<nat>>) | Resetting(idx: nat, k: nat)

  datatype State = State(generation: nat, cells: seq<Content>, writer: Writer, reader: Reader,
                         reports: seq<Content>)

  datatype Step =
    | Lock(op: Operation)
    | WriterSubmit
    | Unlock
    | ReaderSwap
    | ReadNext
    | ResetNext
    | ReporterSubmit(sample: Sample)

  predicate WellFormed(s: State) {
    && |s.cells| == 2 && |s.cells[0]| == |s.cells[1]| == TOTAL_TYPES
    && (s.writer.Writing? ==>
          && s.writer.idx == s.generation % 2
          && forall i :: 0 <= i < |s.writer.todo| ==> WriterType(s.writer.todo[i].dist))
    && (s.reader.Reading? ==>
          s.reader.idx == (s.generation + 1) % 2 && |s.reader.report| <= TOTAL_TYPES)
    && (s.reader.Resetting? ==>
          s.reader.idx == (s.generation + 1) % 2 && s.reader.k <= TOTAL_TYPES)
    && (forall i :: 0 <= i < |s.reports| ==> |s.reports[i]| == TOTAL_TYPES)
  }

  function Init(): (s: State)
    ensures WellFormed(s)
  {
    State(0, [Empty(), Empty()], Unlocked, Idle, [])
  }

  /** The swap needs the writers' lock; the reporter's own submits need nothing, but the
      reporter thread does not make them in the middle of a read. */
  predicate Enabled(s: State, step: Step) {
    match step
    case Lock(_) => s.writer.Unlocked?
    case WriterSubmit => s.writer.Writing? && s.writer.todo != []
    case Unlock => s.writer.Writing? && s.writer.todo == []
    case ReaderSwap => s.reader.Idle? && s.writer.Unlocked?
    case ReadNext => s.reader.Reading?
    case ResetNext => s.reader.Resetting?
    case ReporterSubmit(sample) => s.reader.Idle? && ReporterType(sample.dist)
  }

  function AddAt(s: State, idx: nat, sample: Sample): State
    requires WellFormed(s) && idx < 2 && sample.dist < TOTAL_TYPES
  {
    s.(cells := s.cells[idx := Add(s.cells[idx], sample)])
  }

  function Next(s: State, step: Step): (t: State)
    requires WellFormed(s) && Enabled(s, step)
    ensures WellFormed(t)
  {
    match step
    case Lock(op) => s.(writer := Writing(s.generation % 2, Submissions(op)))
    case WriterSubmit =>
      AddAt(s, s.writer.idx, s.writer.todo[0]).(writer := Writing(s.writer.idx, s.writer.todo[1..]))
    case Unlock => s.(writer := Unlocked)
    case ReaderSwap => s.(generation := s.generation + 1, reader := Reading(s.generation % 2, []))
    case ReadNext =>
      var k := |s.reader.report|;
      if k < TOTAL_TYPES
      then s.(reader := Reading(s.reader.idx, s.reader.report + [s.cells[s.reader.idx][k]]))
      else s.(reader := Resetting(s.reader.idx, 0), reports := s.reports + [s.reader.report])
    case ResetNext =>
      var k := s.reader.k;
      if k < TOTAL_TYPES
      then s.(reader := Resetting(s.reader.idx, k + 1),
              cells := s.cells[s.reader.idx := s.cells[s.reader.idx][k := []]])
      else s.(reader := Idle)
    case ReporterSubmit(sample) => AddAt(s, s.generation % 2, sample)
  }

  // ---------- Refinement ----------

  function EventOf(s: State, step: Step): (e: Event)
    requires WellFormed(s) && Enabled(s, step)
    ensures ValidEvent(e)
  {
    match step
    case WriterSubmit => Submit(s.writer.todo[0])
    case ReporterSubmit(sample) => Submit(sample)
    case ReaderSwap => ReadAndClear
    case _ => Silent
  }

  /** The atomic view: the write copy is the content, and a read in progress has already
      taken everything the retired copy held at the swap. */
  function Abstract(s: State): (a: Atomic)
    requires WellFormed(s)
    ensures a.Valid()
  {
    Atomic(s.cells[s.generation % 2],
           if s.reader.Reading?
           then s.reports + [s.reader.report + s.cells[s.reader.idx][|s.reader.report|..]]
           else s.reports)
  }

  /** The retired copy is empty, except for what a read or reset still has to clear. */
  predicate Inv(s: State)
  {
    && WellFormed(s)
    && (s.reader.Idle? ==> s.cells[(s.generation + 1) % 2] == Empty())
    && (s.reader.Resetting? ==> forall d :: 0 <= d < s.reader.k ==> s.cells[s.reader.idx][d] == [])
  }

  /** Every step of the two generations is a step of the atomic histogram set. */
  lemma StepRefines(s: State, step: Step)
    requires Inv(s) && Enabled(s, step)
    ensures Inv(Next(s, step))
    ensures Abstract(Next(s, step)) == AtomicNext(Abstract(s), EventOf(s, step))
  {
    var t := Next(s, step);
    match step
    case ReaderSwap =>
      assert s.cells[s.generation % 2][0..] == s.cells[s.generation % 2];
      assert [] + s.cells[s.generation % 2] == s.cells[s.generation % 2];
    case ReadNext =>
      var k := |s.reader.report|;
      var retired := s.cells[s.reader.idx];
      if k < TOTAL_TYPES {
        assert s.reader.report + [retired[k]] + retired[k + 1..] == s.reader.report + retired[k..];
      } else {
        assert s.reader.report + retired[k..] == s.reader.report;
      }
    case ResetNext =>
      if s.reader.k == TOTAL_TYPES {
        assert s.cells[s.reader.idx] == Empty();
      }
    case _ =>
  }

  /** Right after a swap the copy the writers move to is empty. */
  lemma WriteCopyEmptyAfterSwap(s: State)
    requires Inv(s) && Enabled(s, ReaderSwap)
    ensures var t := Next(s, ReaderSwap); t.cells[t.generation % 2] == Empty()
  {
  }

  // ---------- Exclusive access ----------

  /** The histogram slots a step reads or writes. */
  function Footprint(s: State, step: Step): set<(nat, nat)>
    requires WellFormed(s) && Enabled(s, step)
  {
    match step
    case WriterSubmit => {(s.writer.idx, s.writer.todo[0].dist)}
    case ReporterSubmit(sample) => {(s.generation % 2, sample.dist)}
    case ReadNext => if |s.reader.report| < TOTAL_TYPES then {(s.reader.idx, |s.reader.report|)} else {}
    case ResetNext => if s.reader.k < TOTAL_TYPES then {(s.reader.idx, s.reader.k)} else {}
    case _ => {}
  }

  predicate ReporterThread(step: Step) {
    step.ReaderSwap? || step.ReadNext? || step.ResetNext? || step.ReporterSubmit?
  }

  /** Whenever a writer and the reporter thread could both take a step, the two steps touch
      different histograms. */
  lemma ExclusiveAccess(s: State, mine: Step, other: Step)
    requires WellFormed(s) && Enabled(s, mine) && Enabled(s, other)
    requires !ReporterThread(mine) && ReporterThread(other)
    ensures Footprint(s, mine) !! Footprint(s, other)
  {
    assert s.generation % 2 != (s.generation + 1) % 2;
  }

  // ---------- Whole runs ----------

  predicate Executable(s: State, steps: seq<Step>)
    requires WellFormed(s)
    decreases |steps|
  {
    steps == [] || (Enabled(s, steps[0]) && Executable(Next(s, steps[0]), steps[1..]))
  }

  function Run(s: State, steps: seq<Step>): (t: State)
    requires WellFormed(s) && Executable(s, steps)
    ensures WellFormed(t)
    decreases |steps|
  {
    if steps == [] then s else Run(Next(s, steps[0]), steps[1..])
  }

  function Trace(s: State, steps: seq<Step>): (events: seq<Event>)
    requires WellFormed(s) && Executable(s, steps)
    ensures forall i :: 0 <= i < |events| ==> ValidEvent(events[i])
    decreases |steps|
  {
    if steps == [] then [] else [EventOf(s, steps[0])] + Trace(Next(s, steps[0]), steps[1..])
  }

  function AtomicRun(a: Atomic, events: seq<Event>): (b: Atomic)
    requires a.Valid()
    requires forall i :: 0 <= i < |events| ==> ValidEvent(events[i])
    ensures b.Valid()
    decreases |events|
  {
    if events == [] then a else AtomicRun(AtomicNext(a, events[0]), events[1..])
  }

  lemma {:induction false} RunRefines(s: State, steps: seq<Step>)
    requires Inv(s) && Executable(s, steps)
    ensures Inv(Run(s, steps))
    ensures Abstract(Run(s, steps)) == AtomicRun(Abstract(s), Trace(s, steps))
    decreases |steps|
  {
    if steps == [] {
    } else {
      StepRefines(s, steps[0]);
      RunRefines(Next(s, steps[0]), steps[1..]);
      assert Trace(s, steps)[1..] == Trace(Next(s, steps[0]), steps[1..]);
    }
  }

  function SubmittedIn(dist: nat, e: Event): seq<nat> {
    if e.Submit? && e.sample.dist == dist then [e.sample.value] else []
  }

  /** Everything submitted to histogram `dist`, in submission order. */
  function SubmittedTo(dist: nat, events: seq<Event>): seq<nat>
    decreases |events|
  {
    if events == [] then []
    else SubmittedIn(dist, events[0]) + SubmittedTo(dist, events[1..])
  }

  /** Everything reported for histogram `dist`, report after report. */
  function Reported(dist: nat, reports: seq<Content>): seq<nat>
    requires dist < TOTAL_TYPES && forall i :: 0 <= i < |reports| ==> |reports[i]| == TOTAL_TYPES
  {
    if reports == [] then []
    else Reported(dist, reports[..|reports| - 1]) + reports[|reports| - 1][dist]
  }

  function Account(a: Atomic, dist: nat): seq<nat>
    requires a.Valid() && dist < TOTAL_TYPES
  {
    Reported(dist, a.reports) + a.current[dist]
  }

  lemma AtomicStepAccounts(a: Atomic, e: Event, dist: nat)
    requires ValidEvent(e) && a.Valid() && dist < TOTAL_TYPES
    ensures Account(AtomicNext(a, e), dist)
         == Account(a, dist) + SubmittedIn(dist, e)
  {
    if e.ReadAndClear? {
      assert (a.reports + [a.current])[..|a.reports|] == a.reports;
    }
  }

  lemma {:induction false} AtomicAccounts(a: Atomic, events: seq<Event>, dist: nat)
    requires forall i :: 0 <= i < |events| ==> ValidEvent(events[i])
    requires dist < TOTAL_TYPES && a.Valid()
    ensures Account(AtomicRun(a, events), dist) == Account(a, dist) + SubmittedTo(dist, events)
    decreases |events|
  {
    if events == [] {
    } else {
      var submitted := SubmittedIn(dist, events[0]);
      AtomicStepAccounts(a, events[0], dist);
      AtomicAccounts(AtomicNext(a, events[0]), events[1..], dist);
      assert (Account(a, dist) + submitted) + SubmittedTo(dist, events[1..])
          == Account(a, dist) + (submitted + SubmittedTo(dist, events[1..]));
    }
  }

  /** In every interleaving, for every histogram: what has been reported (a read in progress
      included) followed by what is still buffered is exactly what was submitted, in order.
      No sample is dropped, duplicated or reordered. */
  lemma EachSampleOnce(steps: seq<Step>, dist: nat)
    requires Executable(Init(), steps) && dist < TOTAL_TYPES
    ensures var a := Abstract(Run(Init(), steps));
            Account(a, dist) == SubmittedTo(dist, Trace(Init(), steps))
    ensures Run(Init(), steps).reader.Idle? ==> Abstract(Run(Init(), steps)).reports == Run(Init(), steps).reports
  {
    RunRefines(Init(), steps);
    AtomicAccounts(Abstract(Init()), Trace(Init(), steps), dist);
  }

  function WriterSample(e: Event): seq<Sample> {
    if e.Submit? && WriterType(e.sample.dist) then [e.sample] else []
  }

  /** The samples for the writers' histograms, in the order they were submitted. */
  function WriterSamples(events: seq<Event>): seq<Sample>
    decreases |events|
  {
    if events == [] then [] else WriterSample(events[0]) + WriterSamples(events[1..])
  }

  function RequestedBy(step: Step): seq<Sample> {
    if step.Lock? then Submissions(step.op) else []
  }

  /** The samples the operations ask for, in the order the writers took the lock. */
  function Requested(steps: seq<Step>): seq<Sample>
    decreases |steps|
  {
    if steps == [] then [] else RequestedBy(steps[0]) + Requested(steps[1..])
  }

  function Pending(s: State): seq<Sample> {
    if s.writer.Writing? then s.writer.todo else []
  }

  lemma StepSubmitsWhatIsRequested(s: State, step: Step)
    requires WellFormed(s) && Enabled(s, step)
    ensures WriterSample(EventOf(s, step)) + Pending(Next(s, step)) == Pending(s) + RequestedBy(step)
  {
    if step.WriterSubmit? {
      assert s.writer.todo == [s.writer.todo[0]] + s.writer.todo[1..];
    }
  }

  lemma Regroup(e: seq<Sample>, rest: seq<Sample>, last: seq<Sample>, mid: seq<Sample>,
                first: seq<Sample>, asked: seq<Sample>, more: seq<Sample>)
    requires rest + last == mid + more && e + mid == first + asked
    ensures (e + rest) + last == first + (asked + more)
  {
    assert (e + rest) + last == e + (rest + last);
    assert e + (mid + more) == (e + mid) + more;
    assert (first + asked) + more == first + (asked + more);
  }

  /** Writers submit what their operations ask for, one operation at a time: after any
      interleaving only samples of the operation holding the lock can be outstanding. */
  lemma {:induction false} WritersSubmitWhatIsRequested(s: State, steps: seq<Step>)
    requires WellFormed(s) && Executable(s, steps)
    ensures WriterSamples(Trace(s, steps)) + Pending(Run(s, steps)) == Pending(s) + Requested(steps)
    decreases |steps|
  {
    if steps == [] {
    } else {
      var t := Next(s, steps[0]);
      WritersSubmitWhatIsRequested(t, steps[1..]);
      StepSubmitsWhatIsRequested(s, steps[0]);
      assert Trace(s, steps)[1..] == Trace(t, steps[1..]);
      Regroup(WriterSample(EventOf(s, steps[0])), WriterSamples(Trace(t, steps[1..])),
              Pending(Run(s, steps)), Pending(t), Pending(s), RequestedBy(steps[0]), Requested(steps[1..]));
    }
  }
}
