/** The executor thread, the reporter thread and Shutdown (src/nccl_stats_uploader_executor.cc),
    interleaved one mutex section or one uploader call at a time. */
module UploadProtocol {
  import opened Wrappers
  import opened MessageSplitting

  /** An element of q_: a unique_ptr, null while its message is in the executor's hands. */
  datatype Slot = Null | Holding(msg: Message)

  /** Where RunUploadExecutor and the clean-up it ends with have got to. */
  datatype Pc =
    | Start | WaitWork | WaitTime | Take | Uploading | Popping | PuttingBack | CheckDead | Dying
    | Closing | ClosingTake | ClosingUpload | ClosingClean | Done
    | Crashed

  /** `m` is the local buffer of the same name. */
  datatype Executor = Executor(pc: Pc, m: Option<Message>)

  /** `quiet`: UploadFinished answered true because it saw an empty queue under the lock,
      with a live uploader and no shutdown. `Updating` is an UpdateQueue call before its lock. */
  datatype Reporter = Idle | Asking | Ready(quiet: bool) | Updating(quiet: bool, q: seq<Message>)

  /** What an Upload call may do; a dead uploader cannot send. */
  datatype Outcome = Sent | Failed | FailedAndDied

  datatype Flags = Flags(present: bool, dead: bool, shutdown: bool, stopRequested: bool, lastSuccess: bool) {
    predicate Live() { present && !dead && !shutdown }
  }

  /** History: the messages put into the queue, the ones sent and the ones thrown away; how many
      the main loop sent; the index of the message sent at shutdown; how many updates were
      refused. */
  datatype Log = Log(enqueued: seq<Message>, uploaded: seq<Message>, dropped: seq<Message>,
                     regular: nat, final: Option<nat>, refused: nat)

  const NO_HISTORY: Log := Log([], [], [], 0, None, 0)

  datatype State = State(flags: Flags, queue: seq<Slot>, index: nat, executor: Executor, reporter: Reporter, log: Log)

  datatype Step =
    | ExecutorStep(outcome: Outcome)
    | ReporterStep(telemetry: Fields, quota: nat)
    | SetShutdown
    | Join

  predicate Init(s: State) {
    && !s.flags.shutdown && !s.flags.stopRequested && s.flags.lastSuccess
    && s.queue == [] && s.index == 0 && s.executor == Executor(Start, None) && s.reporter == Idle
    && s.log == NO_HISTORY
  }

  function Messages(q: seq<Slot>): seq<Message> {
    if q == [] then [] else (if q[0].Null? then [] else [q[0].msg]) + Messages(q[1..])
  }

  function Slots(q: seq<Message>): seq<Slot> {
    seq(|q|, i requires 0 <= i < |q| => Holding(q[i]))
  }

  function Held(m: Option<Message>): seq<Message> {
    if m.Some? then [m.value] else []
  }

  predicate FrontHolds(q: seq<Slot>) {
    q != [] && q[0].Holding?
  }

  function Goto(s: State, pc: Pc): State {
    s.(executor := s.executor.(pc := pc))
  }

  /** m = std::move(q_.front()): moving from a null front leaves nothing to upload. */
  function TakeFront(s: State, next: Pc): State {
    if FrontHolds(s.queue)
    then s.(queue := s.queue[0 := Null], executor := Executor(next, Some(s.queue[0].msg)))
    else Goto(s, Crashed)
  }

  function Popped(s: State): State {
    if s.queue == [] then Goto(s, Crashed)
    else s.(queue := s.queue[1..], flags := s.flags.(lastSuccess := true), executor := Executor(WaitWork, None))
  }

  /** q_.front() = std::move(m) */
  function PutBack(s: State): State {
    if s.queue == [] || s.executor.m == None then Goto(s, Crashed)
    else s.(queue := s.queue[0 := Holding(s.executor.m.value)],
            flags := s.flags.(lastSuccess := false),
            executor := Executor(CheckDead, None))
  }

  /** CleanUpQ; a message still in the executor's hands is lost with it. */
  function CleanUp(s: State): State {
    s.(queue := [], executor := Executor(Done, None),
       log := s.log.(dropped := s.log.dropped + Held(s.executor.m) + Messages(s.queue)))
  }

  function AfterUpload(s: State, outcome: Outcome): State {
    match outcome
    case Sent => s.(log := s.log.(uploaded := s.log.uploaded + Held(s.executor.m), regular := s.log.regular + 1),
                    executor := Executor(Popping, None))
    case Failed => Goto(s, PuttingBack)
    case FailedAndDied => Goto(s.(flags := s.flags.(dead := true)), PuttingBack)
  }

  /** The index of the message sent at shutdown. One made up for the occasion has none, which
      reads as 0. */
  function ClosingIndex(m: Option<Message>): nat {
    if m.Some? then m.value.index else 0
  }

  function AfterClosingUpload(s: State, outcome: Outcome): State {
    match outcome
    case Sent =>
      var m := s.executor.m;
      s.(log := s.log.(uploaded := s.log.uploaded + Held(m), final := Some(ClosingIndex(m))),
         executor := Executor(ClosingClean, None))
    case Failed => Goto(s, ClosingClean)
    case FailedAndDied => Goto(s.(flags := s.flags.(dead := true)), ClosingClean)
  }

  function WaitNext(s: State): State {
    match s.executor.pc
    case Start => Goto(s, if !s.flags.present || s.flags.dead then Closing else WaitWork)
    case WaitWork => Goto(s, if s.flags.shutdown then Closing else WaitTime)
    case WaitTime => Goto(s, if s.flags.shutdown then Closing else Take)
    case CheckDead => Goto(s, if s.flags.dead then Dying else WaitWork)
    case Dying => Goto(s.(flags := s.flags.(shutdown := true)), Closing)
    case _ => s
  }

  function UploadNext(s: State, outcome: Outcome): State {
    match s.executor.pc
    case Take => TakeFront(s, Uploading)
    case Uploading => AfterUpload(s, outcome)
    case Popping => Popped(s)
    case PuttingBack => PutBack(s)
    case _ => s
  }

  /** UploadAndCleanupRemainingTelemetryOnShutdown: only the front is still uploaded, and
      a message made for the occasion if there is none. */
  function ClosingNext(s: State, outcome: Outcome): State {
    match s.executor.pc
    case Closing =>
      if !s.flags.lastSuccess || !s.flags.present || s.flags.dead then CleanUp(s) else Goto(s, ClosingTake)
    case ClosingTake => if s.queue == [] then Goto(s, ClosingUpload) else TakeFront(s, ClosingUpload)
    case ClosingUpload => AfterClosingUpload(s, outcome)
    case ClosingClean => CleanUp(s)
    case _ => s
  }

  predicate Waits(pc: Pc) {
    pc.Start? || pc.WaitWork? || pc.WaitTime? || pc.CheckDead? || pc.Dying?
  }

  predicate Uploads(pc: Pc) {
    pc.Take? || pc.Uploading? || pc.Popping? || pc.PuttingBack?
  }

  function ExecutorNext(s: State, outcome: Outcome): State {
    if Waits(s.executor.pc) then WaitNext(s)
    else if Uploads(s.executor.pc) then UploadNext(s, outcome)
    else ClosingNext(s, outcome)
  }

  predicate ExecutorEnabled(s: State, outcome: Outcome) {
    match s.executor.pc
    case WaitWork => s.flags.shutdown || s.queue != []
    case Uploading => s.flags.dead ==> outcome != Sent
    case ClosingUpload => s.flags.dead ==> outcome != Sent
    case Done => false
    case Crashed => false
    case _ => true
  }

  /** UploadFinished, in two reads. */
  function Ask(s: State): State {
    if s.reporter.Idle?
    then s.(reporter := if !s.flags.present || s.flags.dead then Ready(false) else Asking)
    else s.(reporter := if s.flags.shutdown then Ready(false) else if s.queue == [] then Ready(true) else Idle)
  }

  /** UpdateQueue up to the lock: the indices are used up here. */
  function Cut(s: State, q: seq<Message>): State
    requires s.reporter.Ready?
  {
    if s.flags.present
    then s.(reporter := Updating(s.reporter.quiet, q), index := s.index + |q|)
    else s.(reporter := Idle, log := Refused(s.log))
  }

  function Accepted(log: Log, q: seq<Message>): Log {
    log.(enqueued := log.enqueued + q)
  }

  function Refused(log: Log): Log {
    log.(refused := log.refused + 1)
  }

  /** UpdateQueue under the lock. */
  function Commit(s: State): State
    requires s.reporter.Updating?
  {
    var q := s.reporter.q;
    if s.queue == [] then s.(reporter := Idle, queue := Slots(q), log := Accepted(s.log, q))
    else s.(reporter := Idle, log := Refused(s.log))
  }

  function ReporterNext(s: State, telemetry: Fields, quota: nat): State {
    match s.reporter
    case Ready(_) => Cut(s, Split(telemetry, quota, s.index))
    case Updating(_, _) => Commit(s)
    case _ => Ask(s)
  }

  /** The destructor that sets the flag runs with the reporter's pointer to the executor already
      null, and the reporter reads that pointer before either call (src/nccl_stats_reporter.cc):
      from then on only a call under way can go on. */
  predicate ReporterEnabled(s: State) {
    s.flags.stopRequested ==> s.reporter.Asking? || s.reporter.Updating?
  }

  predicate Enabled(s: State, step: Step) {
    match step
    case ExecutorStep(o) => ExecutorEnabled(s, o)
    case ReporterStep(_, _) => ReporterEnabled(s)
    case SetShutdown => true
    case Join => s.flags.stopRequested && s.executor.pc == Done
  }

  function Next(s: State, step: Step): State {
    match step
    case ExecutorStep(o) => ExecutorNext(s, o)
    case ReporterStep(t, quota) => ReporterNext(s, t, quota)
    case SetShutdown => s.(flags := s.flags.(shutdown := true, stopRequested := true))
    case Join => s.(flags := s.flags.(present := false))
  }

  predicate Executable(s: State, steps: seq<Step>)
    decreases |steps|
  {
    steps == [] || (Enabled(s, steps[0]) && Executable(Next(s, steps[0]), steps[1..]))
  }

  function Run(s: State, steps: seq<Step>): State
    decreases |steps|
  {
    if steps == [] then s else Run(Next(s, steps[0]), steps[1..])
  }

  // ---------- What every step keeps ----------

  /** A message sent by the main loop leaves its null slot behind until it is popped. */
  predicate OwnsFront(pc: Pc) {
    pc.Uploading? || pc.Popping? || pc.PuttingBack?
  }

  /** Only the front may be null, and only while an upload owns its message. */
  predicate Shape(queue: seq<Slot>, executor: Executor) {
    && executor.pc != Crashed
    && (OwnsFront(executor.pc) ==> queue != [] && queue[0].Null?)
    && (queue != [] && queue[0].Null? ==>
          OwnsFront(executor.pc) || executor.pc.ClosingUpload? || executor.pc.ClosingClean?)
    && (forall i :: 1 <= i < |queue| ==> queue[i].Holding?)
    && (executor.pc.WaitTime? || executor.pc.Take? ==> queue != [])
    && (executor.pc.Uploading? || executor.pc.PuttingBack? ==> executor.m.Some?)
    && (executor.m.Some? ==>
          || executor.pc.Uploading? || executor.pc.PuttingBack?
          || executor.pc.ClosingUpload? || executor.pc.ClosingClean?)
  }

  /** Every message ever enqueued was uploaded, was dropped by the clean-up, or is pending. */
  predicate Accounted(log: Log, executor: Executor, queue: seq<Slot>) {
    && log.enqueued == log.uploaded + log.dropped + Held(executor.m) + Messages(queue)
    && (executor.pc != Done ==> log.dropped == [])
  }

  /** An update goes ahead with an empty queue or a dead uploader. */
  predicate Calm(reporter: Reporter, flags: Flags, queue: seq<Slot>) {
    match reporter
    case Ready(quiet) => if quiet then queue == [] else !flags.present || flags.dead || flags.stopRequested
    case Updating(quiet, _) => if quiet then queue == [] else flags.dead
    case _ => true
  }

  /** An update is refused only once the uploader is gone or dead. */
  predicate Lifecycle(flags: Flags, pc: Pc, log: Log) {
    && (pc.WaitWork? || pc.WaitTime? || pc.Take? || pc.Uploading? || pc.Popping? ==> flags.present && !flags.dead)
    && (pc.PuttingBack? || pc.CheckDead? ==> flags.present)
    && (pc.Dying? ==> flags.dead)
    && (flags.shutdown ==> flags.dead || flags.stopRequested)
    && (log.refused > 0 ==> !flags.present || flags.dead)
  }

  predicate NumberedFrom(q: seq<Message>, index: nat, n: nat)
    requires n <= |q|
  {
    forall j :: 0 <= j < n ==> q[j].index == IndexAt(index, j)
  }

  function Cutting(reporter: Reporter): seq<Message> {
    if reporter.Updating? then reporter.q else []
  }

  /** Until the uploader dies every upload index has gone to a message put into the queue, or to one
      of the update under way. */
  predicate Numbered(index: nat, reporter: Reporter, dead: bool, log: Log) {
    && index >= |Cutting(reporter)|
    && NumberedFrom(Cutting(reporter), index - |Cutting(reporter)|, |Cutting(reporter)|)
    && (!dead ==>
          && index == |log.enqueued| + |Cutting(reporter)|
          && NumberedFrom(log.enqueued, 0, |log.enqueued|))
    && NumberedFrom(log.uploaded, 0, |log.uploaded|)
  }

  /** At most one message is sent after the main loop: the front of the queue or one made up. */
  predicate Finished(log: Log, pc: Pc) {
    if log.final == None then log.regular == |log.uploaded|
    else
      && (pc.ClosingClean? || pc.Done?)
      && log.regular <= |log.uploaded| <= log.regular + 1
      && log.final.value == if log.regular < |log.uploaded| then log.uploaded[log.regular].index else 0
  }

  predicate Inv(s: State) {
    && Shape(s.queue, s.executor)
    && Accounted(s.log, s.executor, s.queue)
    && Calm(s.reporter, s.flags, s.queue)
    && Lifecycle(s.flags, s.executor.pc, s.log)
    && Numbered(s.index, s.reporter, s.flags.dead, s.log)
    && Finished(s.log, s.executor.pc)
  }

  lemma {:induction false} MessagesOfSlots(q: seq<Message>)
    ensures Messages(Slots(q)) == q
  {
    if q == [] {
    } else {
      assert Slots(q)[1..] == Slots(q[1..]);
      MessagesOfSlots(q[1..]);
    }
  }

  lemma FrontMessages(q: seq<Slot>, slot: Slot)
    requires q != []
    ensures Messages(q[0 := slot]) == (if slot.Null? then [] else [slot.msg]) + Messages(q[1..])
  {
    assert q[0 := slot][1..] == q[1..];
  }

  lemma WaitKeepsInv(s: State)
    requires Inv(s) && Waits(s.executor.pc) && ExecutorEnabled(s, Sent)
    ensures Inv(WaitNext(s))
  {
  }

  lemma TakenMessage(log: Log, executor: Executor, queue: seq<Slot>, next: Pc)
    requires Accounted(log, executor, queue) && executor.m == None && executor.pc != Done && FrontHolds(queue)
    ensures Accounted(log, Executor(next, Some(queue[0].msg)), queue[0 := Null])
  {
    FrontMessages(queue, Null);
    var m := queue[0].msg;
    calc {
      log.enqueued;
      log.uploaded + log.dropped + [] + ([m] + Messages(queue[1..]));
      log.uploaded + log.dropped + [m] + ([] + Messages(queue[1..]));
    }
  }

  lemma TakeKeepsInv(s: State, next: Pc)
    requires Inv(s)
    requires if next == Uploading then s.executor.pc.Take?
             else next == ClosingUpload && s.executor.pc.ClosingTake? && s.queue != []
    ensures Inv(TakeFront(s, next))
  {
    TakenMessage(s.log, s.executor, s.queue, next);
  }

  lemma UploadKeepsInv(s: State, o: Outcome)
    requires Inv(s) && ExecutorEnabled(s, o) && Uploads(s.executor.pc)
    ensures Inv(UploadNext(s, o))
  {
    match s.executor.pc
    case Take => TakeKeepsInv(s, Uploading);
    case Uploading => SendKeepsInv(s, o);
    case Popping => 
    case PuttingBack => PutBackKeepsInv(s);
  }

  lemma SentNumbers(log: Log, executor: Executor, queue: seq<Slot>)
    requires Accounted(log, executor, queue) && executor.pc != Done
    requires NumberedFrom(log.enqueued, 0, |log.enqueued|)
    ensures var sent := log.uploaded + Held(executor.m);
            NumberedFrom(sent, 0, |sent|)
  {
    var sent := log.uploaded + Held(executor.m);
    assert log.enqueued == sent + Messages(queue);
    assert forall j :: 0 <= j < |sent| ==> sent[j] == log.enqueued[j];
  }

  lemma SendKeepsInv(s: State, o: Outcome)
    requires Inv(s) && s.executor.pc.Uploading?
    ensures Inv(AfterUpload(s, o))
  {
    SentNumbers(s.log, s.executor, s.queue);
  }

  lemma PutBackKeepsInv(s: State)
    requires Inv(s) && s.executor.pc.PuttingBack?
    ensures Inv(PutBack(s))
  {
    FrontMessages(s.queue, Holding(s.executor.m.value));
  }

  lemma CleanUpKeepsInv(s: State)
    requires Inv(s) && (s.executor.pc.Closing? || s.executor.pc.ClosingClean?)
    ensures Inv(CleanUp(s))
  {
  }

  lemma ClosingUploadKeepsInv(s: State, o: Outcome)
    requires Inv(s) && s.executor.pc.ClosingUpload? && ExecutorEnabled(s, o)
    ensures Inv(AfterClosingUpload(s, o))
  {
    if o == Sent {
      SentNumbers(s.log, s.executor, s.queue);
    }
  }

  lemma ClosingKeepsInv(s: State, o: Outcome)
    requires Inv(s) && ExecutorEnabled(s, o) && !Waits(s.executor.pc) && !Uploads(s.executor.pc)
    ensures Inv(ClosingNext(s, o))
  {
    match s.executor.pc
    case Closing => CleanUpKeepsInv(s);
    case ClosingTake =>
      if s.queue != [] {
        TakeKeepsInv(s, ClosingUpload);
      }
    case ClosingUpload => ClosingUploadKeepsInv(s, o);
    case ClosingClean => CleanUpKeepsInv(s);
    case _ =>
  }

  lemma CutKeepsInv(s: State, q: seq<Message>)
    requires Inv(s) && s.reporter.Ready? && !s.flags.stopRequested && NumberedFrom(q, s.index, |q|)
    ensures Inv(Cut(s, q))
  {
  }

  lemma AcceptedAccounts(log: Log, executor: Executor, q: seq<Message>)
    requires Accounted(log, executor, [])
    ensures Accounted(Accepted(log, q), executor, Slots(q))
  {
    MessagesOfSlots(q);
    assert log.enqueued == log.uploaded + log.dropped + Held(executor.m);
  }

  lemma AcceptedNumbers(index: nat, quiet: bool, q: seq<Message>, dead: bool, log: Log)
    requires Numbered(index, Updating(quiet, q), dead, log)
    ensures Numbered(index, Idle, dead, Accepted(log, q))
  {
  }

  /** UpdateQueue's critical section: it can only refuse once the uploader is dead. */
  lemma CommitKeepsInv(s: State)
    requires Inv(s) && s.reporter.Updating?
    ensures Inv(Commit(s))
  {
    if s.queue == [] {
      AcceptedAccounts(s.log, s.executor, s.reporter.q);
      AcceptedNumbers(s.index, s.reporter.quiet, s.reporter.q, s.flags.dead, s.log);
    }
  }

  lemma AskKeepsInv(s: State)
    requires Inv(s) && (s.reporter.Idle? || s.reporter.Asking?)
    ensures Inv(Ask(s))
  {
  }

  lemma StepKeepsInv(s: State, step: Step)
    requires Inv(s) && Enabled(s, step)
    ensures Inv(Next(s, step))
  {
    match step
    case ExecutorStep(o) =>
      if Waits(s.executor.pc) {
        WaitKeepsInv(s);
      } else if Uploads(s.executor.pc) {
        UploadKeepsInv(s, o);
      } else {
        ClosingKeepsInv(s, o);
      }
    case ReporterStep(t, quota) =>
      match s.reporter {
        case Ready(_) => CutKeepsInv(s, Split(t, quota, s.index));
        case Updating(_, _) => CommitKeepsInv(s);
        case _ => AskKeepsInv(s);
      }
    case _ =>
  }

  lemma {:induction false} RunKeepsInv(s: State, steps: seq<Step>)
    requires Inv(s) && Executable(s, steps)
    ensures Inv(Run(s, steps))
    decreases |steps|
  {
    if steps == [] {
    } else {
      StepKeepsInv(s, steps[0]);
      RunKeepsInv(Next(s, steps[0]), steps[1..]);
    }
  }
  // ---------- What holds of every run ----------

  ghost predicate Reachable(s: State) {
    exists init, steps :: Init(init) && Executable(init, steps) && s == Run(init, steps)
  }

  lemma ReachableInv(s: State)
    requires Reachable(s)
    ensures Inv(s)
  {
    var init, steps :| Init(init) && Executable(init, steps) && s == Run(init, steps);
    RunKeepsInv(init, steps);
  }

  /** No message is lost silently and none is sent twice: those sent from the queue are the
      first ones enqueued, and the rest are still pending until the clean-up drops them. What
      is sent besides them is at most one message, made up at shutdown. The executor never
      takes or pops what is not there. */
  lemma EachMessageSentAtMostOnce(s: State)
    requires Reachable(s)
    ensures s.executor.pc != Crashed
    ensures s.log.uploaded <= s.log.enqueued
    ensures s.log.enqueued == s.log.uploaded + s.log.dropped + Held(s.executor.m) + Messages(s.queue)
    ensures s.executor.pc != Done ==> s.log.dropped == []
    ensures |SentIndices(s.log)| - 1 <= |s.log.uploaded| <= |SentIndices(s.log)|
  {
    ReachableInv(s);
  }

  /** As long as there is a live uploader, and all through a shutdown, no UpdateQueue call has ever
      failed and no upload index been lost. */
  lemma UpdateNeverRefusedWhileLive(s: State)
    requires Reachable(s) && s.flags.present && !s.flags.dead
    ensures s.log.refused == 0
    ensures NumberedFrom(s.log.enqueued, 0, |s.log.enqueued|)
    ensures s.index == |s.log.enqueued| + |Cutting(s.reporter)|
  {
    ReachableInv(s);
  }

  lemma NullFrontMeansUploadInFlight(s: State)
    requires Reachable(s)
    ensures forall i :: 1 <= i < |s.queue| ==> s.queue[i].Holding?
    ensures s.queue != [] && s.queue[0].Null? ==>
              OwnsFront(s.executor.pc) || s.executor.pc == ClosingUpload || s.executor.pc == ClosingClean
    ensures OwnsFront(s.executor.pc) ==> s.queue != [] && s.queue[0].Null?
  {
    ReachableInv(s);
  }

  /** The upload indices sent, in the order they were sent. */
  function SentIndices(log: Log): (r: seq<nat>)
    ensures |r| == log.regular + if log.final.Some? then 1 else 0
  {
    seq(log.regular, i requires 0 <= i < log.regular => if i < |log.uploaded| then log.uploaded[i].index else 0)
    + if log.final.Some? then [log.final.value] else []
  }

  /** All messages from the queue are sent with upload indices 0, 1, 2, … without a gap, in that
      order: the main loop's, and the one sent at shutdown if it is from the queue. */
  lemma QueueSendsConsecutiveIndices(s: State)
    requires Reachable(s)
    ensures s.log.regular <= |s.log.uploaded| <= |SentIndices(s.log)| <= s.log.regular + 1
    ensures forall i :: 0 <= i < |s.log.uploaded| ==>
              SentIndices(s.log)[i] == s.log.uploaded[i].index == IndexAt(0, i)
  {
    ReachableInv(s);
  }

  lemma ExecutorWaitsOnlyForWork(s: State)
    requires Reachable(s) && s.executor.pc != Done
    ensures ExecutorEnabled(s, Failed) || (s.executor.pc == WaitWork && s.queue == [] && !s.flags.shutdown)
  {
    ReachableInv(s);
  }

  /** Executor steps left once shutdown_ is set. */
  function Remaining(pc: Pc): nat {
    match pc
    case Take => 9
    case Uploading => 8
    case Popping => 7
    case PuttingBack => 7
    case CheckDead => 6
    case Start => 6
    case WaitWork => 5
    case WaitTime => 5
    case Dying => 5
    case Closing => 4
    case ClosingTake => 3
    case ClosingUpload => 2
    case ClosingClean => 1
    case Done => 0
    case Crashed => 0
  }

  function ExecutorSteps(steps: seq<Step>): nat {
    if steps == [] then 0 else (if steps[0].ExecutorStep? then 1 else 0) + ExecutorSteps(steps[1..])
  }

  lemma WaitAfterShutdown(s: State)
    requires Waits(s.executor.pc) && s.flags.shutdown
    ensures WaitNext(s).flags.shutdown && Remaining(WaitNext(s).executor.pc) < Remaining(s.executor.pc)
  {
  }

  lemma UploadAfterShutdown(s: State, o: Outcome)
    requires Uploads(s.executor.pc) && s.flags.shutdown
    ensures UploadNext(s, o).flags.shutdown && Remaining(UploadNext(s, o).executor.pc) < Remaining(s.executor.pc)
  {
  }

  lemma ClosingAfterShutdown(s: State, o: Outcome)
    requires s.executor.pc.Closing? || s.executor.pc.ClosingTake? || s.executor.pc.ClosingUpload?
        || s.executor.pc.ClosingClean?
    requires s.flags.shutdown
    ensures ClosingNext(s, o).flags.shutdown && Remaining(ClosingNext(s, o).executor.pc) < Remaining(s.executor.pc)
  {
  }

  lemma ExecutorAfterShutdown(s: State, o: Outcome)
    requires ExecutorEnabled(s, o) && s.flags.shutdown
    ensures ExecutorNext(s, o).flags.shutdown
    ensures Remaining(ExecutorNext(s, o).executor.pc) < Remaining(s.executor.pc)
  {
    if Waits(s.executor.pc) {
      WaitAfterShutdown(s);
    } else if Uploads(s.executor.pc) {
      UploadAfterShutdown(s, o);
    } else {
      ClosingAfterShutdown(s, o);
    }
  }

  lemma StepAfterShutdown(s: State, step: Step)
    requires Enabled(s, step) && s.flags.shutdown
    ensures Next(s, step).flags.shutdown
    ensures Remaining(Next(s, step).executor.pc) + (if step.ExecutorStep? then 1 else 0) <= Remaining(s.executor.pc)
  {
    if step.ExecutorStep? {
      ExecutorAfterShutdown(s, step.outcome);
    }
  }

  /** Once shutdown_ is set the executor thread ends within nine of its own steps, whatever the
      other threads do and however its uploads turn out. */
  lemma {:induction false} ShutdownIsBounded(s: State, steps: seq<Step>)
    requires s.flags.shutdown && Executable(s, steps)
    ensures ExecutorSteps(steps) + Remaining(Run(s, steps).executor.pc) <= Remaining(s.executor.pc) <= 9
    decreases |steps|
  {
    if steps == [] {
    } else {
      StepAfterShutdown(s, steps[0]);
      ShutdownIsBounded(Next(s, steps[0]), steps[1..]);
    }
  }
}
