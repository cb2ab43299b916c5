/** What the executor thread does with the queue when no other thread interferes
    (src/nccl_stats_uploader_executor.cc, RunUploadExecutor and
    UploadAndCleanupRemainingTelemetryOnShutdown). */
module ExecutorRounds {
  import opened Wrappers
  import opened MessageSplitting
  import opened UploadProtocol

  /** The upload at shutdown is tried only after a success, or before any upload, with a live uploader. */
  predicate MaySend(flags: Flags) {
    flags.present && !flags.dead && flags.lastSuccess
  }

  // `n` steps of the executor in a row; `o` answers its upload.
  predicate CanExecute(s: State, o: Outcome, n: nat)
    decreases n
  {
    n == 0 || (ExecutorEnabled(s, o) && CanExecute(ExecutorNext(s, o), o, n - 1))
  }

  function Execute(s: State, o: Outcome, n: nat): State
    decreases n
  {
    if n == 0 then s else Execute(ExecutorNext(s, o), o, n - 1)
  }

  /** They are a run of the protocol. */
  lemma {:induction false} ExecuteIsARun(s: State, o: Outcome, n: nat)
    requires CanExecute(s, o, n)
    ensures Executable(s, seq(n, _ => ExecutorStep(o)))
    ensures Run(s, seq(n, _ => ExecutorStep(o))) == Execute(s, o, n)
    decreases n
  {
    if n == 0 {
    } else {
      ExecuteIsARun(ExecutorNext(s, o), o, n - 1);
      assert seq(n, _ => ExecutorStep(o))[1..] == seq(n - 1, _ => ExecutorStep(o));
    }
  }

  lemma TwoMore(s: State, o: Outcome, n: nat)
    requires ExecutorEnabled(s, o) && ExecutorEnabled(ExecutorNext(s, o), o)
    ensures CanExecute(s, o, n + 2) <==> CanExecute(ExecutorNext(ExecutorNext(s, o), o), o, n)
    ensures Execute(s, o, n + 2) == Execute(ExecutorNext(ExecutorNext(s, o), o), o, n)
  {
    assert CanExecute(s, o, n + 2) <==> CanExecute(ExecutorNext(s, o), o, n + 1);
    assert Execute(s, o, n + 2) == Execute(ExecutorNext(s, o), o, n + 1);
  }

  // ---------- The end ----------

  /** The log at the end, against the log and the pending messages before. */
  predicate Closed(before: Log, pending: seq<Message>, after: Log, o: Outcome) {
    var front := if pending == [] then [] else [pending[0]];
    && after.uploaded + after.dropped == before.uploaded + pending
    && if o.Sent?
       then && after.uploaded == before.uploaded + front
            && after.final == Some(if front == [] then 0 else front[0].index)
       else after.uploaded == before.uploaded && after.final == None
  }

  lemma ClosedLog(before: Log, front: Message, rest: seq<Message>, after: Log, o: Outcome)
    requires before.dropped == [] && before.final == None
    requires if o.Sent?
             then && after.uploaded == before.uploaded + [front] && after.final == Some(front.index)
                  && after.dropped == rest
             else after.uploaded == before.uploaded && after.final == None && after.dropped == [front] + rest
    ensures Closed(before, [front] + rest, after, o)
  {
    assert (before.uploaded + [front]) + rest == before.uploaded + ([front] + rest);
  }

  /** The state in which the upload at shutdown is made. */
  function ToSend(s: State): State {
    if s.queue == [] then Goto(s, ClosingUpload) else TakeFront(Goto(s, ClosingTake), ClosingUpload)
  }

  lemma FourSteps(s: State, o: Outcome)
    requires s.executor.pc.Closing? && MaySend(s.flags) && (s.queue != [] ==> FrontHolds(s.queue))
    ensures CanExecute(s, o, 4)
    ensures Execute(s, o, 4) == CleanUp(AfterClosingUpload(ToSend(s), o))
  {
    TwoMore(s, o, 2);
    TwoMore(ToSend(s), o, 0);
    assert CanExecute(CleanUp(AfterClosingUpload(ToSend(s), o)), o, 0);
  }

  lemma LogWithFront(s: State, o: Outcome)
    requires Inv(s) && s.executor.pc.Closing? && s.queue != []
    ensures var t := CleanUp(AfterClosingUpload(ToSend(s), o));
            && t.executor.pc.Done? && t.queue == [] && Closed(s.log, Messages(s.queue), t.log, o)
            && t.flags == s.flags.(dead := s.flags.dead || o.FailedAndDied?)
  {
    var front, rest := s.queue[0].msg, Messages(s.queue[1..]);
    var taken := ToSend(s);
    assert Messages(taken.queue) == rest by {
      FrontMessages(s.queue, Null);
    }
    assert taken.executor.m == Some(front) && taken.log == s.log;
    LogAfterUpload(taken, front, rest, o);
  }

  lemma LogAfterUpload(taken: State, front: Message, rest: seq<Message>, o: Outcome)
    requires taken.executor.m == Some(front) && Messages(taken.queue) == rest
    requires taken.log.dropped == [] && taken.log.final == None
    ensures Closed(taken.log, [front] + rest, CleanUp(AfterClosingUpload(taken, o)).log, o)
  {
    assert CleanUp(AfterClosingUpload(taken, o)).log.dropped == if o.Sent? then rest else [front] + rest;
    ClosedLog(taken.log, front, rest, CleanUp(AfterClosingUpload(taken, o)).log, o);
  }

  lemma ClosedWithFront(s: State, o: Outcome)
    requires Inv(s) && s.executor.pc.Closing? && MaySend(s.flags) && s.queue != []
    ensures CanExecute(s, o, 4)
    ensures var t := Execute(s, o, 4);
            && t.executor.pc.Done? && t.queue == [] && Closed(s.log, Messages(s.queue), t.log, o)
            && t.flags == s.flags.(dead := s.flags.dead || o.FailedAndDied?)
  {
    FourSteps(s, o);
    LogWithFront(s, o);
  }

  lemma ClosedWithoutFront(s: State, o: Outcome)
    requires Inv(s) && s.executor.pc.Closing? && MaySend(s.flags) && s.queue == []
    ensures CanExecute(s, o, 4)
    ensures var t := Execute(s, o, 4);
            && t.executor.pc.Done? && t.queue == [] && Closed(s.log, Messages(s.queue), t.log, o)
            && t.flags == s.flags.(dead := s.flags.dead || o.FailedAndDied?)
  {
    FourSteps(s, o);
  }

  /** With the uploader there and alive, and the last upload a success, the thread ends in four steps.
      If its upload succeeds the front of the queue is sent, and nothing but the rest is dropped,
      or for an empty queue a message with index 0; if it fails all that was pending is dropped. */
  lemma ShutdownSendsFront(s: State, o: Outcome)
    requires Reachable(s) && s.executor.pc.Closing? && MaySend(s.flags)
    ensures CanExecute(s, o, 4)
    ensures var t := Execute(s, o, 4);
            && t.executor.pc.Done? && t.queue == [] && Closed(s.log, Messages(s.queue), t.log, o)
            && t.flags == s.flags.(dead := s.flags.dead || o.FailedAndDied?)
  {
    ReachableInv(s);
    if s.queue == [] {
      ClosedWithoutFront(s, o);
    } else {
      ClosedWithFront(s, o);
    }
  }

  /** Otherwise it ends in one step, sends nothing more and drops all that was pending. */
  lemma ShutdownSendsNothing(s: State, o: Outcome)
    requires Reachable(s) && s.executor.pc.Closing? && !MaySend(s.flags)
    ensures Enabled(s, ExecutorStep(o))
    ensures var t := Next(s, ExecutorStep(o));
            && t.executor.pc.Done? && t.queue == []
            && t.log.uploaded == s.log.uploaded && t.log.final == None && t.log.dropped == Messages(s.queue)
  {
    ReachableInv(s);
    assert s.log.dropped == [] && s.executor.m == None;
    assert [] + [] + Messages(s.queue) == Messages(s.queue);
  }

  // ---------- The main loop ----------

  /** The thread is about to take up a message. */
  predicate Working(s: State) {
    && s.executor == Executor(WaitWork, None) && s.flags.present && !s.flags.dead && !s.flags.shutdown
    && FrontHolds(s.queue) && s.log.dropped == []
  }

  lemma WorkingInReach(s: State)
    requires Reachable(s) && s.executor.pc.WaitWork? && !s.flags.shutdown && s.queue != []
    ensures Working(s)
  {
    ReachableInv(s);
  }

  lemma ToUpload(s: State, o: Outcome, n: nat)
    requires Working(s)
    ensures var taken := s.(queue := s.queue[0 := Null], executor := Executor(Uploading, Some(s.queue[0].msg)));
            && (CanExecute(s, o, n + 3) <==> CanExecute(taken, o, n))
            && Execute(s, o, n + 3) == Execute(taken, o, n)
  {
    var timed, take := Goto(s, WaitTime), Goto(s, Take);
    TwoMore(s, o, n + 1);
    assert ExecutorNext(timed, o) == take;
    assert CanExecute(take, o, n + 1) <==> CanExecute(ExecutorNext(take, o), o, n);
    assert Execute(take, o, n + 1) == Execute(ExecutorNext(take, o), o, n);
  }

  /** The thread begins to work exactly if there is a live uploader. */
  lemma StartsToWork(s: State, o: Outcome)
    requires Reachable(s) && s.executor.pc.Start?
    ensures CanExecute(s, o, 1)
    ensures Execute(s, o, 1).executor.pc == if s.flags.present && !s.flags.dead then WaitWork else Closing
    ensures Execute(s, o, 1) == Goto(s, Execute(s, o, 1).executor.pc)
  {
    OneMore(s, o, 0);
  }

  /** A round of the main loop with something to send sends the front, and pops it once that has
      succeeded. */
  lemma RoundSendsFront(s: State)
    requires Reachable(s) && s.executor.pc.WaitWork? && !s.flags.shutdown && s.queue != []
    ensures FrontHolds(s.queue) && CanExecute(s, Sent, 5)
    ensures var sent := s.log.(uploaded := s.log.uploaded + [s.queue[0].msg], regular := s.log.regular + 1);
            Execute(s, Sent, 5) == s.(queue := s.queue[1..], flags := s.flags.(lastSuccess := true), log := sent)
  {
    WorkingInReach(s);
    ToUpload(s, Sent, 2);
    var taken := s.(queue := s.queue[0 := Null], executor := Executor(Uploading, Some(s.queue[0].msg)));
    TwoMore(taken, Sent, 0);
    assert s.queue[0 := Null][1..] == s.queue[1..];
  }

  /** After an upload that failed the message is in front of the queue again. */
  lemma PutsBack(s: State, o: Outcome, n: nat)
    requires Working(s) && !o.Sent?
    ensures var back := s.(flags := s.flags.(lastSuccess := false, dead := o.FailedAndDied?),
                           executor := Executor(CheckDead, None));
            && (CanExecute(s, o, n + 5) <==> CanExecute(back, o, n))
            && Execute(s, o, n + 5) == Execute(back, o, n)
  {
    ToUpload(s, o, n + 2);
    var taken := s.(queue := s.queue[0 := Null], executor := Executor(Uploading, Some(s.queue[0].msg)));
    assert s.queue[0 := Null][0 := Holding(s.queue[0].msg)] == s.queue;
    TwoMore(taken, o, n);
  }

  lemma OneMore(s: State, o: Outcome, n: nat)
    requires ExecutorEnabled(s, o)
    ensures CanExecute(s, o, n + 1) <==> CanExecute(ExecutorNext(s, o), o, n)
    ensures Execute(s, o, n + 1) == Execute(ExecutorNext(s, o), o, n)
  {
  }

  lemma Retries(s: State)
    requires Working(s)
    ensures CanExecute(s, Failed, 6)
    ensures Execute(s, Failed, 6) == s.(flags := s.flags.(lastSuccess := false))
  {
    PutsBack(s, Failed, 1);
    var back := s.(flags := s.flags.(lastSuccess := false), executor := Executor(CheckDead, None));
    OneMore(back, Failed, 0);
  }

  /** A round whose upload fails changes nothing but what is remembered of the last upload; the same
      message is tried again. */
  lemma RoundRetries(s: State)
    requires Reachable(s) && s.executor.pc.WaitWork? && !s.flags.shutdown && s.queue != []
    ensures CanExecute(s, Failed, 6)
    ensures Execute(s, Failed, 6) == s.(flags := s.flags.(lastSuccess := false))
  {
    WorkingInReach(s);
    Retries(s);
  }

  lemma Dies(s: State)
    requires Working(s)
    ensures CanExecute(s, FailedAndDied, 8)
    ensures var t := Execute(s, FailedAndDied, 8);
            && t.executor.pc.Done? && t.queue == [] && t.flags.shutdown && t.flags.dead
            && t.log == s.log.(dropped := Messages(s.queue))
  {
    PutsBack(s, FailedAndDied, 3);
    DiesFrom(s.(flags := s.flags.(lastSuccess := false, dead := true), executor := Executor(CheckDead, None)));
  }

  /** When the uploader dies over it the thread ends, and all that was pending is dropped. */
  lemma RoundDies(s: State)
    requires Reachable(s) && s.executor.pc.WaitWork? && !s.flags.shutdown && s.queue != []
    ensures CanExecute(s, FailedAndDied, 8)
    ensures var t := Execute(s, FailedAndDied, 8);
            && t.executor.pc.Done? && t.queue == [] && t.flags.shutdown && t.flags.dead
            && t.log == s.log.(dropped := Messages(s.queue))
  {
    WorkingInReach(s);
    Dies(s);
  }

  lemma DiesFrom(s: State)
    requires s.executor == Executor(CheckDead, None) && s.flags.dead && s.log.dropped == []
    ensures CanExecute(s, FailedAndDied, 3)
    ensures Execute(s, FailedAndDied, 3) == CleanUp(s.(flags := s.flags.(shutdown := true)))
    ensures CleanUp(s).log == s.log.(dropped := Messages(s.queue))
  {
    TwoMore(s, FailedAndDied, 1);
    var closing := Goto(s.(flags := s.flags.(shutdown := true)), Closing);
    OneMore(closing, FailedAndDied, 0);
    assert [] + [] + Messages(s.queue) == Messages(s.queue);
  }

  /** A shutdown before anything was sent still sends its own message. */
  lemma ShutdownAtOnce(s: State)
    requires Init(s) && s.flags.present && !s.flags.dead
    ensures Enabled(s, SetShutdown) && CanExecute(Next(s, SetShutdown), Sent, 6)
    ensures var t := Execute(Next(s, SetShutdown), Sent, 6); t.executor.pc.Done? && t.log.final == Some(0)
  {
    var closing := Goto(Next(s, SetShutdown), Closing);
    TwoMore(Next(s, SetShutdown), Sent, 4);
    FourSteps(closing, Sent);
  }
}
