/** The upload index of the message sent at shutdown (src/nccl_stats_uploader_executor.cc), and
    whether an index still identifies a message (src/proto/nccl_telemetry_proto.proto). */
module UploadIndices {
  import opened Wrappers
  import opened Arithmetic
  import opened MessageSplitting
  import opened UploadProtocol

  /** The message sent at shutdown came from the queue; otherwise it was made up. */
  predicate FromQueue(log: Log) {
    log.regular < |log.uploaded|
  }

  lemma ClosingIndexIs(s: State)
    requires Reachable(s) && s.log.final.Some?
    ensures s.log.final.value == if FromQueue(s.log) then IndexAt(0, s.log.regular) else 0
  {
    ReachableInv(s);
    QueueSendsConsecutiveIndices(s);
  }

  /** The message sent at shutdown carries the next index after the main loop's exactly if it
      came from the queue, or if it was made up and the main loop sent nothing (or whole turns of
      the 64-bit counter). */
  lemma ShutdownIndexContinuesIff(s: State)
    requires Reachable(s) && s.log.final.Some?
    ensures s.log.final.value == IndexAt(0, s.log.regular) <==> FromQueue(s.log) || s.log.regular % TWO_64 == 0
  {
    ClosingIndexIs(s);
  }

  predicate Distinct(r: seq<nat>) {
    forall i, j :: 0 <= i < j < |r| ==> r[i] != r[j]
  }

  /** All indices sent are different exactly if no more messages were sent than there are indices
      and none was made up at shutdown after others. */
  lemma SentIndicesDistinctIff(s: State)
    requires Reachable(s)
    ensures Distinct(SentIndices(s.log))
       <==> |SentIndices(s.log)| <= TWO_64 && (s.log.final.Some? && !FromQueue(s.log) ==> s.log.regular == 0)
  {
    var r, n := SentIndices(s.log), |s.log.uploaded|;
    QueueSendsConsecutiveIndices(s);
    assert forall i :: 0 <= i < n ==> r[i] == i % TWO_64;
    if n > TWO_64 {
      assert r[0] == r[TWO_64];
    } else if n < |r| {
      ClosingIndexIs(s);
      assert r[n] == 0;
      if n > 0 {
        assert r[0] == r[n];
      }
    }
  }

  // ---------- A run in which it fails ----------

  lemma {:induction false} RunSnoc(s: State, steps: seq<Step>, step: Step)
    requires Executable(s, steps) && Enabled(Run(s, steps), step)
    ensures Executable(s, steps + [step]) && Run(s, steps + [step]) == Next(Run(s, steps), step)
    decreases |steps|
  {
    if steps == [] {
      assert [step][1..] == [];
    } else {
      assert (steps + [step])[1..] == steps[1..] + [step];
      RunSnoc(Next(s, steps[0]), steps[1..], step);
    }
  }

  lemma ReachableNext(s: State, step: Step)
    requires Reachable(s) && Enabled(s, step)
    ensures Reachable(Next(s, step))
  {
    var init, steps :| Init(init) && Executable(init, steps) && s == Run(init, steps);
    RunSnoc(init, steps, step);
  }

  const NO_TELEMETRY: Fields := Fields([], [], [])
  const REPORT: Step := ReporterStep(NO_TELEMETRY, 0)
  const EXECUTE: Step := ExecutorStep(Sent)

  function Heartbeat(index: nat): Message {
    Message(index, NO_TELEMETRY)
  }

  lemma SplitNothing(index: nat)
    requires index < TWO_64
    ensures Split(NO_TELEMETRY, 0, index) == [Heartbeat(index)]
  {
  }

  const RUNNING: Flags := Flags(true, false, false, false, true)
  const STOPPING: Flags := RUNNING.(shutdown := true, stopRequested := true)
  const ONE_QUEUED: Log := Accepted(NO_HISTORY, [Heartbeat(0)])
  const ONE_SENT: Log := ONE_QUEUED.(uploaded := [Heartbeat(0)], regular := 1)

  lemma Reaches(s: State, step: Step, t: State)
    requires Reachable(s) && Enabled(s, step) && t == Next(s, step)
    ensures Reachable(t)
  {
    ReachableNext(s, step);
  }

  /** One full report of a live pipeline with an empty queue, from the question to the commit. */
  lemma Reports(s: State, t: State)
    requires Reachable(s) && s.reporter.Idle? && s.flags.Live() && !s.flags.stopRequested
    requires s.queue == [] && s.index < TWO_64
    requires t == Commit(s.(reporter := Updating(true, [Heartbeat(s.index)]), index := s.index + 1))
    ensures Reachable(t)
  {
    SplitNothing(s.index);
    Reaches(s, REPORT, s.(reporter := Asking));
    Reaches(s.(reporter := Asking), REPORT, s.(reporter := Ready(true)));
    var u := s.(reporter := Updating(true, [Heartbeat(s.index)]), index := s.index + 1);
    Reaches(s.(reporter := Ready(true)), REPORT, u);
    Reaches(u, REPORT, t);
  }

  lemma FirstReport() returns (s: State)
    ensures Reachable(s)
    ensures s == State(RUNNING, [Holding(Heartbeat(0))], 1, Executor(Start, None), Idle, ONE_QUEUED)
  {
    var s0 := State(RUNNING, [], 0, Executor(Start, None), Idle, NO_HISTORY);
    assert Executable(s0, []) && s0 == Run(s0, []);
    s := State(RUNNING, [Holding(Heartbeat(0))], 1, Executor(Start, None), Idle, ONE_QUEUED);
    Reports(s0, s);
  }

  lemma FirstSend() returns (s: State)
    ensures Reachable(s)
    ensures s == State(STOPPING, [Null], 1, Executor(Popping, None), Idle, ONE_SENT)
  {
    s := FirstReport();
    Reaches(s, EXECUTE, Goto(s, WaitWork));
    Reaches(Goto(s, WaitWork), EXECUTE, Goto(s, WaitTime));
    Reaches(Goto(s, WaitTime), EXECUTE, Goto(s, Take));
    var t := s.(queue := [Null], executor := Executor(Uploading, Some(Heartbeat(0))));
    Reaches(Goto(s, Take), EXECUTE, t);
    s := State(RUNNING, [Null], 1, Executor(Popping, None), Idle, ONE_SENT);
    Reaches(t, EXECUTE, s);
    t := s.(flags := STOPPING);
    Reaches(s, SetShutdown, t);
    s := t;
  }

  /** A clean shutdown after everything has been sent sends index 0 a second time. */
  lemma ShutdownUploadMayRepeatIndexZero() returns (s: State)
    ensures Reachable(s) && s.log.refused == 0 && SentIndices(s.log) == [0, 0]
  {
    var t := FirstSend();
    s := t.(queue := [], executor := Executor(WaitWork, None));
    Reaches(t, EXECUTE, s);
    Reaches(s, EXECUTE, Goto(s, Closing));
    Reaches(Goto(s, Closing), EXECUTE, Goto(s, ClosingTake));
    t := Goto(s, ClosingUpload);
    Reaches(Goto(s, ClosingTake), EXECUTE, t);
    s := t.(executor := Executor(ClosingClean, None), log := t.log.(final := Some(0)));
    Reaches(t, EXECUTE, s);
  }
}
