/** The critical sections of the executor and the reporter as methods of the object they share
    (src/nccl_stats_uploader_executor.cc, src/nccl_stats_uploader_executor.h). Each one has the
    effect of the steps of UploadProtocol it stands for. */
module UploadSections {
  import opened Wrappers
  import opened MessageSplitting
  import opened UploadProtocol
  import opened ExecutorRounds

  class NcclStatsUploaderExecutor {
    var uploaderPresent: bool
    var uploaderDead: bool
    var shutdown: bool
    var stopRequested: bool
    var lastUploadSuccess: bool
    var q: seq<Slot>
    var index: nat
    /** The executor thread's local buffer. */
    var m: Option<Message>
    ghost var pc: Pc
    ghost var reporter: Reporter
    ghost var log: Log

    constructor (uploaderPresent: bool, uploaderDead: bool)
      ensures Init(View()) && View().flags.present == uploaderPresent && View().flags.dead == uploaderDead
    {
      this.uploaderPresent, this.uploaderDead := uploaderPresent, uploaderDead;
      shutdown, stopRequested, lastUploadSuccess := false, false, true;
      q, index, m := [], 0, None;
      pc, reporter, log := Start, Idle, NO_HISTORY;
    }

    ghost function View(): State
      reads this
    {
      State(Flags(uploaderPresent, uploaderDead, shutdown, stopRequested, lastUploadSuccess),
            q, index, Executor(pc, m), reporter, log)
    }

    /** m = std::move(q_.front()), in the main loop and in the clean-up. */
    method MoveFrontOut(ghost next: Pc)
      requires FrontHolds(q)
      modifies this`q, this`m, this`pc
      ensures View() == TakeFront(old(View()), next)
    {
      m := Some(q[0].msg);
      q := q[0 := Null];
      pc := next;
    }

    /** What follows a call of Upload in the main loop. */
    method AfterUploadReturns(outcome: Outcome)
      requires pc == Uploading && m.Some? && q != []
      modifies this
      ensures var s := UploadProtocol.AfterUpload(old(View()), outcome);
              View() == if outcome == Sent then Popped(s) else PutBack(s)
    {
      if outcome == Sent {
        log := log.(uploaded := log.uploaded + Held(m), regular := log.regular + 1);
        m := None;
        q := q[1..];
        lastUploadSuccess := true;
        pc := WaitWork;
      } else {
        if outcome == FailedAndDied {
          uploaderDead := true;
        }
        q := q[0 := Holding(m.value)];
        m := None;
        lastUploadSuccess := false;
        pc := CheckDead;
      }
    }

    /** CleanUpQ: pops until nothing is left. */
    method CleanUpQ()
      modifies this`q, this`m, this`log, this`pc
      ensures View() == CleanUp(old(View()))
    {
      log := log.(dropped := log.dropped + Held(m));
      m := None;
      ghost var dropped := log.dropped;
      assert dropped + [] == dropped;
      while q != []
        invariant log.dropped + Messages(q) == dropped + Messages(old(q))
        invariant log == old(log).(dropped := log.dropped) && m == None && pc == old(pc)
        decreases |q|
      {
        ghost var front := if q[0].Null? then [] else [q[0].msg];
        assert log.dropped + (front + Messages(q[1..])) == (log.dropped + front) + Messages(q[1..]);
        log := log.(dropped := log.dropped + front);
        q := q[1..];
      }
      pc := Done;
    }

    /** What follows the call of Upload at shutdown. */
    method ClosingUploadReturns(outcome: Outcome)
      modifies this`m, this`log, this`pc, this`uploaderDead
      ensures View() == AfterClosingUpload(old(View()), outcome)
    {
      if outcome == Sent {
        log := log.(uploaded := log.uploaded + Held(m), final := Some(ClosingIndex(m)));
        m := None;
      } else if outcome == FailedAndDied {
        uploaderDead := true;
      }
      pc := ClosingClean;
    }

    /** The whole function, when no other thread comes in between; `outcome` answers its upload. */
    method UploadAndCleanupRemainingTelemetryOnShutdown(outcome: Outcome)
      requires pc.Closing? && m == None && (q != [] ==> FrontHolds(q))
      modifies this`q, this`m, this`log, this`pc, this`uploaderDead
      ensures View() == Execute(old(View()), outcome, if old(MaySend(View().flags)) then 4 else 1)
    {
      ghost var before := View();
      if !lastUploadSuccess || !uploaderPresent || uploaderDead {
        OneMore(before, outcome, 0);
        CleanUpQ();
        return;
      }
      FourSteps(before, outcome);
      if q != [] {
        pc := ClosingTake;
        MoveFrontOut(ClosingUpload);
      } else {
        pc := ClosingUpload;
      }
      ClosingUploadReturns(outcome);
      CleanUpQ();
    }

    /** The first read of UploadFinished, made without the lock. */
    method UploaderIsGone() returns (gone: bool)
      requires reporter.Idle? && !stopRequested
      modifies this`reporter
      ensures View() == Ask(old(View())) && (gone <==> reporter.Ready?)
    {
      gone := !uploaderPresent || uploaderDead;
      reporter := if gone then Ready(false) else Asking;
    }

    /** The second read, made under the lock. */
    method NothingToUpload() returns (answer: bool)
      requires reporter.Asking?
      modifies this`reporter
      ensures View() == Ask(old(View())) && (answer <==> reporter.Ready?)
    {
      answer := shutdown || q == [];
      reporter := if shutdown then Ready(false) else if q == [] then Ready(true) else Idle;
    }

    /** Both reads with nothing between them: an update made now can be refused only by a pipeline
        that is not live, and one that had to wait would be. */
    method UploadFinished() returns (finished: bool)
      requires reporter.Idle? && !stopRequested
      modifies this`reporter
      ensures finished <==> reporter.Ready?
      ensures finished ==> q == [] || !View().flags.Live()
      ensures !finished ==> q != [] && View().flags.Live() && View() == old(View())
    {
      finished := UploaderIsGone();
      if !finished {
        finished := NothingToUpload();
      }
    }

    /** UpdateQueue under the lock. */
    method ReplaceIfEmpty(split: seq<Message>) returns (ok: bool)
      requires reporter.Updating? && reporter.q == split
      modifies this`q, this`reporter, this`log
      ensures View() == Commit(old(View()))
      ensures ok <==> old(q) == []
    {
      ok := q == [];
      if ok {
        q := Slots(split);
        log := Accepted(log, split);
      } else {
        log := Refused(log);
      }
      reporter := Idle;
    }

    method RequestShutdown()
      modifies this`shutdown, this`stopRequested
      ensures View() == Next(old(View()), SetShutdown)
    {
      shutdown := true;
      stopRequested := true;
    }
  }
}
