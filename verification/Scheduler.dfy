/** The reporter thread's callbacks (src/nccl_stats_reporter.cc). Clock readings, in whole
    nanoseconds, are parameters: one before each callback is looked at, and one at the end. */
module Scheduler {
  import opened Arithmetic

  datatype Callback = Callback(due: int, interval: int)

  datatype Duration = Finite(ns: nat) | Infinite

  /** What one look at a callback leaves of it. */
  function After(c: Callback, now: int): Callback {
    if c.due <= now then c.(due := now + c.interval) else c
  }

  predicate EarliestDue(callbacks: seq<Callback>, n: nat, due: int)
    requires n <= |callbacks|
  {
    && (forall i :: 0 <= i < n ==> due <= callbacks[i].due)
    && exists i :: 0 <= i < n && callbacks[i].due == due
  }

  class NcclStatsReporter {
    var callbacks: seq<Callback>

    constructor ()
      ensures callbacks == []
    {
      callbacks := [];
    }

    method RegisterCallback(now: int, interval: int)
      modifies this
      ensures callbacks == old(callbacks) + [Callback(now + interval, interval)]
    {
      callbacks := callbacks + [Callback(now + interval, interval)];
    }

    /** Runs what is due, in order of registration; the returned wait is exactly the time until
        the earliest due time, or nothing if that has passed, or forever if there is none. */
    method InvokeCallbacksAndReturnDurationToNextCallback(clock: seq<int>) returns (wait: Duration, ran: seq<bool>)
      requires |clock| == |callbacks| + 1
      modifies this
      ensures |callbacks| == |ran| == |old(callbacks)|
      ensures forall i :: 0 <= i < |callbacks| ==> callbacks[i] == After(old(callbacks)[i], clock[i])
      ensures forall i :: 0 <= i < |callbacks| ==> (ran[i] <==> old(callbacks)[i].due <= clock[i])
      ensures wait == Infinite <==> callbacks == []
      ensures var now := clock[|callbacks|];
              wait.Finite? ==> exists due :: EarliestDue(callbacks, |callbacks|, due)
                                             && wait.ns == if due < now then 0 else due - now
    {
      ran := [];
      var minSoFar, none := 0, true;
      for i := 0 to |callbacks|
        invariant |callbacks| == |old(callbacks)| && |ran| == i
        invariant forall j :: 0 <= j < i ==> callbacks[j] == After(old(callbacks)[j], clock[j])
        invariant forall j :: i <= j < |callbacks| ==> callbacks[j] == old(callbacks)[j]
        invariant forall j :: 0 <= j < i ==> (ran[j] <==> old(callbacks)[j].due <= clock[j])
        invariant none <==> i == 0
        invariant !none ==> EarliestDue(callbacks, i, minSoFar)
      {
        ghost var before := callbacks;
        var now := clock[i];
        if callbacks[i].due <= now {
          ran := ran + [true];
          callbacks := callbacks[i := callbacks[i].(due := now + callbacks[i].interval)];
        } else {
          ran := ran + [false];
        }
        EarlierUnchanged(before, callbacks, i, minSoFar, none);
        if none || callbacks[i].due < minSoFar {
          minSoFar := callbacks[i].due;
        }
        none := false;
      }
      if none {
        wait := Infinite;
      } else {
        var now := clock[|callbacks|];
        wait := Finite(if minSoFar < now then 0 else minSoFar - now);
      }
    }
  }

  lemma EarlierUnchanged(before: seq<Callback>, after: seq<Callback>, i: nat, due: int, none: bool)
    requires i < |before| == |after| && forall j :: 0 <= j < i ==> after[j] == before[j]
    requires if none then i == 0 else EarliestDue(before, i, due)
    ensures EarliestDue(after, i + 1, if none || after[i].due < due then after[i].due else due)
  {
    if !none {
      var k :| 0 <= k < i && before[k].due == due;
      assert after[k].due == due;
    }
  }

  // ---------- One callback over a run ----------

  /** The readings at which a callback is looked at, pass after pass. */
  predicate NonDecreasing(readings: seq<int>) {
    forall j, k :: 0 <= j < k < |readings| ==> readings[j] <= readings[k]
  }

  function AfterPasses(c: Callback, readings: seq<int>, n: nat): Callback
    requires n <= |readings|
  {
    if n == 0 then c else After(AfterPasses(c, readings, n - 1), readings[n - 1])
  }

  /** The readings at which it ran. */
  function Runs(c: Callback, readings: seq<int>, n: nat): seq<int>
    requires n <= |readings|
  {
    if n == 0 then []
    else
      var earlier := Runs(c, readings, n - 1);
      if AfterPasses(c, readings, n - 1).due <= readings[n - 1] then earlier + [readings[n - 1]] else earlier
  }

  /** The first run comes no earlier than one interval after registration, and each later one no
      earlier than one interval after the one before; the next is due one interval later. */
  predicate Spaced(runs: seq<int>, registered: int, interval: int) {
    && (runs != [] ==> runs[0] >= registered + interval)
    && forall k :: 0 < k < |runs| ==> runs[k] >= runs[k - 1] + interval
  }

  lemma {:induction false} RunsAreSpaced(registered: int, interval: int, readings: seq<int>, n: nat)
    requires n <= |readings|
    ensures var c := Callback(registered + interval, interval);
            var runs := Runs(c, readings, n);
            && Spaced(runs, registered, interval)
            && AfterPasses(c, readings, n)
               == Callback((if runs == [] then registered else runs[|runs| - 1]) + interval, interval)
  {
    if n == 0 {
    } else {
      RunsAreSpaced(registered, interval, readings, n - 1);
    }
  }

  /** It runs at a look exactly if an interval has passed since its last run or its registration. */
  lemma RunsIfDue(registered: int, interval: int, readings: seq<int>, n: nat)
    requires 0 < n <= |readings|
    ensures var c := Callback(registered + interval, interval);
            var earlier := Runs(c, readings, n - 1);
            var last := if earlier == [] then registered else earlier[|earlier| - 1];
            Runs(c, readings, n)
            == if readings[n - 1] >= last + interval then earlier + [readings[n - 1]] else earlier
  {
    RunsAreSpaced(registered, interval, readings, n - 1);
  }

  lemma {:induction false} RunTimes(runs: seq<int>, registered: int, interval: nat, k: nat)
    requires Spaced(runs, registered, interval) && k < |runs|
    ensures runs[k] >= registered + (k + 1) * interval
  {
    Distribute(k, 0, interval);
    if k == 0 {
    } else {
      RunTimes(runs, registered, interval, k - 1);
    }
  }

  lemma {:induction false} RunsAreReadings(c: Callback, readings: seq<int>, n: nat, last: int)
    requires n <= |readings| && forall j :: 0 <= j < n ==> readings[j] <= last
    ensures forall k :: 0 <= k < |Runs(c, readings, n)| ==> Runs(c, readings, n)[k] <= last
  {
    if n == 0 {
    } else {
      RunsAreReadings(c, readings, n - 1, last);
    }
  }

  /** With a clock that does not run backwards and a positive interval, a callback has run at
      most once for each whole interval since it was registered. */
  lemma RunsAtMostOncePerInterval(registered: int, interval: nat, readings: seq<int>, n: nat)
    requires 0 < n <= |readings| && NonDecreasing(readings) && interval > 0 && registered <= readings[n - 1]
    ensures |Runs(Callback(registered + interval, interval), readings, n)| <= (readings[n - 1] - registered) / interval
  {
    var c := Callback(registered + interval, interval);
    var runs := Runs(c, readings, n);
    RunsAreSpaced(registered, interval, readings, n);
    RunsAreReadings(c, readings, n, readings[n - 1]);
    if runs == [] {
      DivisionFacts(readings[n - 1] - registered, interval);
    } else {
      RunTimes(runs, registered, interval, |runs| - 1);
      ProductNonNegative(|runs|, interval);
      QuotientAtLeast(|runs|, readings[n - 1] - registered, interval);
    }
  }

  /** No two looks at a callback are more than `gap` apart. */
  predicate Frequent(readings: seq<int>, n: nat, registered: int, interval: int, gap: int)
    requires n <= |readings|
  {
    && (n > 0 ==> readings[0] <= registered + interval + gap)
    && forall k :: 0 < k < n ==> readings[k] <= readings[k - 1] + gap
  }

  predicate Punctual(runs: seq<int>, registered: int, interval: int, gap: int) {
    && (runs != [] ==> runs[0] <= registered + interval + gap)
    && forall k :: 0 < k < |runs| ==> runs[k] <= runs[k - 1] + interval + gap
  }

  lemma DueAfterLook(c: Callback, readings: seq<int>, n: nat)
    requires 0 < n <= |readings| && AfterPasses(c, readings, n - 1).interval > 0
    ensures AfterPasses(c, readings, n).due > readings[n - 1]
  {
  }

  /** Nor does it run late: one interval and one gap after the run before at the latest. */
  lemma {:induction false} RunsArePunctual(registered: int, interval: int, gap: int, readings: seq<int>, n: nat)
    requires n <= |readings| && interval > 0 && Frequent(readings, n, registered, interval, gap)
    ensures Punctual(Runs(Callback(registered + interval, interval), readings, n), registered, interval, gap)
  {
    var c := Callback(registered + interval, interval);
    if n == 0 {
    } else {
      RunsArePunctual(registered, interval, gap, readings, n - 1);
      RunsAreSpaced(registered, interval, readings, n - 1);
      if n > 1 {
        RunsAreSpaced(registered, interval, readings, n - 2);
        DueAfterLook(c, readings, n - 1);
      }
    }
  }
}
