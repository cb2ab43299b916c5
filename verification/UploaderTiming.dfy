/** When the uploader lets calls through (src/nccl_uploader.cc). */
module UploaderTiming {
  import opened RealPowers
  import opened UploaderRetry

  /** The call got past the gate. */
  predicate Accepted(r: Retry, c: Call) {
    var status := StatusOf(r, c.ignoreNext, c.env);
    status == Ok || status == SendFailed || status == CreateFailed
  }

  /** In every run: a live uploader turns a call away exactly if it comes before the next upload time
      and does not ignore that; and then it stays as it is. */
  lemma GateIff(first: Retry, send: BackOffParameters, create: BackOffParameters, calls: seq<Call>, n: nat, c: Call)
    requires Inv(first, send, create) && n <= |calls|
    ensures var r := Run(first, send, create, calls, n);
            !r.dead ==>
              && r.next.At?
              && (StatusOf(r, c.ignoreNext, c.env) == TooEarly <==> !c.ignoreNext && c.env.start < r.next.ms)
              && (StatusOf(r, c.ignoreNext, c.env) == TooEarly ==> AfterCall(r, send, create, c) == r)
              && (Accepted(r, c) <==> c.ignoreNext || c.env.start >= r.next.ms)
  {
    RunKeepsInv(first, send, create, calls, n);
  }

  /** None of the calls from `i` on and before `j` gets past the gate. */
  predicate NoneAccepted(r: Retry, send: BackOffParameters, create: BackOffParameters, calls: seq<Call>, i: nat, j: nat)
    requires j <= |calls|
  {
    forall k :: i <= k < j ==> !Accepted(Run(r, send, create, calls, k), calls[k])
  }

  lemma RejectedChangesNothing(r: Retry, send: BackOffParameters, create: BackOffParameters, c: Call)
    requires !Accepted(r, c)
    ensures AfterCall(r, send, create, c) == r
  {
  }

  lemma {:induction false} NothingChanges(r: Retry, send: BackOffParameters, create: BackOffParameters,
      calls: seq<Call>, i: nat, j: nat)
    requires i <= j <= |calls| && NoneAccepted(r, send, create, calls, i, j)
    ensures Run(r, send, create, calls, j) == Run(r, send, create, calls, i)
  {
    if i == j {
    } else {
      NothingChanges(r, send, create, calls, i, j - 1);
      RejectedChangesNothing(Run(r, send, create, calls, j - 1), send, create, calls[j - 1]);
    }
  }

  /** The least time until the next upload, counted from when the outcome was known. */
  function LeastWait(after: Retry, send: BackOffParameters, create: BackOffParameters, status: Status): real {
    match status
    case Ok => after.minWait
    case SendFailed => if after.sends > 0 then Max(after.minWait, ExponentialDelay(send, after.sends) / 2.0) else 0.0
    case _ => if after.creates > 0 then ExponentialDelay(create, after.creates) / 2.0 else 0.0
  }

  lemma NextUpload(r: Retry, send: BackOffParameters, create: BackOffParameters, c: Call)
    requires Inv(r, send, create) && send.Valid() && create.Valid() && c.env.Valid() && Accepted(r, c)
    requires !AfterCall(r, send, create, c).dead
    ensures var after, status := AfterCall(r, send, create, c), StatusOf(r, c.ignoreNext, c.env);
            && after.next.At? && after.next.ms >= c.env.end + LeastWait(after, send, create, status)
            && (status == SendFailed ==> after.sends == r.sends + 1)
            && (status == CreateFailed ==> after.creates == r.creates + 1)
  {
    if StatusOf(r, c.ignoreNext, c.env) != Ok {
      FailureSchedulesWithinBand(r, send, create, c);
    }
  }

  /** Between an accepted call and the next one accepted at its due time, in every run: after a message
      was sent, at least the minimum wait of the client passes; after a failed send at least that
      and half the exponential delay for the failures so far; after a failed creation of a
      client half the delay for these. */
  lemma CallsAreSpaced(first: Retry, send: BackOffParameters, create: BackOffParameters, calls: seq<Call>,
                       i: nat, j: nat)
    requires Inv(first, send, create) && send.Valid() && create.Valid() && i < j < |calls| && calls[i].env.Valid()
    requires Accepted(Run(first, send, create, calls, i), calls[i])
    requires NoneAccepted(first, send, create, calls, i + 1, j)
    requires Accepted(Run(first, send, create, calls, j), calls[j]) && !calls[j].ignoreNext
    ensures var r, after := Run(first, send, create, calls, i), Run(first, send, create, calls, i + 1);
            var status := StatusOf(r, calls[i].ignoreNext, calls[i].env);
            && calls[j].env.start >= calls[i].env.end + LeastWait(after, send, create, status)
            && (status == SendFailed ==> after.sends == r.sends + 1)
            && (status == CreateFailed ==> after.creates == r.creates + 1)
  {
    var r := Run(first, send, create, calls, i);
    NothingChanges(first, send, create, calls, i + 1, j);
    RunKeepsInv(first, send, create, calls, i);
    GateIff(first, send, create, calls, j, calls[j]);
    NextUpload(r, send, create, calls[i]);
  }

  /** A message sent takes the failed sends back, and by the client that sent it the next one is due
      after its minimum wait; one created for it also takes back the failed creations. */
  lemma SuccessStartsOver(r: Retry, send: BackOffParameters, create: BackOffParameters, c: Call)
    requires StatusOf(r, c.ignoreNext, c.env) == Ok
    ensures var after := AfterCall(r, send, create, c);
            && after.hasClient && !after.dead && after.sends == 0 && after.next == At(c.env.end + after.minWait)
            && if r.hasClient && !c.env.clientDead then after.minWait == r.minWait && after.creates == r.creates
               else c.env.creation == Created(after.minWait) && after.creates == 0
  {
  }

  // ---------- The exponential delay ----------

  /** It is the base delay at first, and from then on grows by the base, never beyond the cap. */
  lemma DelayGrows(p: BackOffParameters, attempts: nat)
    requires p.Valid() && attempts >= 1
    ensures ExponentialDelay(p, 1) == Min(p.cap, p.baseDelay)
    ensures ExponentialDelay(p, attempts) < p.cap || p.base >= 1.0 ==>
              ExponentialDelay(p, attempts + 1) == Min(p.cap, p.base * ExponentialDelay(p, attempts))
  {
    var x, y := Power(p.base, attempts - 1), p.baseDelay * Power(p.base, attempts - 1);
    assert Power(p.base, 0) == 1.0 && Power(p.base, attempts) == x * p.base;
    assert p.baseDelay * (x * p.base) == p.base * y;
    if y >= p.cap && p.base >= 1.0 {
      assert (p.base - 1.0) * p.cap >= 0.0;
      assert p.base * (y - p.cap) >= 0.0;
    }
  }

  /** Every delay from half the exponential one up to, but not including, the whole can be drawn. */
  lemma JitterReaches(p: BackOffParameters, attempts: nat, delay: real) returns (draw: real)
    requires 1 <= attempts < p.maxAttempts
    requires var e := ExponentialDelay(p, attempts); e > 0.0 && e / 2.0 <= delay < e
    ensures 0.0 <= draw < 1.0 && CalculateBackoff(p, attempts, draw) == At(delay)
  {
    var half := ExponentialDelay(p, attempts) / 2.0;
    draw := (delay - half) / half;
    assert draw * half == delay - half;
  }

  /** There is no delay at all exactly when the attempts are used up. */
  lemma NoDelayLeftIff(p: BackOffParameters, attempts: nat, draw: real)
    requires attempts >= 1
    ensures CalculateBackoff(p, attempts, draw) == InfiniteFuture <==> p.maxAttempts - attempts <= 0
  {
  }

  // ---------- The client ----------

  /** After a failed send that is not the last one, the client is kept exactly if it did not die over
      it; it is the one held before or, had that died, the one just created. */
  lemma FailedSendKeepsClient(r: Retry, send: BackOffParameters, create: BackOffParameters, c: Call)
    requires StatusOf(r, c.ignoreNext, c.env) == SendFailed && !AfterCall(r, send, create, c).dead
    ensures var after := AfterCall(r, send, create, c);
            && (after.hasClient <==> !c.env.diedSending)
            && if r.hasClient && !c.env.clientDead then after.minWait == r.minWait && after.creates == r.creates
               else c.env.creation == Created(after.minWait) && after.creates == 0
  {
  }

  /** A client that died over a message is never used again: the next accepted call makes one. */
  lemma DeadClientIsReplaced(r: Retry, send: BackOffParameters, create: BackOffParameters, c: Call, next: Call)
    requires StatusOf(r, c.ignoreNext, c.env) == SendFailed && c.env.diedSending
    requires Accepted(AfterCall(r, send, create, c), next)
    ensures var after := AfterCall(r, send, create, c);
            StatusOf(after, next.ignoreNext, next.env)
            == if next.env.creation.NoClient? then CreateFailed else if next.env.sent then Ok else SendFailed
  {
  }
}
