/** The uploader's two retry counters (src/nccl_uploader.cc, src/nccl_uploader.h). Clock
    readings, the random draw and what the client answers are parameters of each call. */
module UploaderRetry {
  import opened Arithmetic
  import opened RealPowers

  /** Milliseconds; absl::InfiniteFuture is a value of its own. */
  datatype Time = At(ms: real) | InfiniteFuture

  /** Attempt limits below 1 act like 1: the first failure is the last. */
  datatype BackOffParameters = BackOffParameters(baseDelay: real, base: real, cap: real, maxAttempts: int) {
    predicate Valid() {
      baseDelay >= 0.0 && base >= 0.0 && cap >= 0.0
    }

    function Limit(): (n: nat)
      ensures n >= 1 && n >= maxAttempts && (n == 1 || n == maxAttempts)
    {
      if maxAttempts < 1 then 1 else maxAttempts
    }
  }

  datatype Creation = NoClient | Created(minWait: real)

  datatype Env = Env(
    start: real,       // the clock at the gate
    clientDead: bool,  // what the held client answers to IsDead
    creation: Creation,
    sent: bool,
    diedSending: bool,
    end: real,         // the clock when the outcome is known
    draw: real)        // of the unit interval
  {
    predicate Valid() { 0.0 <= draw < 1.0 }
  }

  datatype Status = Ok | Dead | TooEarly | SendFailed | CreateFailed

  datatype Retry = Retry(hasClient: bool, minWait: real, creates: nat, sends: nat, dead: bool, next: Time)

  function Min(a: real, b: real): real { if a <= b then a else b }

  function Max(a: real, b: real): real { if a >= b then a else b }

  function ExponentialDelay(p: BackOffParameters, attempts: nat): real
    requires attempts >= 1
  {
    Min(p.cap, p.baseDelay * Power(p.base, attempts - 1))
  }

  function EqualJitter(delay: real, draw: real): real {
    delay / 2.0 + draw * (delay / 2.0)
  }

  /** CalculateBackoff with the built-in calculator: half of the delay is fixed, half drawn. */
  function CalculateBackoff(p: BackOffParameters, attempts: nat, draw: real): Time
    requires attempts >= 1
  {
    if attempts >= p.maxAttempts then InfiniteFuture
    else At(EqualJitter(ExponentialDelay(p, attempts), draw))
  }

  function Later(now: real, atLeast: real, delay: Time): Time {
    if delay.InfiniteFuture? then InfiniteFuture else At(now + Max(atLeast, delay.ms))
  }

  function GivenUp(r: Retry): Retry {
    r.(hasClient := false, dead := true, next := InfiniteFuture)
  }

  function AfterSend(r: Retry, p: BackOffParameters, e: Env): Retry {
    if e.sent then r.(sends := 0, next := At(e.end + r.minWait))
    else if r.sends + 1 >= p.maxAttempts then GivenUp(r.(sends := r.sends + 1))
    else r.(hasClient := r.hasClient && !e.diedSending, sends := r.sends + 1,
            next := Later(e.end, r.minWait, CalculateBackoff(p, r.sends + 1, e.draw)))
  }

  function AfterFailedCreation(r: Retry, p: BackOffParameters, e: Env): Retry {
    if r.creates + 1 >= p.maxAttempts then GivenUp(r.(creates := r.creates + 1))
    else
      var delay := CalculateBackoff(p, r.creates + 1, e.draw);
      r.(creates := r.creates + 1, next := if delay.InfiniteFuture? then InfiniteFuture else At(e.end + delay.ms))
  }

  predicate Before(now: real, t: Time) {
    t.InfiniteFuture? || now < t.ms
  }

  function StatusOf(r: Retry, ignoreNext: bool, e: Env): Status {
    if r.dead then Dead
    else if !ignoreNext && Before(e.start, r.next) then TooEarly
    else if !(r.hasClient && !e.clientDead) && e.creation.NoClient? then CreateFailed
    else if e.sent then Ok
    else SendFailed
  }

  function AfterUpload(r: Retry, send: BackOffParameters, create: BackOffParameters, ignoreNext: bool, e: Env): Retry {
    if r.dead || (!ignoreNext && Before(e.start, r.next)) then r
    else if r.hasClient && !e.clientDead then AfterSend(r, send, e)
    else
      match e.creation
      case NoClient => AfterFailedCreation(r, create, e)
      case Created(minWait) => AfterSend(r.(hasClient := true, minWait := minWait, creates := 0), send, e)
  }

  class NcclUploader {
    const send: BackOffParameters
    const create: BackOffParameters
    var hasClient: bool
    var minWait: real
    var attemptsCreateClient: nat
    var attemptsSendMessage: nat
    var isDead: bool
    var nextExecuteTime: Time

    constructor (send: BackOffParameters, create: BackOffParameters, now: real)
      ensures this.send == send && this.create == create
      ensures View() == Initial(View().minWait, now)
    {
      this.send, this.create := send, create;
      hasClient, attemptsCreateClient, attemptsSendMessage, isDead := false, 0, 0, false;
      nextExecuteTime := At(now);
    }

    function View(): Retry
      reads this
    {
      Retry(hasClient, minWait, attemptsCreateClient, attemptsSendMessage, isDead, nextExecuteTime)
    }

    method Upload(ignoreNextExecuteTime: bool, e: Env) returns (status: Status)
      modifies this
      ensures View() == AfterUpload(old(View()), send, create, ignoreNextExecuteTime, e)
      ensures status == StatusOf(old(View()), ignoreNextExecuteTime, e)
    {
      if isDead {
        return Dead;
      }
      if !ignoreNextExecuteTime && Before(e.start, nextExecuteTime) {
        return TooEarly;
      }
      if hasClient && !e.clientDead {
        status := UploadMessage(e);
      } else {
        status := CreateClientAndUploadMessage(e);
      }
    }

    method UploadMessage(e: Env) returns (status: Status)
      modifies this
      ensures View() == AfterSend(old(View()), send, e)
      ensures status == if e.sent then Ok else SendFailed
    {
      if e.sent {
        attemptsSendMessage := 0;
        nextExecuteTime := At(e.end + minWait);
        return Ok;
      }
      if e.diedSending {
        hasClient := false;
      }
      attemptsSendMessage := attemptsSendMessage + 1;
      if attemptsSendMessage >= send.maxAttempts {
        GiveUpRetry();
      } else {
        nextExecuteTime := Later(e.end, minWait, CalculateBackoff(send, attemptsSendMessage, e.draw));
      }
      status := SendFailed;
    }

    method CreateClientAndUploadMessage(e: Env) returns (status: Status)
      modifies this
      ensures View() == match e.creation
                        case NoClient => AfterFailedCreation(old(View()), create, e)
                        case Created(w) => AfterSend(old(View()).(hasClient := true, minWait := w, creates := 0),
                            send, e)
      ensures status == if e.creation.NoClient? then CreateFailed else if e.sent then Ok else SendFailed
    {
      if e.creation.Created? {
        hasClient, minWait, attemptsCreateClient := true, e.creation.minWait, 0;
        status := UploadMessage(e);
        return;
      }
      attemptsCreateClient := attemptsCreateClient + 1;
      if attemptsCreateClient >= create.maxAttempts {
        GiveUpRetry();
      } else {
        var delay := CalculateBackoff(create, attemptsCreateClient, e.draw);
        nextExecuteTime := if delay.InfiniteFuture? then InfiniteFuture else At(e.end + delay.ms);
      }
      status := CreateFailed;
    }

    method GiveUpRetry()
      modifies this`nextExecuteTime, this`hasClient, this`isDead
      ensures nextExecuteTime == InfiniteFuture && !hasClient && isDead
    {
      nextExecuteTime := InfiniteFuture;
      hasClient := false;
      isDead := true;
    }
  }

  function Initial(minWait: real, now: real): Retry {
    Retry(false, minWait, 0, 0, false, At(now))
  }

  // ---------- Runs of calls ----------

  datatype Call = Call(ignoreNext: bool, env: Env)

  function AfterCall(r: Retry, send: BackOffParameters, create: BackOffParameters, c: Call): Retry {
    AfterUpload(r, send, create, c.ignoreNext, c.env)
  }

  function Run(r: Retry, send: BackOffParameters, create: BackOffParameters, calls: seq<Call>, n: nat): Retry
    requires n <= |calls|
  {
    if n == 0 then r else AfterCall(Run(r, send, create, calls, n - 1), send, create, calls[n - 1])
  }

  /** The counters stay below their limits for as long as the uploader lives; it is dead
      exactly when there is no next upload time. */
  predicate Inv(r: Retry, send: BackOffParameters, create: BackOffParameters) {
    && (!r.dead ==> r.sends < send.Limit() && r.creates < create.Limit())
    && (r.dead <==> r.next == InfiniteFuture)
    && (r.dead ==> !r.hasClient)
  }

  lemma CallKeepsInv(r: Retry, send: BackOffParameters, create: BackOffParameters, c: Call)
    requires Inv(r, send, create)
    ensures Inv(AfterCall(r, send, create, c), send, create)
  {
  }

  lemma {:induction false} RunKeepsInv(r: Retry, send: BackOffParameters, create: BackOffParameters, calls: seq<Call>,
      n: nat)
    requires Inv(r, send, create) && n <= |calls|
    ensures Inv(Run(r, send, create, calls, n), send, create)
  {
    if n == 0 {
    } else {
      RunKeepsInv(r, send, create, calls, n - 1);
      CallKeepsInv(Run(r, send, create, calls, n - 1), send, create, calls[n - 1]);
    }
  }

  /** Death is final: every later call is rejected and changes nothing. */
  lemma {:induction false} DeathIsAbsorbing(r: Retry, send: BackOffParameters, create: BackOffParameters,
      calls: seq<Call>, n: nat)
    requires Inv(r, send, create) && r.dead && n <= |calls|
    ensures Run(r, send, create, calls, n) == r && r.next == InfiniteFuture
    ensures n < |calls| ==> StatusOf(Run(r, send, create, calls, n), calls[n].ignoreNext, calls[n].env) == Dead
  {
    if n == 0 {
    } else {
      DeathIsAbsorbing(r, send, create, calls, n - 1);
    }
  }

  /** Failures counted so far, a failed creation counting once and a failed send for as many
      creations as may fail. */
  function Measure(r: Retry, create: BackOffParameters): nat {
    ProductNonNegative(r.sends, create.Limit());
    r.sends * create.Limit() + r.creates
  }

  lemma {:induction false} FailureAdvances(r: Retry, send: BackOffParameters, create: BackOffParameters, c: Call)
    requires Inv(r, send, create) && !r.dead
    requires var status := StatusOf(r, c.ignoreNext, c.env); status == SendFailed || status == CreateFailed
    ensures var after := AfterCall(r, send, create, c);
            after.dead || Measure(after, create) > Measure(r, create)
  {
    MulStep(r.sends, r.sends + 1, create.Limit());
  }

  lemma MeasureBounded(r: Retry, send: BackOffParameters, create: BackOffParameters)
    requires Inv(r, send, create) && !r.dead
    ensures Measure(r, create) < send.Limit() * create.Limit()
  {
    MulStep(r.sends, send.Limit(), create.Limit());
  }

  predicate Fails(r: Retry, c: Call) {
    var status := StatusOf(r, c.ignoreNext, c.env);
    status == SendFailed || status == CreateFailed
  }

  /** The first `n` calls were all accepted and none of them sent its message. */
  predicate AllFail(r: Retry, send: BackOffParameters, create: BackOffParameters, calls: seq<Call>, n: nat)
    requires n <= |calls|
  {
    n == 0 || (AllFail(r, send, create, calls, n - 1) && Fails(Run(r, send, create, calls, n - 1), calls[n - 1]))
  }

  lemma {:induction false} FailuresAdvance(r: Retry, send: BackOffParameters, create: BackOffParameters,
      calls: seq<Call>, n: nat)
    requires Inv(r, send, create) && n <= |calls| && AllFail(r, send, create, calls, n)
    ensures var after := Run(r, send, create, calls, n);
            after.dead || n + Measure(r, create) <= Measure(after, create)
  {
    if n == 0 {
    } else {
      var before := Run(r, send, create, calls, n - 1);
      FailuresAdvance(r, send, create, calls, n - 1);
      RunKeepsInv(r, send, create, calls, n - 1);
      FailureAdvances(before, send, create, calls[n - 1]);
    }
  }

  /** Retrying terminates: after max_send * max_create accepted calls in a row without a
      successful send, the uploader is dead. */
  lemma DeadAfterTooManyFailures(r: Retry, send: BackOffParameters, create: BackOffParameters, calls: seq<Call>)
    requires Inv(r, send, create) && AllFail(r, send, create, calls, |calls|)
    requires |calls| >= send.Limit() * create.Limit()
    ensures Run(r, send, create, calls, |calls|).dead
  {
    FailuresAdvance(r, send, create, calls, |calls|);
    RunKeepsInv(r, send, create, calls, |calls|);
    var after := Run(r, send, create, calls, |calls|);
    if !after.dead {
      MeasureBounded(after, send, create);
    }
  }

  // ---------- The bound is reached ----------

  /** Creation fails as often as it may before each send, and every send fails. */
  function WorstCall(r: Retry, create: BackOffParameters): Call {
    var creation := if r.creates + 1 < create.Limit() then NoClient else Created(0.0);
    Call(false, Env(if r.next.At? then r.next.ms else 0.0, true, creation, false, true, 0.0, 0.0))
  }

  function WorstCalls(r: Retry, send: BackOffParameters, create: BackOffParameters, n: nat): (calls: seq<Call>)
    ensures |calls| == n
  {
    if n == 0 then []
    else
      var before := WorstCalls(r, send, create, n - 1);
      before + [WorstCall(Run(r, send, create, before, n - 1), create)]
  }

  lemma {:induction false} RunPrefix(r: Retry, send: BackOffParameters, create: BackOffParameters, a: seq<Call>,
      b: seq<Call>, n: nat)
    requires n <= |a| && n <= |b| && forall k :: 0 <= k < n ==> a[k] == b[k]
    ensures Run(r, send, create, a, n) == Run(r, send, create, b, n)
    ensures AllFail(r, send, create, a, n) == AllFail(r, send, create, b, n)
  {
    if n == 0 {
    } else {
      RunPrefix(r, send, create, a, b, n - 1);
    }
  }

  lemma WorstCallAdvances(r: Retry, send: BackOffParameters, create: BackOffParameters)
    requires Inv(r, send, create) && !r.dead
    ensures Fails(r, WorstCall(r, create))
    ensures var after := AfterCall(r, send, create, WorstCall(r, create));
            if Measure(r, create) + 1 < send.Limit() * create.Limit()
            then !after.dead && Measure(after, create) == Measure(r, create) + 1
            else after.dead
  {
    var c := create.Limit();
    assert (r.sends + 1) * c == r.sends * c + c by { Distribute(r.sends, 0, c); }
    MulStep(r.sends + 1, send.Limit(), c);
    MeasureBounded(r, send, create);
  }

  lemma {:induction false} WorstRun(r: Retry, send: BackOffParameters, create: BackOffParameters, n: nat)
    requires Inv(r, send, create) && !r.dead && r.sends == 0 && r.creates == 0
    requires n <= send.Limit() * create.Limit()
    ensures var calls := WorstCalls(r, send, create, n);
            && AllFail(r, send, create, calls, n)
            && var after := Run(r, send, create, calls, n);
               if n < send.Limit() * create.Limit() then !after.dead && Measure(after, create) == n else after.dead
    decreases n
  {
    var calls := WorstCalls(r, send, create, n);
    if n == 0 {
      MulStep(0, send.Limit(), create.Limit());
    } else {
      var shorter := WorstCalls(r, send, create, n - 1);
      WorstRun(r, send, create, n - 1);
      RunPrefix(r, send, create, calls, shorter, n - 1);
      RunKeepsInv(r, send, create, shorter, n - 1);
      WorstCallAdvances(Run(r, send, create, shorter, n - 1), send, create);
    }
  }

  /** Whatever the two limits, a fresh uploader can survive one call less than their product. */
  lemma {:induction false} BoundIsReached(send: BackOffParameters, create: BackOffParameters, minWait: real,
      now: real) returns (calls: seq<Call>)
    ensures |calls| == send.Limit() * create.Limit() - 1
    ensures AllFail(Initial(minWait, now), send, create, calls, |calls|)
    ensures !Run(Initial(minWait, now), send, create, calls, |calls|).dead
  {
    MulStep(0, send.Limit(), create.Limit());
    calls := WorstCalls(Initial(minWait, now), send, create, send.Limit() * create.Limit() - 1);
    WorstRun(Initial(minWait, now), send, create, |calls|);
  }

  // ---------- The backoff ----------

  predicate JitterOf(delay: real, e: real) {
    e / 2.0 <= delay <= e && (e > 0.0 ==> delay < e)
  }

  predicate InBand(delay: real, p: BackOffParameters, attempts: nat)
    requires attempts >= 1
  {
    var e := ExponentialDelay(p, attempts);
    JitterOf(delay, e) && e <= p.cap
  }

  lemma EqualJitterInBand(e: real, draw: real)
    requires e >= 0.0 && 0.0 <= draw < 1.0
    ensures JitterOf(EqualJitter(e, draw), e)
  {
    var half := e / 2.0;
    Products(draw, half);
    Products(1.0 - draw, half);
    assert (1.0 - draw) * half == half - draw * half;
  }

  lemma JitterInBand(p: BackOffParameters, attempts: nat, draw: real)
    requires p.Valid() && 1 <= attempts < p.maxAttempts && 0.0 <= draw < 1.0
    ensures var t := CalculateBackoff(p, attempts, draw); t.At? && InBand(t.ms, p, attempts)
  {
    PowerNonNegative(p.base, attempts - 1);
    Products(p.baseDelay, Power(p.base, attempts - 1));
    EqualJitterInBand(ExponentialDelay(p, attempts), draw);
  }

  /** A failure that is not the last one puts the next upload within the capped equal-jitter
      band after it, and after a failed send at least the client's minimum wait after it. */
  lemma FailureSchedulesWithinBand(r: Retry, send: BackOffParameters, create: BackOffParameters, c: Call)
    requires Inv(r, send, create) && send.Valid() && create.Valid() && c.env.Valid()
    requires Fails(r, c) && !AfterCall(r, send, create, c).dead
    ensures var after := AfterCall(r, send, create, c);
            && after.next.At?
            && if StatusOf(r, c.ignoreNext, c.env).CreateFailed?
               then after.creates == r.creates + 1 && InBand(after.next.ms - c.env.end, create, after.creates)
               else && after.sends == r.sends + 1
                    && exists delay :: InBand(delay, send, after.sends) && after.next.ms == c.env.end
                        + Max(after.minWait, delay)
  {
    if StatusOf(r, c.ignoreNext, c.env).CreateFailed? {
      JitterInBand(create, r.creates + 1, c.env.draw);
    } else {
      JitterInBand(send, r.sends + 1, c.env.draw);
      var delay := CalculateBackoff(send, r.sends + 1, c.env.draw).ms;
      assert InBand(delay, send, r.sends + 1);
    }
  }

  /** With a base of at least 1 the band never moves back while failures go on. */
  lemma BandGrows(p: BackOffParameters, m: nat, n: nat)
    requires p.Valid() && p.base >= 1.0 && 1 <= m <= n
    ensures ExponentialDelay(p, m) <= ExponentialDelay(p, n) <= p.cap
  {
    PowerGrows(p.base, m - 1, n - 1);
    assert p.baseDelay * (Power(p.base, n - 1) - Power(p.base, m - 1)) >= 0.0;
  }
}
