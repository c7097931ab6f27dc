/**
 * The test backend's fault injection: the backend record, its failure
 * mode, the control endpoint that switches faults on and off, the health
 * verdict, the decision to fail a request, and the response delay.
 * Durations are integer nanoseconds; the random draws `rand.Float64()`
 * and `rand.Int63n(n)` are parameters (`draw` in [0, 1), and `pick`, of
 * which `pick % n` is taken).
 */
module FaultInjection {
  import opened Options

  const Millisecond: int := 1_000_000
  const Second: int := 1_000 * Millisecond

  /** The faults a control request can switch on; all false and zero is the zero value. */
  datatype FailureMode = FailureMode(
    healthCheckFails: bool,
    requestsFail: bool,
    partialFailure: real,
    slowResponses: bool,
    healthCheckDelay: int)

  const NoFaults: FailureMode := FailureMode(false, false, 0.0, false, 0)

  /** The backend's state; `failureMode` is None until the first control request. */
  datatype Backend = Backend(
    port: int,
    kind: string,
    baseDelay: int,
    maxDelay: int,
    payloadSize: int,
    errorRate: real,
    requestCount: int,
    startTime: int,
    hostname: string,
    failureMode: Option<FailureMode>,
    isHealthy: bool)

  /** A new backend is healthy, has no failure mode and has served nothing. */
  function NewBackend(port: int, kind: string, baseDelay: int, maxDelay: int, payloadSize: int,
                      errorRate: real, hostname: string, now: int): (b: Backend)
    ensures b.isHealthy && b.failureMode.None? && b.requestCount == 0
    ensures b.port == port && b.kind == kind && b.hostname == hostname && b.startTime == now
    ensures b.baseDelay == baseDelay && b.maxDelay == maxDelay
    ensures b.payloadSize == payloadSize && b.errorRate == errorRate
  {
    Backend(port, kind, baseDelay, maxDelay, payloadSize, errorRate, 0, now, hostname, None, true)
  }

  /** Logging a request counts it, and changes nothing else. */
  function LogRequest(b: Backend): (r: Backend)
    ensures r.requestCount == b.requestCount + 1
    ensures r.(requestCount := b.requestCount) == b
  {
    b.(requestCount := b.requestCount + 1)
  }

  // -------------------------------------------------------- fail decision

  /** The configured error rate: fail when the draw falls below it. */
  predicate ShouldFail(b: Backend, draw: real)
  {
    draw < b.errorRate
  }

  /** A rate of 0 or less never fails, and a rate of 1 or more always fails, for a draw in [0, 1). */
  lemma ErrorRateExtremes(b: Backend, draw: real)
    requires 0.0 <= draw < 1.0
    ensures b.errorRate <= 0.0 ==> !ShouldFail(b, draw)
    ensures b.errorRate >= 1.0 ==> ShouldFail(b, draw)
  {
  }

  /**
   * Whether a request to `/` fails: without a failure mode, or with
   * requests not set to fail, the configured rate decides; with requests
   * set to fail, a positive partial rate decides, and otherwise every
   * request fails.
   */
  function ShouldFailRequest(b: Backend, draw: real): (fail: bool)
    ensures b.failureMode.None? || !b.failureMode.value.requestsFail ==> (fail <==> ShouldFail(b, draw))
    ensures b.failureMode.Some? && b.failureMode.value.requestsFail ==>
      (fail <==> b.failureMode.value.partialFailure <= 0.0 || draw < b.failureMode.value.partialFailure)
  {
    match b.failureMode
    case None => ShouldFail(b, draw)
    case Some(fm) =>
      if fm.requestsFail then
        if fm.partialFailure > 0.0 then draw < fm.partialFailure else true
      else ShouldFail(b, draw)
  }

  // ---------------------------------------------------------------- delay

  /** A delay, or the panic of `rand.Int63n` on a bound that is not positive. */
  datatype Delay = Delayed(duration: int) | Panic

  /**
   * `GetDelay` as written: the base delay when no maximum is set, else the
   * base plus a random amount below `maxDelay - baseDelay`, which panics
   * unless the maximum exceeds the base.
   */
  function GetDelayAsWritten(b: Backend, pick: nat): (d: Delay)
    ensures b.maxDelay == 0 ==> d == Delayed(b.baseDelay)
    ensures b.maxDelay != 0 ==> (d.Panic? <==> b.maxDelay <= b.baseDelay)
    ensures d.Delayed? && b.maxDelay != 0 ==> b.baseDelay <= d.duration < b.maxDelay
  {
    if b.maxDelay == 0 then Delayed(b.baseDelay)
    else
      var diff := b.maxDelay - b.baseDelay;
      if diff <= 0 then Panic else Delayed(b.baseDelay + pick % diff)
  }

  /** The delay with a maximum that does not exceed the base read as "no spread": never panics. */
  function GetDelay(b: Backend, pick: nat): (d: int)
    ensures b.maxDelay <= b.baseDelay ==> d == b.baseDelay
    ensures b.maxDelay > b.baseDelay ==> b.baseDelay <= d < b.maxDelay
    ensures GetDelayAsWritten(b, pick).Delayed? ==> d == GetDelayAsWritten(b, pick).duration
  {
    if b.maxDelay == 0 || b.maxDelay <= b.baseDelay then b.baseDelay
    else b.baseDelay + pick % (b.maxDelay - b.baseDelay)
  }

  // ------------------------------------------------------------ handlers

  /** The status `/health` answers with: 503 when health checks are set to fail or the backend is marked unhealthy. */
  function HealthVerdict(b: Backend): (status: int)
    ensures status == 503 <==> (b.failureMode.Some? && b.failureMode.value.healthCheckFails) || !b.isHealthy
    ensures status == 200 || status == 503
  {
    if (b.failureMode.Some? && b.failureMode.value.healthCheckFails) || !b.isHealthy then 503 else 200
  }

  /** The pause before `/health` answers: the failure mode's health delay when positive. */
  function HealthPause(b: Backend): (pause: int)
    ensures pause >= 0
    ensures pause > 0 <==> b.failureMode.Some? && b.failureMode.value.healthCheckDelay > 0
  {
    if b.failureMode.Some? && b.failureMode.value.healthCheckDelay > 0 then b.failureMode.value.healthCheckDelay else 0
  }

  /** `/health`: pause, answer with the verdict, and count the request either way. */
  function HandleHealth(b: Backend): (r: (Backend, int))
    ensures r.0 == LogRequest(b)
    ensures r.1 == HealthVerdict(b)
  {
    (LogRequest(b), HealthVerdict(b))
  }

  /** Which delay `HandleRoot` uses: the source's, or the one that does not panic. */
  datatype Variant = AsWritten | Corrected

  /** What `/` answers: the 500 of an injected failure, a reply after some sleep, or a panic. */
  datatype RootReply = Unavailable | Hello(sleep: int, requestId: int) | Panicked

  /**
   * `/`: an injected failure answers 500 and is counted; otherwise the
   * handler sleeps for the delay (when positive) and two more seconds in
   * slow mode, then answers with the request's number and counts it.
   */
  function HandleRoot(b: Backend, draw: real, pick: nat, v: Variant): (r: (Backend, RootReply))
    ensures r.1 == Unavailable <==> ShouldFailRequest(b, draw)
    ensures r.1.Panicked? <==> v.AsWritten? && !ShouldFailRequest(b, draw) && GetDelayAsWritten(b, pick).Panic?
    ensures r.1.Panicked? ==> r.0 == b
    ensures !r.1.Panicked? ==> r.0 == LogRequest(b)
    ensures r.1.Hello? ==> r.1.requestId == r.0.requestCount && r.1.sleep >= 0
    ensures r.1.Hello? && b.failureMode.Some? && b.failureMode.value.slowResponses ==> r.1.sleep >= 2 * Second
  {
    if ShouldFailRequest(b, draw) then (LogRequest(b), Unavailable)
    else
      var delay :=
        if v.Corrected? then Delayed(GetDelay(b, pick)) else GetDelayAsWritten(b, pick);
      match delay
      case Panic => (b, Panicked)
      case Delayed(d) =>
        var slow := if b.failureMode.Some? && b.failureMode.value.slowResponses then 2 * Second else 0;
        (LogRequest(b), Hello((if d > 0 then d else 0) + slow, b.requestCount + 1))
  }

  // -------------------------------------------------------- control requests

  /** The actions `/control` knows. */
  datatype Action = FailHealth | FailRequests | Slow | Recover | UnknownAction

  function ActionOf(name: string): (a: Action)
  {
    if name == "fail_health" then FailHealth
    else if name == "fail_requests" then FailRequests
    else if name == "slow" then Slow
    else if name == "recover" then Recover
    else UnknownAction
  }

  /** A decoded control body: the action, a partial error rate and a health delay in milliseconds. */
  datatype ControlBody = ControlBody(action: string, errorRate: real, healthDelay: int)

  /** A control request: its method, and its body when it decodes as JSON. */
  datatype ControlRequest = ControlRequest(verb: string, body: Option<ControlBody>)

  datatype ControlReply = NotAllowed | InvalidJson | Unrecognised | Applied(action: string)

  /** The HTTP status of each control reply. */
  function ControlStatus(r: ControlReply): (code: int)
    ensures code == 200 <==> r.Applied?
    ensures code == 400 <==> r.InvalidJson? || r.Unrecognised?
  {
    match r
    case NotAllowed => 405
    case InvalidJson => 400
    case Unrecognised => 400
    case Applied(_) => 200
  }

  /** One action on an allocated failure mode. */
  function Act(b: Backend, fm: FailureMode, body: ControlBody): (r: (Backend, ControlReply))
  {
    match ActionOf(body.action)
    case FailHealth => (b.(failureMode := Some(fm.(healthCheckFails := true)), isHealthy := false), Applied(body.action))
    case FailRequests =>
      var rate := if body.errorRate > 0.0 then body.errorRate else 1.0;
      (b.(failureMode := Some(fm.(requestsFail := true, partialFailure := rate))), Applied(body.action))
    case Slow =>
      var delay := if body.healthDelay > 0 then body.healthDelay * Millisecond else fm.healthCheckDelay;
      (b.(failureMode := Some(fm.(slowResponses := true, healthCheckDelay := delay))), Applied(body.action))
    case Recover => (b.(failureMode := Some(NoFaults), isHealthy := true), Applied(body.action))
    case UnknownAction => (b.(failureMode := Some(fm)), Unrecognised)
  }

  /**
   * `/control`: only POST, only a decodable body; the failure mode is
   * allocated before the action is looked at, so even an unknown action
   * leaves one behind.
   */
  function HandleControl(b: Backend, req: ControlRequest): (r: (Backend, ControlReply))
    ensures req.verb != "POST" ==> r == (b, NotAllowed)
    ensures req.verb == "POST" && req.body.None? ==> r == (b, InvalidJson)
    ensures r.1.Applied? || r.1.Unrecognised? ==> r.0.failureMode.Some?
    ensures r.0.(failureMode := b.failureMode, isHealthy := b.isHealthy) == b
    ensures r.0.isHealthy != b.isHealthy ==> r.1.Applied?
  {
    if req.verb != "POST" then (b, NotAllowed)
    else match req.body
      case None => (b, InvalidJson)
      case Some(body) =>
        var fm := if b.failureMode.Some? then b.failureMode.value else NoFaults;
        Act(b, fm, body)
  }

  /** The failure mode a control request finds: the current one, or the zero value it allocates. */
  function ModeBefore(b: Backend): FailureMode
  {
    if b.failureMode.Some? then b.failureMode.value else NoFaults
  }

  /** A POST with a decoded body. */
  predicate Accepted(req: ControlRequest)
  {
    req.verb == "POST" && req.body.Some?
  }

  /** An unknown action answers 400 but leaves the failure mode allocated, and changes nothing else. */
  lemma UnknownActionAllocates(b: Backend, req: ControlRequest)
    requires Accepted(req) && ActionOf(req.body.value.action) == UnknownAction
    ensures HandleControl(b, req) == (b.(failureMode := Some(ModeBefore(b))), Unrecognised)
    ensures ControlStatus(HandleControl(b, req).1) == 400
  {
  }

  /** `fail_health` makes health checks fail, sets only the two health fields, and answers 200. */
  lemma FailHealthEffect(b: Backend, req: ControlRequest)
    requires Accepted(req) && ActionOf(req.body.value.action) == FailHealth
    ensures HandleControl(b, req).0 == b.(failureMode := Some(ModeBefore(b).(healthCheckFails := true)), isHealthy := false)
    ensures HealthVerdict(HandleControl(b, req).0) == 503
    ensures ControlStatus(HandleControl(b, req).1) == 200
  {
  }

  /**
   * `fail_requests` sets the request fault with the given rate, or 1.0
   * when none is given, so requests then fail with exactly that rate; the
   * health verdict is not affected.
   */
  lemma FailRequestsEffect(b: Backend, req: ControlRequest, draw: real)
    requires Accepted(req) && ActionOf(req.body.value.action) == FailRequests
    requires 0.0 <= draw < 1.0
    ensures var rate := req.body.value.errorRate;
      HandleControl(b, req).0 == b.(failureMode := Some(ModeBefore(b).(requestsFail := true, partialFailure := if rate > 0.0 then rate else 1.0)))
    ensures var rate := req.body.value.errorRate;
      ShouldFailRequest(HandleControl(b, req).0, draw) <==> rate <= 0.0 || draw < rate
    ensures HealthVerdict(HandleControl(b, req).0) == HealthVerdict(b)
  {
  }

  /** `slow` sets slow responses and replaces the health delay only with a positive one. */
  lemma SlowEffect(b: Backend, req: ControlRequest)
    requires Accepted(req) && ActionOf(req.body.value.action) == Slow
    ensures HandleControl(b, req).0.failureMode.Some?
    ensures HandleControl(b, req).0.failureMode.value.slowResponses
    ensures req.body.value.healthDelay > 0 ==>
      HandleControl(b, req).0.failureMode.value.healthCheckDelay == req.body.value.healthDelay * Millisecond
    ensures req.body.value.healthDelay <= 0 ==>
      HandleControl(b, req).0.failureMode.value.healthCheckDelay == ModeBefore(b).healthCheckDelay
    ensures HealthVerdict(HandleControl(b, req).0) == HealthVerdict(b)
    ensures HandleControl(b, req).0.failureMode.value.(slowResponses := ModeBefore(b).slowResponses, healthCheckDelay := ModeBefore(b).healthCheckDelay) == ModeBefore(b)
  {
  }

  /**
   * `recover` undoes every fault: health checks pass, requests fail only
   * at the configured rate again, and nothing is slow.
   */
  lemma RecoverEffect(b: Backend, req: ControlRequest, draw: real)
    requires Accepted(req) && ActionOf(req.body.value.action) == Recover
    ensures HandleControl(b, req).0 == b.(failureMode := Some(NoFaults), isHealthy := true)
    ensures HealthVerdict(HandleControl(b, req).0) == 200
    ensures ShouldFailRequest(HandleControl(b, req).0, draw) == ShouldFail(b, draw)
    ensures HealthPause(HandleControl(b, req).0) == 0
  {
  }

  /** Repeating a control request changes nothing more: every action is idempotent. */
  lemma ControlIdempotent(b: Backend, req: ControlRequest)
    ensures HandleControl(HandleControl(b, req).0, req) == HandleControl(b, req)
  {
  }

  /** Health and request faults are independent: switching them on in either order gives the same backend. */
  lemma FaultsCommute(b: Backend, health: ControlRequest, requests: ControlRequest)
    requires Accepted(health) && ActionOf(health.body.value.action) == FailHealth
    requires Accepted(requests) && ActionOf(requests.body.value.action) == FailRequests
    ensures HandleControl(HandleControl(b, health).0, requests).0 == HandleControl(HandleControl(b, requests).0, health).0
  {
  }
}
