/**
 * The Go balancer's backend record: liveness flag, in-flight connection
 * count and a boolean circuit breaker driven by consecutive errors.
 * The circuit closes lazily: only a query made after the cool-down has
 * passed since the last error resets it, so every query that can reset
 * the circuit takes the current clock reading `now` (nanoseconds) and
 * returns the possibly updated backend.
 */
module CircuitBreaker {
  import opened Options

  const Second: int := 1_000_000_000
  /** Threshold and cool-down that every new backend starts with. */
  const DefaultMaxConsecutiveErrors: int := 10
  const DefaultCircuitTimeout: int := 30 * Second

  /** `id` stands for the identity of the Go `*Backend` pointer. */
  datatype Backend = Backend(
    id: nat,
    url: string,
    weight: int,
    alive: bool,
    connections: int,
    consecutiveErrors: int,
    lastErrorTime: int,
    circuitOpen: bool,
    maxConsecutiveErrors: int,
    circuitTimeout: int)

  /** The state of a freshly constructed backend, whatever its thresholds. */
  predicate Pristine(b: Backend)
  {
    b.alive && !b.circuitOpen && b.consecutiveErrors == 0 && b.connections == 0
  }

  /** `b` differs from `a` at most in the circuit-breaker fields. */
  predicate SameExceptCircuit(a: Backend, b: Backend)
  {
    b == a.(consecutiveErrors := b.consecutiveErrors, lastErrorTime := b.lastErrorTime, circuitOpen := b.circuitOpen)
  }

  /**
   * Creating a backend; `urlValid` is the outcome of parsing the URL,
   * whose failure makes the constructor return an error.
   */
  function NewBackend(id: nat, url: string, weight: int, urlValid: bool): (r: Option<Backend>)
    ensures r.Some? <==> urlValid
    ensures r.Some? ==> Pristine(r.value) && r.value.id == id && r.value.url == url && r.value.weight == weight
    ensures r.Some? ==> r.value.maxConsecutiveErrors == 10 && r.value.circuitTimeout == 30 * Second
  {
    if !urlValid then None
    else Some(Backend(id, url, weight, true, 0, 0, 0, false, DefaultMaxConsecutiveErrors, DefaultCircuitTimeout))
  }

  /** Same as `NewBackend` except for the two circuit settings. */
  function NewBackendWithCircuitConfig(id: nat, url: string, weight: int, urlValid: bool, maxErrors: int, timeout: int): (r: Option<Backend>)
    ensures r.Some? <==> urlValid
    ensures r.Some? ==> Pristine(r.value) && r.value.maxConsecutiveErrors == maxErrors && r.value.circuitTimeout == timeout
    ensures r.Some? ==> r.value == NewBackend(id, url, weight, urlValid).value.(maxConsecutiveErrors := maxErrors, circuitTimeout := timeout)
  {
    match NewBackend(id, url, weight, urlValid)
    case None => None
    case Some(b) => Some(b.(maxConsecutiveErrors := maxErrors, circuitTimeout := timeout))
  }

  function SetAlive(b: Backend, alive: bool): (r: Backend)
    ensures r.alive == alive && r == b.(alive := alive)
  {
    b.(alive := alive)
  }

  function IsAlive(b: Backend): bool
  {
    b.alive
  }

  /** The circuit is open and its cool-down has not run out at `now`. */
  predicate OpenAt(b: Backend, now: int)
  {
    b.circuitOpen && now - b.lastErrorTime <= b.circuitTimeout
  }

  /** The circuit is open but strictly more than the cool-down has passed. */
  predicate Expired(b: Backend, now: int)
  {
    b.circuitOpen && now - b.lastErrorTime > b.circuitTimeout
  }

  /**
   * Querying the circuit at `now`: an expired circuit is closed and its
   * error count zeroed on the spot; otherwise nothing changes.
   */
  function IsCircuitOpen(b: Backend, now: int): (r: (bool, Backend))
    ensures r.0 <==> OpenAt(b, now)
    ensures Expired(b, now) ==> r.1 == b.(circuitOpen := false, consecutiveErrors := 0)
    ensures !Expired(b, now) ==> r.1 == b
    ensures !r.1.circuitOpen <==> !OpenAt(b, now)
    ensures SameExceptCircuit(b, r.1)
  {
    if b.circuitOpen then
      if now - b.lastErrorTime > b.circuitTimeout then (false, b.(circuitOpen := false, consecutiveErrors := 0))
      else (true, b)
    else (false, b)
  }

  /** The state change a circuit query makes. */
  function Settle(b: Backend, now: int): Backend
  {
    IsCircuitOpen(b, now).1
  }

  /** Alive and not held out by an unexpired open circuit. */
  predicate AvailableAt(b: Backend, now: int)
  {
    b.alive && !OpenAt(b, now)
  }

  /**
   * Go's `IsAlive() && !IsCircuitOpen()`: the circuit of a dead backend is
   * not queried, so it is not reset either.
   */
  function IsAvailable(b: Backend, now: int): (r: (bool, Backend))
    ensures r.0 <==> b.alive && !OpenAt(b, now)
    ensures !b.alive ==> r.1 == b
    ensures b.alive ==> r.1 == Settle(b, now)
    ensures SameExceptCircuit(b, r.1)
  {
    if !IsAlive(b) then (false, b)
    else
      var (open, b') := IsCircuitOpen(b, now);
      (!open, b')
  }

  function RecordSuccess(b: Backend): (r: Backend)
    ensures r.consecutiveErrors == 0 && !r.circuitOpen
    ensures r.lastErrorTime == b.lastErrorTime
    ensures SameExceptCircuit(b, r)
  {
    b.(consecutiveErrors := 0, circuitOpen := false)
  }

  /**
   * One more consecutive error at `now`; the circuit opens once the count
   * reaches the threshold and is never closed here.
   */
  function RecordError(b: Backend, now: int): (r: Backend)
    ensures r.consecutiveErrors == b.consecutiveErrors + 1
    ensures r.lastErrorTime == now
    ensures b.circuitOpen ==> r.circuitOpen
    ensures r.consecutiveErrors >= b.maxConsecutiveErrors ==> r.circuitOpen
    ensures r.circuitOpen ==> b.circuitOpen || r.consecutiveErrors >= b.maxConsecutiveErrors
    ensures SameExceptCircuit(b, r)
  {
    var errors := b.consecutiveErrors + 1;
    b.(consecutiveErrors := errors, lastErrorTime := now, circuitOpen := b.circuitOpen || errors >= b.maxConsecutiveErrors)
  }

  function AddConnection(b: Backend): (r: Backend)
    ensures r.connections == b.connections + 1
    ensures r.(connections := b.connections) == b
  {
    b.(connections := b.connections + 1)
  }

  function RemoveConnection(b: Backend): (r: Backend)
    ensures r.connections == b.connections - 1
    ensures r.(connections := b.connections) == b
  {
    b.(connections := b.connections - 1)
  }

  /** Errors recorded at the successive clock readings in `times`. */
  function RecordErrors(b: Backend, times: seq<int>): Backend
    decreases |times|
  {
    if |times| == 0 then b else RecordErrors(RecordError(b, times[0]), times[1..])
  }

  /** A bracketed add/remove pair leaves the backend as it was. */
  lemma ConnectionBracket(b: Backend)
    ensures RemoveConnection(AddConnection(b)) == b
    ensures AddConnection(RemoveConnection(b)) == b
  {
  }

  /**
   * From a closed circuit, `k >= 1` consecutive errors raise the count by
   * `k`, stamp the last time, and leave the circuit open exactly when the
   * count has reached the threshold.
   */
  lemma {:induction false} ErrorsAccumulate(b: Backend, times: seq<int>)
    requires !b.circuitOpen
    requires |times| >= 1
    ensures RecordErrors(b, times).consecutiveErrors == b.consecutiveErrors + |times|
    ensures RecordErrors(b, times).lastErrorTime == times[|times| - 1]
    ensures RecordErrors(b, times).circuitOpen <==> b.consecutiveErrors + |times| >= b.maxConsecutiveErrors
    ensures SameExceptCircuit(b, RecordErrors(b, times))
    decreases |times|
  {
    var b1 := RecordError(b, times[0]);
    if |times| == 1 {
      assert RecordErrors(b1, times[1..]) == b1;
    } else if b1.circuitOpen {
      OpenStaysOpen(b1, times[1..]);
    } else {
      ErrorsAccumulate(b1, times[1..]);
    }
  }

  /** Once open, further errors keep the circuit open and keep counting. */
  lemma {:induction false} OpenStaysOpen(b: Backend, times: seq<int>)
    requires b.circuitOpen
    requires |times| >= 1
    ensures RecordErrors(b, times).circuitOpen
    ensures RecordErrors(b, times).consecutiveErrors == b.consecutiveErrors + |times|
    ensures RecordErrors(b, times).lastErrorTime == times[|times| - 1]
    ensures SameExceptCircuit(b, RecordErrors(b, times))
    decreases |times|
  {
    var b1 := RecordError(b, times[0]);
    if |times| == 1 {
      assert RecordErrors(b1, times[1..]) == b1;
    } else {
      OpenStaysOpen(b1, times[1..]);
    }
  }

  /** With the default threshold, the tenth consecutive error opens the circuit and the ninth does not. */
  lemma TenErrorsOpenCircuit(id: nat, url: string, weight: int, times: seq<int>)
    requires |times| == 10
    ensures RecordErrors(NewBackend(id, url, weight, true).value, times).circuitOpen
    ensures !RecordErrors(NewBackend(id, url, weight, true).value, times[..9]).circuitOpen
  {
    var b := NewBackend(id, url, weight, true).value;
    ErrorsAccumulate(b, times);
    ErrorsAccumulate(b, times[..9]);
  }

  /**
   * An error recorded while the circuit is open restarts the cool-down:
   * until `circuitTimeout` has passed since that error, the circuit
   * reports open and nothing is reset, however old the previous error was.
   */
  lemma ErrorPostponesReset(b: Backend, errorTime: int, now: int)
    requires b.circuitOpen
    requires errorTime <= now <= errorTime + b.circuitTimeout
    ensures IsCircuitOpen(RecordError(b, errorTime), now) == (true, RecordError(b, errorTime))
  {
  }

  /** After a query at `now`, querying again at `now` reports the same answer and changes nothing. */
  lemma SettleIdempotent(b: Backend, now: int)
    ensures IsCircuitOpen(Settle(b, now), now) == (IsCircuitOpen(b, now).0, Settle(b, now))
    ensures AvailableAt(Settle(b, now), now) == AvailableAt(b, now)
  {
  }

  /** A circuit that is closed stays closed as the clock advances until another error is recorded. */
  lemma ClosedStaysClosed(b: Backend, now: int, later: int)
    requires now <= later
    requires !IsCircuitOpen(b, now).0
    ensures !IsCircuitOpen(Settle(b, now), later).0
    ensures Settle(Settle(b, now), later) == Settle(b, now)
  {
  }
}
