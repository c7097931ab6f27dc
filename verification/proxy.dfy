/**
 * The Go balancer's request path: the response recorder that feeds
 * status codes into the circuit breaker, the error handler with its
 * bounded retry, and the connection bracket around each proxy attempt.
 * Each attempt's clock reading and outcome (a backend status or a
 * transport error message) come from `world`, indexed by the retry count.
 */
module Proxy {
  import opened Options
  import opened Seqs
  import opened Text
  import opened CircuitBreaker
  import opened Algorithms
  import opened ServerPool

  // ------------------------------------------------------------ small rules

  /** A value stored under the retry key of a request context. */
  datatype ContextValue = IntValue(n: int) | OtherValue

  /** `getRetryFromContext`: the stored int, or 0 when absent or not an int. */
  function RetryFromContext(v: Option<ContextValue>): (retry: int)
    ensures v.Some? && v.value.IntValue? ==> retry == v.value.n
    ensures v.None? || v.value.OtherValue? ==> retry == 0
  {
    match v
    case Some(IntValue(n)) => n
    case _ => 0
  }

  datatype ErrorType = TimeoutError | ConnectionRefused | ConnectionError

  /** Classification of a transport error message by substring, "timeout" first. */
  function ClassifyError(message: string): (t: ErrorType)
    ensures t == TimeoutError <==> Contains(message, "timeout")
    ensures t == ConnectionRefused <==> !Contains(message, "timeout") && Contains(message, "refused")
    ensures t == ConnectionError <==> !Contains(message, "timeout") && !Contains(message, "refused")
  {
    if Search(message, "timeout") then TimeoutError
    else if Search(message, "refused") then ConnectionRefused
    else ConnectionError
  }

  /** How a status code written through the recorder touches its backend. */
  datatype StatusEffect = CountsAsError | CountsAsSuccess | NoEffect

  function EffectOf(status: int): (e: StatusEffect)
    ensures e == CountsAsError <==> 500 <= status < 600
    ensures e == CountsAsSuccess <==> 200 <= status < 400
  {
    if status >= 500 && status < 600 then CountsAsError
    else if status >= 200 && status < 400 then CountsAsSuccess
    else NoEffect
  }

  /** `ResponseRecorder`: the backend it reports to and the last code written. */
  datatype Recorder = Recorder(backendId: nat, statusCode: int)

  /** The recorder's effect on one backend. */
  function RecordStatus(b: Backend, status: int, now: int): (r: Backend)
    ensures 500 <= status < 600 ==> r.consecutiveErrors == b.consecutiveErrors + 1 && r.lastErrorTime == now
    ensures 200 <= status < 400 ==> r.consecutiveErrors == 0 && !r.circuitOpen
    ensures !(500 <= status < 600) && !(200 <= status < 400) ==> r == b
    ensures SameExceptCircuit(b, r)
  {
    match EffectOf(status)
    case CountsAsError => RecordError(b, now)
    case CountsAsSuccess => RecordSuccess(b)
    case NoEffect => b
  }

  /**
   * `ResponseRecorder.WriteHeader`: store the code and apply its effect to
   * the recorder's backend (the pool entry with that identity).
   */
  function WriteHeader(rec: Recorder, bs: seq<Backend>, status: int, now: int): (r: (Recorder, seq<Backend>))
    ensures r.0 == rec.(statusCode := status)
    ensures |r.1| == |bs|
    ensures forall j :: 0 <= j < |bs| ==> r.1[j] == (if bs[j].id == rec.backendId then RecordStatus(bs[j], status, now) else bs[j])
  {
    (rec.(statusCode := status), RecordById(bs, rec.backendId, status, now))
  }

  function RecordById(bs: seq<Backend>, id: nat, status: int, now: int): (r: seq<Backend>)
    ensures |r| == |bs|
    ensures forall j :: 0 <= j < |bs| ==> r[j] == (if bs[j].id == id then RecordStatus(bs[j], status, now) else bs[j])
  {
    seq(|bs|, j requires 0 <= j < |bs| => if bs[j].id == id then RecordStatus(bs[j], status, now) else bs[j])
  }

  /** A status code written to the innermost of nested recorders passes through every one of them, innermost first. */
  function WriteThrough(bs: seq<Backend>, chain: seq<nat>, status: int, now: int): (r: seq<Backend>)
    decreases |chain|
  {
    if |chain| == 0 then bs
    else
      var last := |chain| - 1;
      WriteThrough(RecordById(bs, chain[last], status, now), chain[..last], status, now)
  }

  // ------------------------------------------------------- pool bookkeeping

  /** The pool entries with identity `id` with their connection count moved by `delta`. */
  function ShiftConnections(bs: seq<Backend>, id: nat, delta: int): (r: seq<Backend>)
    ensures |r| == |bs|
    ensures forall j :: 0 <= j < |bs| ==> r[j] == (if bs[j].id == id then bs[j].(connections := bs[j].connections + delta) else bs[j])
  {
    seq(|bs|, j requires 0 <= j < |bs| => if bs[j].id == id then bs[j].(connections := bs[j].connections + delta) else bs[j])
  }

  /** `RecordError` on the pool entry with identity `id`. */
  function ErrorById(bs: seq<Backend>, id: nat, now: int): (r: seq<Backend>)
    ensures |r| == |bs|
    ensures forall j :: 0 <= j < |bs| ==> r[j] == (if bs[j].id == id then RecordError(bs[j], now) else bs[j])
  {
    seq(|bs|, j requires 0 <= j < |bs| => if bs[j].id == id then RecordError(bs[j], now) else bs[j])
  }

  /** The circuit query on the pool entry with identity `id`. */
  function SettleById(bs: seq<Backend>, id: nat, now: int): (r: seq<Backend>)
    ensures |r| == |bs|
    ensures forall j :: 0 <= j < |bs| ==> r[j] == (if bs[j].id == id then Settle(bs[j], now) else bs[j])
  {
    seq(|bs|, j requires 0 <= j < |bs| => if bs[j].id == id then Settle(bs[j], now) else bs[j])
  }

  /** `GetAvailableBackends`' side effect: every alive backend's circuit is queried. */
  function ProbeAlive(bs: seq<Backend>, now: int): (r: seq<Backend>)
    ensures |r| == |bs|
    ensures forall j :: 0 <= j < |bs| ==> r[j] == IsAvailable(bs[j], now).1
  {
    seq(|bs|, j requires 0 <= j < |bs| => IsAvailable(bs[j], now).1)
  }

  /** Two pools that differ at most in circuit-breaker fields, entry by entry. */
  predicate Congruent(a: seq<Backend>, b: seq<Backend>)
  {
    |a| == |b| && forall j :: 0 <= j < |a| ==> SameExceptCircuit(a[j], b[j])
  }

  lemma CongruentTrans(a: seq<Backend>, b: seq<Backend>, c: seq<Backend>)
    requires Congruent(a, b) && Congruent(b, c)
    ensures Congruent(a, c)
  {
  }

  /** Passing a status through any chain of recorders touches only circuit-breaker fields. */
  lemma {:induction false} WriteThroughCongruent(bs: seq<Backend>, chain: seq<nat>, status: int, now: int)
    ensures Congruent(bs, WriteThrough(bs, chain, status, now))
    decreases |chain|
  {
    if |chain| > 0 {
      var last := |chain| - 1;
      var bs1 := RecordById(bs, chain[last], status, now);
      WriteThroughCongruent(bs1, chain[..last], status, now);
      CongruentTrans(bs, bs1, WriteThrough(bs1, chain[..last], status, now));
    }
  }

  /** Adding a connection, then circuit-only changes, then removing it, leaves only circuit-only changes. */
  lemma BracketCongruent(bs: seq<Backend>, id: nat, mid: seq<Backend>)
    requires Congruent(ShiftConnections(bs, id, 1), mid)
    ensures Congruent(bs, ShiftConnections(mid, id, -1))
  {
    var up := ShiftConnections(bs, id, 1);
    forall j | 0 <= j < |bs|
      ensures SameExceptCircuit(bs[j], ShiftConnections(mid, id, -1)[j])
    {
      assert mid[j].id == up[j].id == bs[j].id;
    }
  }

  // ------------------------------------------------------------ load balance

  datatype Outcome = Responded(status: int) | Failed(message: string)

  /** What the world does on one proxy attempt: the clock reading and the outcome. */
  datatype Attempt = Attempt(now: int, outcome: Outcome)

  /**
   * `AsWritten`: the error handler's 503 and every nested response are
   * written through the enclosing recorders, as the source does, because
   * the reverse proxy hands the recorder to the error handler.
   * `OwnBackendOnly`: a status is recorded only on the backend that
   * produced it, and a transport error only by the error handler.
   */
  datatype Mode = AsWritten | OwnBackendOnly

  datatype Served = Served(pool: Pool, status: int, attempts: nat)

  /** Attempts still allowed from `retry` on. */
  function Budget(maxRetries: int, retry: int): nat
  {
    if retry < maxRetries then maxRetries - retry else 0
  }

  /** No peer: the pool summary's circuit queries, then 503 written through the enclosing recorders. */
  function NoPeer(mode: Mode, p1: Pool, chain: seq<nat>, now: int): (r: Served)
    ensures r.status == 503 && r.attempts == 0
    ensures Congruent(p1.backends, r.pool.backends)
  {
    var settled := SettleAll(p1.backends, now);
    var bs := if mode == AsWritten then WriteThrough(settled, chain, 503, now) else settled;
    WriteThroughCongruent(settled, chain, 503, now);
    Served(Pool(bs, p1.algorithm), 503, 0)
  }

  /**
   * A proxy attempt whose response (`status`) has been written through
   * the recorders, closed by the deferred connection release.
   */
  function Finish(before: seq<Backend>, algorithm: Algorithm, id: nat, bs: seq<Backend>, status: int, attempts: nat): (r: Served)
    requires Congruent(ShiftConnections(before, id, 1), bs)
    ensures r.status == status && r.attempts == attempts
    ensures Congruent(before, r.pool.backends)
  {
    BracketCongruent(before, id, bs);
    Served(Pool(ShiftConnections(bs, id, -1), algorithm), status, attempts)
  }

  /** The backend answered: its status goes through the recorders. */
  function Answered(mode: Mode, p1: Pool, chain: seq<nat>, id: nat, status: int, now: int): (r: Served)
    ensures r.status == status && r.attempts == 1
    ensures Congruent(p1.backends, r.pool.backends)
  {
    var up := ShiftConnections(p1.backends, id, 1);
    var inner := if mode == AsWritten then chain + [id] else [id];
    WriteThroughCongruent(up, inner, status, now);
    Finish(p1.backends, p1.algorithm, id, WriteThrough(up, inner, status, now), status, 1)
  }

  /** The transport failed and no retry is left: the error handler's 503. */
  function GaveUp(mode: Mode, p1: Pool, chain: seq<nat>, id: nat, now: int): (r: Served)
    ensures r.status == 503 && r.attempts == 1
    ensures Congruent(p1.backends, r.pool.backends)
  {
    var up := ShiftConnections(p1.backends, id, 1);
    var failed := Failing(up, id, now);
    var bs := if mode == AsWritten then WriteThrough(failed, chain + [id], 503, now) else failed;
    WriteThroughCongruent(failed, chain + [id], 503, now);
    CongruentTrans(up, failed, bs);
    Finish(p1.backends, p1.algorithm, id, bs, 503, 1)
  }

  /** The error handler's state change before it re-enters: the error, then the alternatives listing's probes. */
  function BeforeRetry(p1: Pool, id: nat, now: int): (r: seq<Backend>)
    ensures Congruent(ShiftConnections(p1.backends, id, 1), r)
  {
    var up := ShiftConnections(p1.backends, id, 1);
    var failed := Failing(up, id, now);
    var probed := ProbeAlive(failed, now);
    CongruentTrans(up, failed, probed);
    probed
  }

  /** The error handler's first steps on the failing backend: the error, then the circuit query that reports it. */
  function Failing(bs: seq<Backend>, id: nat, now: int): (r: seq<Backend>)
    ensures Congruent(bs, r)
    ensures forall j :: 0 <= j < |bs| && bs[j].id != id ==> r[j] == bs[j]
    ensures forall j :: 0 <= j < |bs| && bs[j].id == id && bs[j].circuitTimeout >= 0 ==>
      r[j] == RecordError(bs[j], now)
  {
    var failed := ErrorById(bs, id, now);
    var r := SettleById(failed, id, now);
    forall j | 0 <= j < |bs| && bs[j].id == id && bs[j].circuitTimeout >= 0
      ensures r[j] == RecordError(bs[j], now)
    {
      assert !Expired(failed[j], now);
    }
    r
  }

  /** The failed attempt closed around the retry's outcome `next`, which ran on the probed list. */
  function Retried(p1: Pool, id: nat, probed: seq<Backend>, next: Served): (r: Served)
    requires Congruent(ShiftConnections(p1.backends, id, 1), probed)
    requires Congruent(probed, next.pool.backends)
    ensures r.status == next.status && r.attempts == next.attempts + 1
    ensures Congruent(p1.backends, r.pool.backends)
  {
    CongruentTrans(ShiftConnections(p1.backends, id, 1), probed, next.pool.backends);
    Finish(p1.backends, next.pool.algorithm, id, next.pool.backends, next.status, next.attempts + 1)
  }

  /**
   * `loadBalance` for attempt number `retry`, nested inside the
   * recorders of the backends in `chain` (outermost first).
   */
  function LoadBalance(mode: Mode, maxRetries: int, p: Pool, chain: seq<nat>, retry: int, world: int -> Attempt): (r: Served)
    ensures r.attempts <= Budget(maxRetries, retry) + 1
    ensures r.attempts == 0 ==> r.status == 503
    ensures r.attempts == 0 <==> NextAvailablePeer(p, world(retry).now).0.None?
    ensures NextAvailablePeer(p, world(retry).now).0.Some? && world(retry).outcome.Responded? ==>
      r.status == world(retry).outcome.status && r.attempts == 1
    ensures Congruent(p.backends, r.pool.backends)
    decreases Budget(maxRetries, retry), 1
  {
    var a := world(retry);
    var next := NextAvailablePeer(p, a.now);
    var r := Dispatch(mode, maxRetries, next.0, next.1, chain, retry, world);
    CongruentTrans(p.backends, next.1.backends, r.pool.backends);
    r
  }

  /** What `loadBalance` does once the peer is chosen: 503, the backend's answer, a retry, or the error handler's 503. */
  function Dispatch(mode: Mode, maxRetries: int, peer: Option<Backend>, p1: Pool, chain: seq<nat>, retry: int, world: int -> Attempt): (r: Served)
    ensures r.attempts <= Budget(maxRetries, retry) + 1
    ensures r.attempts == 0 ==> r.status == 503
    ensures r.attempts == 0 <==> peer.None?
    ensures peer.Some? && world(retry).outcome.Responded? ==> r.status == world(retry).outcome.status && r.attempts == 1
    ensures Congruent(p1.backends, r.pool.backends)
    decreases Budget(maxRetries, retry), 0
  {
    var a := world(retry);
    match peer
    case None => NoPeer(mode, p1, chain, a.now)
    case Some(b) =>
      match a.outcome
      case Responded(status) => Answered(mode, p1, chain, b.id, status, a.now)
      case Failed(_) =>
        if retry < maxRetries then
          var probed := BeforeRetry(p1, b.id, a.now);
          Retried(p1, b.id, probed, LoadBalance(mode, maxRetries, Pool(probed, p1.algorithm), chain + [b.id], retry + 1, world))
        else GaveUp(mode, p1, chain, b.id, a.now)
  }

  /** A request as it enters the mux: no recorder around it, retry read from its context. */
  function ServeRequest(mode: Mode, maxRetries: int, p: Pool, ctx: Option<ContextValue>, world: int -> Attempt): (r: Served)
    ensures r.attempts <= Budget(maxRetries, RetryFromContext(ctx)) + 1
    ensures ctx.None? ==> r.attempts <= (if maxRetries > 0 then maxRetries else 0) + 1
    ensures Congruent(p.backends, r.pool.backends)
  {
    LoadBalance(mode, maxRetries, p, [], RetryFromContext(ctx), world)
  }

  /** A request from the mux is proxied at least once exactly when the pool offers a peer. */
  lemma ServeRequestNoPeer(mode: Mode, maxRetries: int, p: Pool, ctx: Option<ContextValue>, world: int -> Attempt)
    ensures ServeRequest(mode, maxRetries, p, ctx, world).attempts == 0
        <==> NextAvailablePeer(p, world(RetryFromContext(ctx)).now).0.None?
  {
  }

  /**
   * What a status written through nested recorders does: entries whose
   * identity is not in the chain are untouched, and a 2xx/3xx status
   * zeroes the error count of every entry whose identity is.
   */
  lemma {:induction false} WriteThroughEffect(bs: seq<Backend>, chain: seq<nat>, status: int, now: int)
    ensures |WriteThrough(bs, chain, status, now)| == |bs|
    ensures forall j :: 0 <= j < |bs| && bs[j].id !in chain ==> WriteThrough(bs, chain, status, now)[j] == bs[j]
    ensures 200 <= status < 400 ==>
      forall j :: 0 <= j < |bs| && bs[j].id in chain ==> WriteThrough(bs, chain, status, now)[j].consecutiveErrors == 0
    decreases |chain|
  {
    WriteThroughCongruent(bs, chain, status, now);
    if |chain| > 0 {
      var last := |chain| - 1;
      var bs1 := RecordById(bs, chain[last], status, now);
      var rest := chain[..last];
      assert chain == rest + [chain[last]];
      WriteThroughEffect(bs1, rest, status, now);
      forall j | 0 <= j < |bs|
        ensures bs1[j].id == bs[j].id
      {
      }
    }
  }

  /**
   * The error handler gives up on backend `id`: as written, its entry
   * takes the handler's error and then the 503 written back through its
   * own recorder, two errors for one failed attempt; recording on the
   * producing backend only, it takes one. Nothing else changes then.
   */
  lemma GaveUpErrors(mode: Mode, p1: Pool, chain: seq<nat>, id: nat, now: int)
    requires id !in chain
    ensures var r := GaveUp(mode, p1, chain, id, now).pool.backends;
      && |r| == |p1.backends|
      && (forall j :: 0 <= j < |p1.backends| && p1.backends[j].id == id && p1.backends[j].circuitTimeout >= 0 ==>
            r[j].consecutiveErrors == p1.backends[j].consecutiveErrors + (if mode == AsWritten then 2 else 1))
      && (mode == OwnBackendOnly ==> forall j :: 0 <= j < |p1.backends| && p1.backends[j].id != id ==> r[j] == p1.backends[j])
  {
    var up := ShiftConnections(p1.backends, id, 1);
    var failed := Failing(up, id, now);
    var recorded := RecordById(failed, id, 503, now);
    WriteThroughEffect(recorded, chain, 503, now);
    assert WriteThrough(failed, chain + [id], 503, now) == WriteThrough(recorded, chain, 503, now) by {
      assert (chain + [id])[..|chain|] == chain;
    }
    forall j | 0 <= j < |p1.backends|
      ensures recorded[j].id == p1.backends[j].id
    {
    }
  }

  /**
   * The last allowed attempt fails at the transport: the request is
   * answered 503 and the chosen backend's error count goes up by two as
   * written, by one when only the error handler records the failure.
   */
  lemma LastAttemptFailure(mode: Mode, maxRetries: int, p: Pool, chain: seq<nat>, retry: int, world: int -> Attempt)
    requires retry >= maxRetries
    requires world(retry).outcome.Failed?
    requires NextAvailablePeer(p, world(retry).now).0.Some?
    requires NextAvailablePeer(p, world(retry).now).0.value.id !in chain
    ensures var (peer, p1) := NextAvailablePeer(p, world(retry).now);
      var r := LoadBalance(mode, maxRetries, p, chain, retry, world);
      && r.status == 503 && r.attempts == 1
      && |r.pool.backends| == |p1.backends|
      && forall j :: 0 <= j < |p1.backends| && p1.backends[j].id == peer.value.id && p1.backends[j].circuitTimeout >= 0 ==>
           r.pool.backends[j].consecutiveErrors == p1.backends[j].consecutiveErrors + (if mode == AsWritten then 2 else 1)
  {
    var now := world(retry).now;
    var (peer, p1) := NextAvailablePeer(p, now);
    LastAttemptGivesUp(mode, maxRetries, p, chain, retry, world);
    GaveUpErrors(mode, p1, chain, peer.value.id, now);
  }

  /** Past the retry budget a transport failure goes straight to the error handler. */
  lemma LastAttemptGivesUp(mode: Mode, maxRetries: int, p: Pool, chain: seq<nat>, retry: int, world: int -> Attempt)
    requires retry >= maxRetries
    requires world(retry).outcome.Failed?
    requires NextAvailablePeer(p, world(retry).now).0.Some?
    ensures LoadBalance(mode, maxRetries, p, chain, retry, world)
         == GaveUp(mode, NextAvailablePeer(p, world(retry).now).1, chain, NextAvailablePeer(p, world(retry).now).0.value.id, world(retry).now)
  {
    var next := NextAvailablePeer(p, world(retry).now);
    assert LoadBalance(mode, maxRetries, p, chain, retry, world) == Dispatch(mode, maxRetries, next.0, next.1, chain, retry, world);
    DispatchGivesUp(mode, maxRetries, next.0.value, next.1, chain, retry, world);
  }

  /** Past the retry budget, a failed attempt on a chosen peer is the error handler's 503. */
  lemma DispatchGivesUp(mode: Mode, maxRetries: int, b: Backend, p1: Pool, chain: seq<nat>, retry: int, world: int -> Attempt)
    requires retry >= maxRetries
    requires world(retry).outcome.Failed?
    ensures Dispatch(mode, maxRetries, Some(b), p1, chain, retry, world) == GaveUp(mode, p1, chain, b.id, world(retry).now)
  {
  }

  /**
   * The error handler's bookkeeping before it re-enters: the failing
   * backend still holds the attempt's connection and has exactly one more
   * error, stamped now; every other entry only has its circuit queried by
   * the alternatives listing.
   */
  lemma BeforeRetryEffect(p1: Pool, id: nat, now: int)
    ensures var probed := BeforeRetry(p1, id, now);
      && |probed| == |p1.backends|
      && (forall j :: 0 <= j < |p1.backends| && p1.backends[j].id == id && p1.backends[j].circuitTimeout >= 0 ==>
            && probed[j].consecutiveErrors == p1.backends[j].consecutiveErrors + 1
            && probed[j].lastErrorTime == now
            && probed[j].connections == p1.backends[j].connections + 1)
      && (forall j :: 0 <= j < |p1.backends| && p1.backends[j].id != id ==> probed[j] == IsAvailable(p1.backends[j], now).1)
  {
    var up := ShiftConnections(p1.backends, id, 1);
    var failed := Failing(up, id, now);
    forall j | 0 <= j < |p1.backends| && p1.backends[j].id == id && p1.backends[j].circuitTimeout >= 0
      ensures BeforeRetry(p1, id, now)[j].consecutiveErrors == p1.backends[j].consecutiveErrors + 1
      ensures BeforeRetry(p1, id, now)[j].lastErrorTime == now
    {
      assert failed[j] == RecordError(up[j], now);
      assert !Expired(failed[j], now);
    }
  }

  /**
   * Within the retry budget a transport failure does not answer the
   * request: the error handler re-enters with the next retry number,
   * nested inside the failing backend's recorder and on the pool its
   * bookkeeping left, and the request gets the nested call's answer one
   * attempt later.
   */
  lemma RetryOnFailure(mode: Mode, maxRetries: int, p: Pool, chain: seq<nat>, retry: int, world: int -> Attempt)
    requires retry < maxRetries
    requires world(retry).outcome.Failed?
    requires NextAvailablePeer(p, world(retry).now).0.Some?
    ensures var now := world(retry).now;
      var next := NextAvailablePeer(p, now);
      var id := next.0.value.id;
      var probed := BeforeRetry(next.1, id, now);
      var nested := LoadBalance(mode, maxRetries, Pool(probed, next.1.algorithm), chain + [id], retry + 1, world);
      var r := LoadBalance(mode, maxRetries, p, chain, retry, world);
      && r == Retried(next.1, id, probed, nested)
      && r.status == nested.status
      && r.attempts == nested.attempts + 1
  {
    var next := NextAvailablePeer(p, world(retry).now);
    assert LoadBalance(mode, maxRetries, p, chain, retry, world) == Dispatch(mode, maxRetries, next.0, next.1, chain, retry, world);
  }

  /**
   * Every attempt from `retry` on finds a peer, following the pools that
   * the failed attempts before it leave behind.
   */
  ghost predicate PeerOnEveryFailure(maxRetries: int, p: Pool, retry: int, world: int -> Attempt)
    decreases Budget(maxRetries, retry)
  {
    var now := world(retry).now;
    var next := NextAvailablePeer(p, now);
    && next.0.Some?
    && (retry < maxRetries ==>
          PeerOnEveryFailure(maxRetries, Pool(BeforeRetry(next.1, next.0.value.id, now), next.1.algorithm), retry + 1, world))
  }

  /**
   * When every attempt fails at the transport and a peer is found each
   * time, the whole retry budget is spent: one attempt per retry number
   * up to `MaxRetries`, then the error handler's 503.
   */
  lemma {:induction false} FailuresSpendBudget(mode: Mode, maxRetries: int, p: Pool, chain: seq<nat>, retry: int, world: int -> Attempt)
    requires forall k :: retry <= k <= retry + Budget(maxRetries, retry) ==> world(k).outcome.Failed?
    requires PeerOnEveryFailure(maxRetries, p, retry, world)
    ensures LoadBalance(mode, maxRetries, p, chain, retry, world).attempts == Budget(maxRetries, retry) + 1
    ensures LoadBalance(mode, maxRetries, p, chain, retry, world).status == 503
    decreases Budget(maxRetries, retry)
  {
    var now := world(retry).now;
    var next := NextAvailablePeer(p, now);
    assert world(retry).outcome.Failed?;
    if retry < maxRetries {
      var id := next.0.value.id;
      var q := Pool(BeforeRetry(next.1, id, now), next.1.algorithm);
      RetryOnFailure(mode, maxRetries, p, chain, retry, world);
      assert Budget(maxRetries, retry + 1) + 1 == Budget(maxRetries, retry);
      FailuresSpendBudget(mode, maxRetries, q, chain + [id], retry + 1, world);
    } else {
      LastAttemptGivesUp(mode, maxRetries, p, chain, retry, world);
    }
  }

  /** From the mux, a request whose every attempt fails is tried `MaxRetries + 1` times before the 503. */
  lemma ServeRequestSpendsBudget(mode: Mode, maxRetries: int, p: Pool, world: int -> Attempt)
    requires maxRetries >= 0
    requires forall k :: 0 <= k <= maxRetries ==> world(k).outcome.Failed?
    requires PeerOnEveryFailure(maxRetries, p, 0, world)
    ensures ServeRequest(mode, maxRetries, p, None, world).attempts == maxRetries + 1
    ensures ServeRequest(mode, maxRetries, p, None, world).status == 503
  {
    FailuresSpendBudget(mode, maxRetries, p, [], 0, world);
  }

  /**
   * The backend answered: a 2xx/3xx zeroes its error count, and, as
   * written, also that of every backend whose recorder encloses this
   * attempt (earlier failed attempts of the same request); recording on
   * the producing backend only, no other entry changes.
   */
  lemma AnsweredRecords(mode: Mode, p1: Pool, chain: seq<nat>, id: nat, status: int, now: int)
    ensures var r := Answered(mode, p1, chain, id, status, now).pool.backends;
      && |r| == |p1.backends|
      && (200 <= status < 400 ==> forall j :: 0 <= j < |p1.backends| && p1.backends[j].id == id ==> r[j].consecutiveErrors == 0)
      && (200 <= status < 400 && mode == AsWritten ==>
            forall j :: 0 <= j < |p1.backends| && p1.backends[j].id in chain ==> r[j].consecutiveErrors == 0)
      && (mode == OwnBackendOnly ==> forall j :: 0 <= j < |p1.backends| && p1.backends[j].id != id ==> r[j] == p1.backends[j])
  {
    var up := ShiftConnections(p1.backends, id, 1);
    var inner := if mode == AsWritten then chain + [id] else [id];
    WriteThroughEffect(up, inner, status, now);
  }

  /** With nothing available the request is answered 503 without any proxy attempt. */
  lemma NoPeerServes503(mode: Mode, maxRetries: int, p: Pool, chain: seq<nat>, retry: int, world: int -> Attempt)
    requires forall b :: b in p.backends ==> !AvailableAt(b, world(retry).now)
    ensures LoadBalance(mode, maxRetries, p, chain, retry, world).status == 503
    ensures LoadBalance(mode, maxRetries, p, chain, retry, world).attempts == 0
  {
  }

  /**
   * As written, a weighted pool whose sentinel is starved answers 503
   * without any proxy attempt, although a backend may be available.
   */
  lemma StarvedPoolServes503(mode: Mode, maxRetries: int, p: Pool, chain: seq<nat>, retry: int, world: int -> Attempt)
    requires WellFormed(p)
    requires Starved(p.algorithm, AvailableIn(SettleAll(p.backends, world(retry).now), world(retry).now))
    ensures LoadBalance(mode, maxRetries, p, chain, retry, world).status == 503
    ensures LoadBalance(mode, maxRetries, p, chain, retry, world).attempts == 0
  {
    NextAvailablePeerPicks(p, world(retry).now);
  }

  /** The concrete case: the starved weighted pool refuses a request while its first backend is available. */
  lemma WeightedPoolRefuses(mode: Mode, maxRetries: int, chain: seq<nat>, retry: int, world: int -> Attempt)
    ensures AvailableAt(StarvedPool().backends[0], world(retry).now)
    ensures LoadBalance(mode, maxRetries, StarvedPool(), chain, retry, world).status == 503
    ensures LoadBalance(mode, maxRetries, StarvedPool(), chain, retry, world).attempts == 0
  {
    StarvedPoolHasNoPeer(world(retry).now);
  }

  // -------------------------------------------------- circuit-breaker status

  datatype CircuitSummary = CircuitSummary(total: nat, available: nat, circuitsOpen: nat, circuitsClosed: int)

  function OpenCount(bs: seq<Backend>, now: int): nat
  {
    Count(bs, (b: Backend) => OpenAt(b, now))
  }

  /** `circuitBreakerStatus`: available and open counts, closed as total minus open. */
  method CircuitBreakerStatus(bs: seq<Backend>, now: int) returns (s: CircuitSummary, bs': seq<Backend>)
    ensures s.total == |bs|
    ensures s.available == AvailableCount(bs, now)
    ensures s.circuitsOpen == OpenCount(bs, now)
    ensures s.circuitsClosed == s.total - s.circuitsOpen
    ensures bs' == SettleAll(bs, now)
  {
    var available, open := 0, 0;
    var i := 0;
    while i < |bs|
      invariant 0 <= i <= |bs|
      invariant available == AvailableCount(bs[..i], now)
      invariant open == OpenCount(bs[..i], now)
    {
      var b := bs[i];
      CountsStep(bs, i, now);
      assert bs[..i + 1] == bs[..i] + [b];
      CountSnoc(bs[..i], b, (b: Backend) => OpenAt(b, now));
      var (isAvailable, b1) := IsAvailable(b, now);
      var (isOpen, b2) := IsCircuitOpen(b1, now);
      SettleKeepsAvailability(b, now);
      if isAvailable {
        available := available + 1;
      }
      if isOpen {
        open := open + 1;
      }
      i := i + 1;
    }
    assert bs[..i] == bs;
    s := CircuitSummary(|bs|, available, open, |bs| - open);
    bs' := SettleAll(bs, now);
  }

  /** The closed count is the closed-circuit count, and available + open never exceeds the total. */
  lemma CircuitSummaryBounds(bs: seq<Backend>, now: int)
    ensures ClosedCount(bs, now) == |bs| - OpenCount(bs, now)
    ensures AvailableCount(bs, now) + OpenCount(bs, now) <= |bs|
    ensures AvailableCount(bs, now) <= |bs|
  {
    CountComplement(bs, now);
    CountMonotone(bs, (b: Backend) => AvailableAt(b, now), (b: Backend) => !OpenAt(b, now));
  }

  lemma {:induction false} CountComplement(bs: seq<Backend>, now: int)
    ensures ClosedCount(bs, now) + OpenCount(bs, now) == |bs|
    decreases |bs|
  {
    if |bs| > 0 {
      var n := |bs| - 1;
      CountComplement(bs[..n], now);
      assert bs[..n + 1] == bs;
      CountsStep(bs, n, now);
      assert bs == bs[..n] + [bs[n]];
      CountSnoc(bs[..n], bs[n], (b: Backend) => OpenAt(b, now));
    }
  }
}
