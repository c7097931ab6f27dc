/**
 * The test backend's start-up: the command-line settings, the defaults
 * each backend type fills in, the backend built from them, and the
 * routes registered on the default mux.
 */
module BackendFlags {
  import opened FaultInjection

  /** The flag values: port, type, base and maximum delay (ns), payload size and error rate. */
  datatype Flags = Flags(port: int, kind: string, baseDelay: int, maxDelay: int, payloadSize: int, errorRate: real)

  /** The backend types that have defaults of their own. */
  datatype Kind = FastKind | SlowKind | HeavyKind | FailingKind | OtherKind

  function KindOf(name: string): (k: Kind)
  {
    if name == "fast" then FastKind
    else if name == "slow" then SlowKind
    else if name == "heavy" then HeavyKind
    else if name == "failing" then FailingKind
    else OtherKind
  }

  /** A setting is filled only while it is still zero. */
  function Fill(current: int, default: int): (r: int)
    ensures current != 0 ==> r == current
    ensures current == 0 ==> r == default
  {
    if current == 0 then default else current
  }

  function FillRate(current: real, default: real): (r: real)
    ensures current != 0.0 ==> r == current
    ensures current == 0.0 ==> r == default
  {
    if current == 0.0 then default else current
  }

  /** The defaults each type fills in; "balanced" and any other name fill nothing. */
  function TypeDefaults(f: Flags): (r: Flags)
    ensures r.port == f.port && r.kind == f.kind
    ensures KindOf(f.kind) == FastKind ==> r == f.(baseDelay := Fill(f.baseDelay, Millisecond), payloadSize := Fill(f.payloadSize, 100))
    ensures KindOf(f.kind) == SlowKind ==> r == f.(baseDelay := Fill(f.baseDelay, 100 * Millisecond), maxDelay := Fill(f.maxDelay, 500 * Millisecond))
    ensures KindOf(f.kind) == HeavyKind ==> r == f.(payloadSize := Fill(f.payloadSize, 1024 * 1024), baseDelay := Fill(f.baseDelay, 50 * Millisecond))
    ensures KindOf(f.kind) == FailingKind ==> r == f.(errorRate := FillRate(f.errorRate, 0.2), baseDelay := Fill(f.baseDelay, 10 * Millisecond))
    ensures KindOf(f.kind) == OtherKind ==> r == f
  {
    match KindOf(f.kind)
    case FastKind => f.(baseDelay := Fill(f.baseDelay, Millisecond), payloadSize := Fill(f.payloadSize, 100))
    case SlowKind => f.(baseDelay := Fill(f.baseDelay, 100 * Millisecond), maxDelay := Fill(f.maxDelay, 500 * Millisecond))
    case HeavyKind => f.(payloadSize := Fill(f.payloadSize, 1024 * 1024), baseDelay := Fill(f.baseDelay, 50 * Millisecond))
    case FailingKind => f.(errorRate := FillRate(f.errorRate, 0.2), baseDelay := Fill(f.baseDelay, 10 * Millisecond))
    case OtherKind => f
  }

  /** Every setting given on the command line (non-zero) survives, whatever the type. */
  lemma DefaultsKeepGiven(f: Flags)
    ensures f.baseDelay != 0 ==> TypeDefaults(f).baseDelay == f.baseDelay
    ensures f.maxDelay != 0 ==> TypeDefaults(f).maxDelay == f.maxDelay
    ensures f.payloadSize != 0 ==> TypeDefaults(f).payloadSize == f.payloadSize
    ensures f.errorRate != 0.0 ==> TypeDefaults(f).errorRate == f.errorRate
  {
  }

  /** A setting that changes was zero and gets the type's positive default. */
  lemma DefaultsOnlyFillZeros(f: Flags)
    ensures TypeDefaults(f).baseDelay != f.baseDelay ==> f.baseDelay == 0 && TypeDefaults(f).baseDelay > 0
    ensures TypeDefaults(f).maxDelay != f.maxDelay ==> f.maxDelay == 0 && TypeDefaults(f).maxDelay > 0
    ensures TypeDefaults(f).payloadSize != f.payloadSize ==> f.payloadSize == 0 && TypeDefaults(f).payloadSize > 0
    ensures TypeDefaults(f).errorRate != f.errorRate ==> f.errorRate == 0.0 && TypeDefaults(f).errorRate > 0.0
  {
  }

  /** Filling twice is filling once. */
  lemma DefaultsIdempotent(f: Flags)
    ensures TypeDefaults(TypeDefaults(f)) == TypeDefaults(f)
  {
  }

  /**
   * The backend `main` builds: the flags after the type's defaults, and
   * the host name the system reports (`hostname`, empty when the lookup
   * fails), with "localhost" in place of an empty one.
   */
  function StartBackend(f: Flags, hostname: string, now: int): (b: Backend)
    ensures b == NewBackend(f.port, f.kind, TypeDefaults(f).baseDelay, TypeDefaults(f).maxDelay,
                            TypeDefaults(f).payloadSize, TypeDefaults(f).errorRate, b.hostname, now)
    ensures b.hostname == (if hostname == "" then "localhost" else hostname)
    ensures b.hostname != ""
    ensures b.isHealthy && b.failureMode.None? && b.requestCount == 0
  {
    var g := TypeDefaults(f);
    var host := if hostname == "" then "localhost" else hostname;
    NewBackend(g.port, g.kind, g.baseDelay, g.maxDelay, g.payloadSize, g.errorRate, host, now)
  }

  /**
   * A "slow" backend given a base delay of 500ms or more keeps that base
   * but gets the 500ms maximum filled in, so `GetDelay` panics on every
   * request to `/` that is not failed on purpose; the corrected delay is
   * the base.
   */
  lemma SlowBackendPanics(f: Flags, hostname: string, now: int, draw: real, pick: nat)
    requires KindOf(f.kind) == SlowKind && f.maxDelay == 0 && f.baseDelay >= 500 * Millisecond
    requires !ShouldFailRequest(StartBackend(f, hostname, now), draw)
    ensures GetDelayAsWritten(StartBackend(f, hostname, now), pick) == Panic
    ensures HandleRoot(StartBackend(f, hostname, now), draw, pick, AsWritten).1 == Panicked
    ensures GetDelay(StartBackend(f, hostname, now), pick) == f.baseDelay
    ensures HandleRoot(StartBackend(f, hostname, now), draw, pick, Corrected).1.Hello?
  {
    var b := StartBackend(f, hostname, now);
    assert b.maxDelay == 500 * Millisecond && b.baseDelay == f.baseDelay;
  }

  /** With the corrected delay every backend `main` can build answers `/` within its configured delays. */
  lemma CorrectedDelayBounded(f: Flags, hostname: string, now: int, pick: nat)
    ensures var b := StartBackend(f, hostname, now);
      b.baseDelay <= GetDelay(b, pick) && (GetDelay(b, pick) == b.baseDelay || GetDelay(b, pick) < b.maxDelay)
  {
  }

  // ---------------------------------------------------------------- routes

  datatype Handler =
    | RootHandler | HealthHandler | FastHandler | SlowHandler | HeavyHandler
    | FailHandler | InfoHandler | CpuHandler | ControlHandler

  /** One `http.HandleFunc` registration. */
  datatype Route = Route(pattern: string, handler: Handler)

  /**
   * The registrations `main` makes, in order. As written there is none
   * for `/control`; corrected, `HandleControl` is registered there too.
   */
  function RouteTable(v: Variant): (t: seq<Route>)
    ensures |t| == (if v.AsWritten? then 8 else 9)
  {
    [Route("/", RootHandler), Route("/health", HealthHandler), Route("/fast", FastHandler),
     Route("/slow", SlowHandler), Route("/heavy", HeavyHandler), Route("/fail", FailHandler),
     Route("/info", InfoHandler), Route("/cpu", CpuHandler)]
    + (if v.AsWritten? then [] else [Route("/control", ControlHandler)])
  }

  /**
   * The handler the default mux serves a path with: the registration
   * whose pattern is exactly the path, else the `/` pattern, which
   * matches every path.
   */
  function HandlerFor(table: seq<Route>, path: string): (h: Handler)
    ensures (forall k :: 0 <= k < |table| ==> table[k].pattern != path) ==> h == RootHandler
    ensures h != RootHandler ==> exists k :: 0 <= k < |table| && table[k].pattern == path && table[k].handler == h
    decreases |table|
  {
    if |table| == 0 then RootHandler
    else if table[0].pattern == path then table[0].handler
    else HandlerFor(table[1..], path)
  }

  /** A registration appended at the end only serves paths no earlier one matches. */
  lemma {:induction false} HandlerForAppend(table: seq<Route>, r: Route, path: string)
    ensures (exists k :: 0 <= k < |table| && table[k].pattern == path) ==>
      HandlerFor(table + [r], path) == HandlerFor(table, path)
    ensures (forall k :: 0 <= k < |table| ==> table[k].pattern != path) ==>
      HandlerFor(table + [r], path) == (if r.pattern == path then r.handler else RootHandler)
    decreases |table|
  {
    if |table| > 0 {
      assert (table + [r])[1..] == table[1..] + [r];
      if table[0].pattern != path {
        HandlerForAppend(table[1..], r, path);
        if exists k :: 0 <= k < |table| && table[k].pattern == path {
          var k :| 0 <= k < |table| && table[k].pattern == path;
          assert table[1..][k - 1] == table[k];
        }
        forall k | 0 <= k < |table| - 1
          ensures table[1..][k] == table[k + 1]
        {
        }
      }
    }
  }

  /** The source's registrations: all shorter than `/control`, none for `HandleControl`. */
  lemma SourceRoutes()
    ensures forall k :: 0 <= k < |RouteTable(AsWritten)| ==>
      |RouteTable(AsWritten)[k].pattern| < |"/control"| && RouteTable(AsWritten)[k].handler != ControlHandler
  {
  }

  /**
   * As written no path reaches `HandleControl`: a request to `/control`
   * is served by the root handler, so faults cannot be switched at run time.
   */
  lemma ControlUnrouted(path: string)
    ensures HandlerFor(RouteTable(AsWritten), path) != ControlHandler
    ensures HandlerFor(RouteTable(AsWritten), "/control") == RootHandler
  {
    SourceRoutes();
  }

  /** Corrected, `/control` reaches `HandleControl` and every other path is served as before. */
  lemma ControlRouted(path: string)
    ensures HandlerFor(RouteTable(Corrected), "/control") == ControlHandler
    ensures path != "/control" ==> HandlerFor(RouteTable(Corrected), path) == HandlerFor(RouteTable(AsWritten), path)
  {
    var t := RouteTable(AsWritten);
    var r := Route("/control", ControlHandler);
    assert RouteTable(Corrected) == t + [r];
    SourceRoutes();
    HandlerForAppend(t, r, path);
    HandlerForAppend(t, r, "/control");
  }
}
