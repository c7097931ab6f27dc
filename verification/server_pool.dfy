/**
 * The Go balancer's server pool: an ordered list of backends plus the
 * selection algorithm's state. Every query of a backend's circuit may
 * reset it (see `CircuitBreaker.IsCircuitOpen`), so the pool operations
 * take the clock reading `now` and return the updated pool.
 */
module ServerPool {
  import opened Options
  import opened Seqs
  import opened CircuitBreaker
  import opened Algorithms

  datatype Pool = Pool(backends: seq<Backend>, algorithm: Algorithm)

  /**
   * The invariant the balancer's own use keeps: every backend pointer is
   * added once, and connection counts only move in add/remove pairs.
   */
  predicate WellFormed(p: Pool)
  {
    && DistinctIds(p.backends)
    && forall j :: 0 <= j < |p.backends| ==> p.backends[j].connections >= 0
  }

  function NewServerPool(a: Algorithm): (p: Pool)
    ensures |p.backends| == 0 && p.algorithm == a
    ensures WellFormed(p)
  {
    Pool([], a)
  }

  /** Appending keeps the existing backends and their order. */
  function AddBackend(p: Pool, b: Backend): (r: Pool)
    ensures |r.backends| == |p.backends| + 1
    ensures r.backends[..|p.backends|] == p.backends
    ensures r.backends[|p.backends|] == b
    ensures r.algorithm == p.algorithm
  {
    p.(backends := p.backends + [b])
  }

  /** A fresh identity with a non-negative count keeps the pool well formed. */
  lemma AddBackendKeepsWellFormed(p: Pool, b: Backend)
    requires WellFormed(p)
    requires forall x :: x in p.backends ==> x.id != b.id
    requires b.connections >= 0
    ensures WellFormed(AddBackend(p, b))
  {
    var bs := AddBackend(p, b).backends;
    forall i, j | 0 <= i < j < |bs|
      ensures bs[i].id != bs[j].id
    {
      if j == |p.backends| {
        assert bs[i] in p.backends;
      }
    }
  }

  // ------------------------------------------------------------ availability

  /** The available backends at `now`, in pool order. */
  function AvailableIn(bs: seq<Backend>, now: int): (r: seq<Backend>)
    ensures forall b :: b in r <==> b in bs && AvailableAt(b, now)
  {
    Filter(bs, (b: Backend) => AvailableAt(b, now))
  }

  /** One more backend adds itself to the available ones exactly when it is available. */
  lemma AvailableSnoc(bs: seq<Backend>, b: Backend, now: int)
    ensures AvailableIn(bs + [b], now) == AvailableIn(bs, now) + (if AvailableAt(b, now) then [b] else [])
  {
    FilterAppend(bs, [b], (x: Backend) => AvailableAt(x, now));
  }

  /** Settling a circuit never changes whether the backend is available. */
  lemma SettleKeepsAvailability(b: Backend, now: int)
    ensures AvailableAt(Settle(b, now), now) <==> AvailableAt(b, now)
    ensures OpenAt(Settle(b, now), now) <==> OpenAt(b, now)
    ensures Settle(Settle(b, now), now) == Settle(b, now)
  {
  }

  /** Every backend after its circuit has been queried at `now`. */
  function SettleAll(bs: seq<Backend>, now: int): (r: seq<Backend>)
    ensures |r| == |bs|
    ensures forall j :: 0 <= j < |bs| ==> r[j] == Settle(bs[j], now)
  {
    seq(|bs|, j requires 0 <= j < |bs| => Settle(bs[j], now))
  }

  /**
   * The Go loop: probe every backend in order with `IsAvailable` (which
   * resets an expired circuit of an alive backend) and collect those that
   * pass. The result is exactly the available backends, in pool order.
   */
  method GetAvailableBackends(p: Pool, now: int) returns (available: seq<Backend>, p': Pool)
    ensures p'.algorithm == p.algorithm && |p'.backends| == |p.backends|
    ensures forall j :: 0 <= j < |p.backends| ==> p'.backends[j] == IsAvailable(p.backends[j], now).1
    ensures available == AvailableIn(p'.backends, now)
    ensures forall b :: b in available ==> AvailableAt(b, now)
    ensures forall j :: 0 <= j < |p.backends| && AvailableAt(p.backends[j], now) ==> p'.backends[j] in available
  {
    var bs := p.backends;
    var probed: seq<Backend> := [];
    available := [];
    var i := 0;
    while i < |bs|
      invariant 0 <= i <= |bs|
      invariant |probed| == i
      invariant forall j :: 0 <= j < i ==> probed[j] == IsAvailable(bs[j], now).1
      invariant available == AvailableIn(probed, now)
    {
      var (ok, b') := IsAvailable(bs[i], now);
      ProbeKeepsAvailability(bs[i], now);
      AvailableSnoc(probed, b', now);
      if ok {
        available := available + [b'];
      }
      probed := probed + [b'];
      i := i + 1;
    }
    p' := p.(backends := probed);
    forall j | 0 <= j < |bs| && AvailableAt(bs[j], now)
      ensures probed[j] in available
    {
      ProbeKeepsAvailability(bs[j], now);
    }
  }

  /** The probe's answer is the availability of the backend it leaves behind, which is that of the backend before. */
  lemma ProbeKeepsAvailability(b: Backend, now: int)
    ensures IsAvailable(b, now).0 <==> AvailableAt(IsAvailable(b, now).1, now)
    ensures AvailableAt(b, now) <==> AvailableAt(IsAvailable(b, now).1, now)
  {
    if b.alive {
      SettleKeepsAvailability(b, now);
    }
  }

  /** Filtering keeps identities distinct. */
  lemma {:induction false} AvailableKeepsDistinct(bs: seq<Backend>, now: int)
    requires DistinctIds(bs)
    ensures DistinctIds(AvailableIn(bs, now))
    decreases |bs|
  {
    if |bs| > 0 {
      DistinctTail(bs);
      AvailableKeepsDistinct(bs[1..], now);
      var tail := AvailableIn(bs[1..], now);
      if AvailableAt(bs[0], now) {
        assert AvailableIn(bs, now) == [bs[0]] + tail;
        DistinctCons(bs[0], tail);
      } else {
        assert AvailableIn(bs, now) == tail;
      }
    }
  }

  lemma DistinctTail(bs: seq<Backend>)
    requires |bs| > 0 && DistinctIds(bs)
    ensures DistinctIds(bs[1..])
    ensures forall x :: x in bs[1..] ==> x.id != bs[0].id
  {
    var rest := bs[1..];
    forall i, j | 0 <= i < j < |rest|
      ensures rest[i].id != rest[j].id
    {
      assert rest[i] == bs[i + 1] && rest[j] == bs[j + 1];
    }
    forall x | x in rest
      ensures x.id != bs[0].id
    {
      var k :| 0 <= k < |rest| && rest[k] == x;
      assert bs[k + 1] == x;
    }
  }

  lemma DistinctCons(x: Backend, t: seq<Backend>)
    requires DistinctIds(t)
    requires forall y :: y in t ==> y.id != x.id
    ensures DistinctIds([x] + t)
  {
    var r := [x] + t;
    forall i, j | 0 <= i < j < |r|
      ensures r[i].id != r[j].id
    {
      assert r[j] == t[j - 1];
      if i > 0 {
        assert r[i] == t[i - 1];
      }
    }
  }

  /** Settling keeps identities and connection counts, hence well-formedness. */
  lemma SettleAllKeepsWellFormed(bs: seq<Backend>, now: int)
    requires DistinctIds(bs)
    ensures DistinctIds(SettleAll(bs, now))
    ensures forall j :: 0 <= j < |bs| ==> SettleAll(bs, now)[j].connections == bs[j].connections
  {
  }

  // ------------------------------------------------------------------ picking

  /**
   * `NextAvailablePeer`: every backend's circuit is queried (the alive
   * ones by `IsAvailable`, the dead ones by the reason logging), only the
   * available ones are handed to the algorithm, and with none available
   * the algorithm is not consulted at all.
   */
  function NextAvailablePeer(p: Pool, now: int): (r: (Option<Backend>, Pool))
    ensures r.1.backends == SettleAll(p.backends, now)
    ensures (forall b :: b in p.backends ==> !AvailableAt(b, now)) ==> r.0.None? && r.1.algorithm == p.algorithm
    ensures r.0.Some? ==> AvailableAt(r.0.value, now) && r.0.value in r.1.backends
  {
    var settled := SettleAll(p.backends, now);
    var available := AvailableIn(settled, now);
    SettledAvailability(p.backends, now);
    if |available| == 0 then
      (None, Pool(settled, p.algorithm))
    else
      var (pick, algorithm) := NextBackend(p.algorithm, available);
      (pick, Pool(settled, algorithm))
  }

  /** Settling first does not change which backends are available. */
  lemma SettledAvailability(bs: seq<Backend>, now: int)
    ensures |AvailableIn(SettleAll(bs, now), now)| == 0 <==> forall b :: b in bs ==> !AvailableAt(b, now)
  {
    var settled := SettleAll(bs, now);
    if b :| b in bs && AvailableAt(b, now) {
      var k :| 0 <= k < |bs| && bs[k] == b;
      SettleKeepsAvailability(b, now);
      assert settled[k] in AvailableIn(settled, now);
    } else {
      forall x | x in settled ensures !AvailableAt(x, now) {
        var i :| 0 <= i < |settled| && settled[i] == x;
        SettleKeepsAvailability(bs[i], now);
      }
      FilterNone(settled, (b: Backend) => AvailableAt(b, now));
    }
  }

  /**
   * In a well-formed pool, a peer is returned exactly when some backend
   * is available and the algorithm is not the source's weighted rule
   * starved on the available ones.
   */
  lemma NextAvailablePeerPicks(p: Pool, now: int)
    requires WellFormed(p)
    ensures NextAvailablePeer(p, now).0.Some? <==>
      && (exists b :: b in p.backends && AvailableAt(b, now))
      && !Starved(p.algorithm, AvailableIn(SettleAll(p.backends, now), now))
  {
    var available := AvailableIn(SettleAll(p.backends, now), now);
    SettledAvailability(p.backends, now);
    AvailableReady(p, now);
    NextBackendPicks(p.algorithm, available);
  }

  /** With the corrected weighted rule, or any other algorithm, a peer is returned exactly when one is available. */
  lemma CorrectedNextAvailablePeerPicks(p: Pool, now: int)
    requires WellFormed(p)
    requires p.algorithm.WeightedRoundRobin? ==> p.algorithm.rule == FirstCandidate
    ensures NextAvailablePeer(p, now).0.Some? <==> exists b :: b in p.backends && AvailableAt(b, now)
  {
    NextAvailablePeerPicks(p, now);
  }

  /** The pool the weighted starvation happens in: the three weight-1 backends after one call, two of them down. */
  function StarvedPool(): Pool
  {
    Pool(TrioLater(), WeightedRoundRobin(WeightedNextAsWritten(map[], Trio()).1, SentinelMinusOne))
  }

  /** With every circuit closed, a weighted pool picks what its algorithm picks on the whole list. */
  lemma ClosedWeightedPoolPicks(bs: seq<Backend>, cw: map<nat, int>, rule: MaxRule, now: int)
    requires forall j :: 0 <= j < |bs| ==> !bs[j].circuitOpen
    ensures NextAvailablePeer(Pool(bs, WeightedRoundRobin(cw, rule)), now).0 == WeightedNextWith(rule, cw, bs).0
  {
    assert SettleAll(bs, now) == bs;
    var available := AvailableIn(bs, now);
    assert available == AliveBackends(bs) by {
      forall x | x in bs
        ensures AvailableAt(x, now) <==> x.alive
      {
        var j :| 0 <= j < |bs| && bs[j] == x;
      }
      FilterCongruent(bs, (b: Backend) => AvailableAt(b, now), (b: Backend) => b.alive);
    }
    FilterAll(available, (b: Backend) => b.alive);
  }

  /**
   * As written, a weighted pool with a backend available returns no peer:
   * the sentinel starvation of the algorithm reaches the pool.
   */
  lemma StarvedPoolHasNoPeer(now: int)
    ensures WellFormed(StarvedPool())
    ensures AvailableAt(StarvedPool().backends[0], now)
    ensures NextAvailablePeer(StarvedPool(), now).0.None?
  {
    var p := StarvedPool();
    assert p.backends == TrioLater();
    TrioLaterWellFormed();
    WeightedSentinelStarves();
    ClosedWeightedPoolPicks(p.backends, p.algorithm.currentWeights, SentinelMinusOne, now);
  }

  lemma TrioLaterWellFormed()
    ensures DistinctIds(TrioLater())
    ensures forall j :: 0 <= j < |TrioLater()| ==> TrioLater()[j].connections >= 0
    ensures forall j :: 0 <= j < |TrioLater()| ==> !TrioLater()[j].circuitOpen
    ensures TrioLater()[0].alive
  {
    var t := TrioLater();
    assert forall j :: 0 <= j < |t| ==> t[j].id == j && t[j].connections == 0 && !t[j].circuitOpen;
  }

  /** The available backends of a settled well-formed pool are alive, distinct and hold non-negative counts. */
  lemma AvailableReady(p: Pool, now: int)
    requires WellFormed(p)
    ensures var available := AvailableIn(SettleAll(p.backends, now), now);
      && AliveBackends(available) == available
      && DistinctIds(AliveBackends(available))
      && forall j :: 0 <= j < |available| && available[j].alive ==> available[j].connections >= 0
  {
    var settled := SettleAll(p.backends, now);
    var available := AvailableIn(settled, now);
    SettleAllKeepsWellFormed(p.backends, now);
    AvailableKeepsDistinct(settled, now);
    FilterAll(available, (b: Backend) => b.alive);
    forall j | 0 <= j < |available| && available[j].alive
      ensures available[j].connections >= 0
    {
      var x := available[j];
      assert x in settled;
      var i :| 0 <= i < |settled| && settled[i] == x;
    }
  }


  /** Every backend whose identity is `id` replaced by `x`: a write through the Go pointer. */
  function ReplaceById(bs: seq<Backend>, id: nat, x: Backend): (r: seq<Backend>)
    ensures |r| == |bs|
    ensures forall j :: 0 <= j < |bs| ==> r[j] == (if bs[j].id == id then x else bs[j])
  {
    seq(|bs|, j requires 0 <= j < |bs| => if bs[j].id == id then x else bs[j])
  }

  /** Writing a backend back over itself changes nothing when identities are distinct. */
  lemma ReplaceSelf(bs: seq<Backend>, x: Backend)
    ensures DistinctIds(bs) && x in bs ==> ReplaceById(bs, x.id, x) == bs
  {
    if DistinctIds(bs) && x in bs {
      var k :| 0 <= k < |bs| && bs[k] == x;
      forall j | 0 <= j < |bs|
        ensures ReplaceById(bs, x.id, x)[j] == bs[j]
      {
        if j != k {
          assert bs[j].id != x.id by {
            if j < k {} else {}
          }
        }
      }
    }
  }

  /** The first backend, in order, that is available and is not `excludeId`. */
  function AlternativeFrom(bs: seq<Backend>, excludeId: nat, now: int, i: nat): (k: Option<nat>)
    requires i <= |bs|
    ensures k.Some? ==> i <= k.value < |bs| && bs[k.value].id != excludeId && AvailableAt(bs[k.value], now)
    ensures k.Some? ==> forall j :: i <= j < k.value ==> bs[j].id == excludeId || !AvailableAt(bs[j], now)
    ensures k.None? <==> forall j :: i <= j < |bs| ==> bs[j].id == excludeId || !AvailableAt(bs[j], now)
    decreases |bs| - i
  {
    if i == |bs| then None
    else if bs[i].id != excludeId && IsAvailable(bs[i], now).0 then Some(i)
    else AlternativeFrom(bs, excludeId, now, i + 1)
  }

  /**
   * `findAlternativeBackend`: probe in order, skipping the excluded
   * backend; a failed probe changes nothing, the successful one settles
   * the backend it returns.
   */
  function FindAlternative(bs: seq<Backend>, excludeId: nat, now: int): (r: (Option<Backend>, seq<Backend>))
    ensures r.0.None? <==> forall b :: b in bs ==> b.id == excludeId || !AvailableAt(b, now)
    ensures r.0.None? ==> r.1 == bs
    ensures r.0.Some? ==> exists k: nat ::
      && k < |bs| && bs[k].id != excludeId && AvailableAt(bs[k], now)
      && (forall j :: 0 <= j < k ==> bs[j].id == excludeId || !AvailableAt(bs[j], now))
      && r.0.value == Settle(bs[k], now)
      && r.1 == bs[k := Settle(bs[k], now)]
  {
    match AlternativeFrom(bs, excludeId, now, 0)
    case None => (None, bs)
    case Some(k) =>
      var b := IsAvailable(bs[k], now).1;
      (Some(b), bs[k := b])
  }

  /**
   * `NextPeer`: the algorithm picks among all backends; the pick is
   * probed; if it is held out by its circuit, the first other available
   * backend is returned instead; a pick that is down with a closed
   * circuit would be returned as is.
   */
  function NextPeer(p: Pool, now: int): (r: (Option<Backend>, Pool))
    ensures r.1.algorithm == NextBackend(p.algorithm, p.backends).1
    ensures NextBackend(p.algorithm, p.backends).0.None? ==> r.0.None? && r.1.backends == p.backends
    ensures var pick := NextBackend(p.algorithm, p.backends).0;
      pick.Some? && AvailableAt(pick.value, now) ==> r.0 == Some(Settle(pick.value, now))
    ensures var pick := NextBackend(p.algorithm, p.backends).0;
      WellFormed(p) && pick.Some? && !AvailableAt(pick.value, now) ==>
        var alt := FindAlternative(p.backends, pick.value.id, now);
        r == (alt.0, Pool(alt.1, NextBackend(p.algorithm, p.backends).1))
  {
    var (pick, algorithm) := NextBackend(p.algorithm, p.backends);
    match pick
    case None => (None, Pool(p.backends, algorithm))
    case Some(b) =>
      ReplaceSelf(p.backends, b);
      var (ok, b1) := IsAvailable(b, now);
      var bs1 := ReplaceById(p.backends, b.id, b1);
      if ok then (Some(b1), Pool(bs1, algorithm))
      else
        var (open, b2) := IsCircuitOpen(b1, now);
        var bs2 := ReplaceById(bs1, b.id, b2);
        if open then
          var (alt, bs3) := FindAlternative(bs2, b.id, now);
          (alt, Pool(bs3, algorithm))
        else (Some(b2), Pool(bs2, algorithm))
  }

  /**
   * The branch returning a down backend cannot be reached: the
   * algorithms only pick alive backends, so a pick that fails the probe
   * has an open circuit. Hence whatever `NextPeer` returns is available,
   * and it is the settled pick itself or another backend of the pool.
   */
  lemma NextPeerReturnsAvailable(p: Pool, now: int)
    ensures var r := NextPeer(p, now);
      r.0.Some? ==> AvailableAt(r.0.value, now)
    ensures var r := NextPeer(p, now);
      var pick := NextBackend(p.algorithm, p.backends).0;
      r.0.Some? && r.0 != pick.(value := Settle(pick.value, now)) ==> pick.Some? && OpenAt(pick.value, now) && r.0.value.id != pick.value.id
    ensures var r := NextPeer(p, now);
      var pick := NextBackend(p.algorithm, p.backends).0;
      WellFormed(p) ==>
        (r.0.None? <==>
          || pick.None?
          || (!AvailableAt(pick.value, now) && forall b :: b in p.backends ==> b.id == pick.value.id || !AvailableAt(b, now)))
  {
    var (pick, algorithm) := NextBackend(p.algorithm, p.backends);
    if pick.Some? {
      var b := pick.value;
      assert b.alive;
      SettleKeepsAvailability(b, now);
      var (ok, b1) := IsAvailable(b, now);
      if !ok {
        assert OpenAt(b, now) && b1 == b;
        var bs1 := ReplaceById(p.backends, b.id, b1);
        var (open, b2) := IsCircuitOpen(b1, now);
        assert open;
        var bs2 := ReplaceById(bs1, b.id, b2);
        var (alt, bs3) := FindAlternative(bs2, b.id, now);
        if alt.Some? {
          var k: nat :| k < |bs2| && bs2[k].id != b.id && AvailableAt(bs2[k], now) && alt.value == Settle(bs2[k], now);
          SettleKeepsAvailability(bs2[k], now);
        }
      }
    }
  }

  // ----------------------------------------------------------------- counting

  datatype PoolSummary = PoolSummary(total: nat, alive: nat, available: nat, circuitsClosed: nat)

  function AliveCount(bs: seq<Backend>): nat
  {
    Count(bs, (b: Backend) => b.alive)
  }

  function AvailableCount(bs: seq<Backend>, now: int): nat
  {
    Count(bs, (b: Backend) => AvailableAt(b, now))
  }

  function ClosedCount(bs: seq<Backend>, now: int): nat
  {
    Count(bs, (b: Backend) => !OpenAt(b, now))
  }

  /** The three counts over one more backend. */
  lemma CountsStep(bs: seq<Backend>, i: nat, now: int)
    requires i < |bs|
    ensures AliveCount(bs[..i + 1]) == AliveCount(bs[..i]) + (if bs[i].alive then 1 else 0)
    ensures AvailableCount(bs[..i + 1], now) == AvailableCount(bs[..i], now) + (if AvailableAt(bs[i], now) then 1 else 0)
    ensures ClosedCount(bs[..i + 1], now) == ClosedCount(bs[..i], now) + (if OpenAt(bs[i], now) then 0 else 1)
  {
    assert bs[..i + 1] == bs[..i] + [bs[i]];
    CountSnoc(bs[..i], bs[i], (b: Backend) => b.alive);
    CountSnoc(bs[..i], bs[i], (b: Backend) => AvailableAt(b, now));
    CountSnoc(bs[..i], bs[i], (b: Backend) => !OpenAt(b, now));
  }

  /**
   * `GetPoolSummary`: one pass counting alive, available and closed
   * circuits; the closed-circuit query settles every backend.
   */
  method GetPoolSummary(p: Pool, now: int) returns (s: PoolSummary, p': Pool)
    ensures s.total == |p.backends|
    ensures s.alive == AliveCount(p.backends)
    ensures s.available == AvailableCount(p.backends, now)
    ensures s.circuitsClosed == ClosedCount(p.backends, now)
    ensures p' == p.(backends := SettleAll(p.backends, now))
  {
    var bs := p.backends;
    var alive, available, closed := 0, 0, 0;
    var i := 0;
    while i < |bs|
      invariant 0 <= i <= |bs|
      invariant alive == AliveCount(bs[..i])
      invariant available == AvailableCount(bs[..i], now)
      invariant closed == ClosedCount(bs[..i], now)
    {
      var b := bs[i];
      CountsStep(bs, i, now);
      if IsAlive(b) {
        alive := alive + 1;
      }
      var (ok, b1) := IsAvailable(b, now);
      if ok {
        available := available + 1;
      }
      var (open, b2) := IsCircuitOpen(b1, now);
      SettleKeepsAvailability(b, now);
      if !open {
        closed := closed + 1;
      }
      i := i + 1;
    }
    assert bs[..i] == bs;
    s := PoolSummary(|bs|, alive, available, closed);
    p' := p.(backends := SettleAll(bs, now));
  }

  /** available <= alive <= total and available <= circuits_closed <= total. */
  lemma PoolSummaryBounds(bs: seq<Backend>, now: int)
    ensures AvailableCount(bs, now) <= AliveCount(bs) <= |bs|
    ensures AvailableCount(bs, now) <= ClosedCount(bs, now) <= |bs|
  {
    CountMonotone(bs, (b: Backend) => AvailableAt(b, now), (b: Backend) => b.alive);
    CountMonotone(bs, (b: Backend) => AvailableAt(b, now), (b: Backend) => !OpenAt(b, now));
  }

  // -------------------------------------------------------------------- stats

  /** "up" or "down", with " (circuit open)" appended when the circuit is open. */
  function StatusString(alive: bool, open: bool): (s: string)
    ensures |s| >= 2 && (s[0] == 'u' <==> alive)
    ensures |s| > 4 <==> open
  {
    (if alive then "up" else "down") + (if open then " (circuit open)" else "")
  }

  /** Reading a status string back. */
  function ParseStatus(s: string): Option<(bool, bool)>
  {
    if s == "up" then Some((true, false))
    else if s == "down" then Some((false, false))
    else if s == "up (circuit open)" then Some((true, true))
    else if s == "down (circuit open)" then Some((false, true))
    else None
  }

  /** The status string determines both flags. */
  lemma StatusRoundTrip(alive: bool, open: bool)
    ensures ParseStatus(StatusString(alive, open)) == Some((alive, open))
  {
  }

  datatype BackendInfo = BackendInfo(
    url: string, status: string, connections: int, weight: int, consecutiveErrors: int,
    circuitOpen: bool, available: bool, alive: bool, healthStatus: string, circuitStatus: string)

  datatype Stats = Stats(algorithm: string, totalBackends: nat, aliveBackends: nat, availableBackends: nat, backends: seq<BackendInfo>)

  /**
   * One backend's entry: read after its circuit has been queried, so the
   * counters shown are the settled ones.
   */
  function Info(b: Backend, now: int): (r: BackendInfo)
    ensures var s := Settle(b, now);
      && r.status == StatusString(b.alive, OpenAt(b, now))
      && r.alive == b.alive
      && r.available == AvailableAt(b, now)
      && r.circuitOpen == OpenAt(b, now)
      && r.consecutiveErrors == s.consecutiveErrors
      && (r.healthStatus == "healthy" <==> b.alive)
      && (r.circuitStatus == "open" <==> OpenAt(b, now))
  {
    var (available, b1) := IsAvailable(b, now);
    var (open, b2) := IsCircuitOpen(b1, now);
    SettleKeepsAvailability(b, now);
    BackendInfo(b2.url, StatusString(b.alive, open), b2.connections, b2.weight, b2.consecutiveErrors,
      open, available, b.alive, if b.alive then "healthy" else "unhealthy", if open then "open" else "closed")
  }

  /** `GetStats`, without the floating-point health percentage. */
  method GetStats(p: Pool, now: int) returns (st: Stats, p': Pool)
    ensures st.algorithm == Name(p.algorithm)
    ensures st.totalBackends == |p.backends| == |st.backends|
    ensures st.aliveBackends == AliveCount(p.backends)
    ensures st.availableBackends == AvailableCount(p.backends, now)
    ensures forall j :: 0 <= j < |p.backends| ==> st.backends[j] == Info(p.backends[j], now)
    ensures p' == p.(backends := SettleAll(p.backends, now))
  {
    var bs := p.backends;
    var infos: seq<BackendInfo> := [];
    var alive, available := 0, 0;
    var i := 0;
    while i < |bs|
      invariant 0 <= i <= |bs|
      invariant infos == InfoList(bs[..i], now)
      invariant alive == AliveCount(bs[..i])
      invariant available == AvailableCount(bs[..i], now)
    {
      var b := bs[i];
      CountsStep(bs, i, now);
      InfoListSnoc(bs, i, now);
      var info := Info(b, now);
      if info.alive {
        alive := alive + 1;
      }
      if info.available {
        available := available + 1;
      }
      infos := infos + [info];
      i := i + 1;
    }
    assert bs[..i] == bs;
    st := Stats(Name(p.algorithm), |bs|, alive, available, infos);
    p' := p.(backends := SettleAll(bs, now));
  }

  /** One entry per backend, in pool order. */
  function InfoList(bs: seq<Backend>, now: int): (r: seq<BackendInfo>)
    ensures |r| == |bs| && forall j :: 0 <= j < |bs| ==> r[j] == Info(bs[j], now)
  {
    seq(|bs|, j requires 0 <= j < |bs| => Info(bs[j], now))
  }

  lemma InfoListSnoc(bs: seq<Backend>, i: nat, now: int)
    requires i < |bs|
    ensures InfoList(bs[..i + 1], now) == InfoList(bs[..i], now) + [Info(bs[i], now)]
  {
  }

  // ------------------------------------------------------------- helpers

  /**
   * The health probe's verdict: the `/health` status decides; only when
   * that request fails outright is the root path tried; a failed request
   * (`None`) or a status outside 200..299 means dead.
   */
  function IsBackendAlive(health: Option<int>, root: Option<int>): (alive: bool)
    ensures health.Some? ==> (alive <==> 200 <= health.value < 300)
    ensures health.None? ==> (alive <==> root.Some? && 200 <= root.value < 300)
  {
    var status := if health.Some? then health else root;
    match status
    case None => false
    case Some(code) => code >= 200 && code < 300
  }

  /** The reference: elements separated by `sep`, built from the right. */
  function Join(strs: seq<string>, sep: string): string
    decreases |strs|
  {
    if |strs| == 0 then ""
    else if |strs| == 1 then strs[0]
    else Join(strs[..|strs| - 1], sep) + sep + strs[|strs| - 1]
  }

  /** `joinStrings`, as the Go loop writes it. */
  method JoinStrings(strs: seq<string>, sep: string) returns (result: string)
    ensures result == Join(strs, sep)
    ensures |strs| == 0 ==> result == ""
  {
    if |strs| == 0 {
      return "";
    }
    result := strs[0];
    var i := 1;
    while i < |strs|
      invariant 1 <= i <= |strs|
      invariant result == Join(strs[..i], sep)
    {
      assert strs[..i + 1][..i] == strs[..i];
      result := result + sep + strs[i];
      i := i + 1;
    }
    assert strs[..i] == strs;
  }

  function SumLengths(strs: seq<string>): nat
    decreases |strs|
  {
    if |strs| == 0 then 0 else SumLengths(strs[..|strs| - 1]) + |strs[|strs| - 1]|
  }

  /** A joined list holds every element's characters and one separator between each neighbouring pair. */
  lemma {:induction false} JoinLength(strs: seq<string>, sep: string)
    requires |strs| > 0
    ensures |Join(strs, sep)| == SumLengths(strs) + (|strs| - 1) * |sep|
    decreases |strs|
  {
    if |strs| > 1 {
      JoinLength(strs[..|strs| - 1], sep);
    } else {
      assert strs[..0] == [];
    }
  }

  /** Joining two non-empty lists is joining the joins. */
  lemma {:induction false} JoinAppend(a: seq<string>, b: seq<string>, sep: string)
    requires |a| > 0 && |b| > 0
    ensures Join(a + b, sep) == Join(a, sep) + sep + Join(b, sep)
    decreases |b|
  {
    var ab := a + b;
    if |b| == 1 {
      assert ab[..|ab| - 1] == a;
    } else {
      var b' := b[..|b| - 1];
      assert ab[..|ab| - 1] == a + b';
      JoinAppend(a, b', sep);
    }
  }
}
