/**
 * The Go balancer's selection algorithms: round-robin over the alive
 * backends, smooth weighted round-robin with a per-backend current
 * weight, and least-connections; plus the name-to-algorithm factory.
 * Every algorithm is a pure step from (state, backends) to (pick, state).
 */
module Algorithms {
  import opened Options
  import opened Seqs
  import opened CircuitBreaker

  const TwoTo64: int := 0x1_0000_0000_0000_0000

  /** Go's uint64 round-robin counter. */
  newtype u64 = x: int | 0 <= x < 0x1_0000_0000_0000_0000

  /** The alive backends, in input order. */
  function AliveBackends(bs: seq<Backend>): (r: seq<Backend>)
    ensures forall b :: b in r <==> b in bs && b.alive
    ensures |r| <= |bs|
  {
    Filter(bs, (b: Backend) => b.alive)
  }

  // ---------------------------------------------------------------- round-robin

  /**
   * The counter is bumped with uint64 wrap-around and the pick is
   * `alive[(counter_after - 1) % len(alive)]`, computed with uint64
   * subtraction; with no alive backend nothing changes.
   */
  function RoundRobinNext(current: u64, bs: seq<Backend>): (r: (Option<Backend>, u64))
    ensures r.0.None? <==> |AliveBackends(bs)| == 0
    ensures r.0.None? ==> r.1 == current
    ensures r.0.Some? ==> r.1 as int == (current as int + 1) % TwoTo64
    ensures r.0.Some? ==> r.0.value == AliveBackends(bs)[current as int % |AliveBackends(bs)|]
  {
    var alive := AliveBackends(bs);
    if |alive| == 0 then (None, current)
    else
      var next := (current as int + 1) % TwoTo64;
      var index := (next - 1) % TwoTo64 % |alive|;
      assert (next - 1) % TwoTo64 == current as int by {
        if current as int + 1 < TwoTo64 {
          assert next == current as int + 1;
        } else {
          assert next == 0;
        }
      }
      (Some(alive[index]), next as u64)
  }

  /** Adding to a remainder and reducing again is adding first and reducing once. */
  lemma ModAddMod(a: nat, m: nat, n: nat)
    requires n > 0
    ensures (a % n + m) % n == (a + m) % n
  {
    var q, r := a / n, a % n;
    var q2, r2 := (r + m) / n, (r + m) % n;
    assert (q + q2) * n == q * n + q2 * n;
    DivModUnique(a + m, n, q + q2, r2);
  }

  /** The backend the `j`-th call after counter `current` picks: uint64 wrap-around, then modulo. */
  function RoundRobinPick(current: u64, alive: seq<Backend>, j: nat): Backend
    requires |alive| > 0
  {
    alive[(current as int + j) % TwoTo64 % |alive|]
  }

  /** The first call picks `alive[current % len]`: a uint64 counter needs no reduction. */
  lemma RoundRobinPickFirst(current: u64, alive: seq<Backend>)
    requires |alive| > 0
    ensures RoundRobinPick(current, alive, 0) == alive[current as int % |alive|]
  {
    DivModUnique(current as int, TwoTo64, 0, current as int);
  }

  /** Bumping the counter once shifts a later pick by one call. */
  lemma RoundRobinPickShift(current: u64, next: u64, alive: seq<Backend>, j: nat)
    requires |alive| > 0 && next as int == (current as int + 1) % TwoTo64
    ensures RoundRobinPick(next, alive, j) == RoundRobinPick(current, alive, j + 1)
  {
    ModAddMod(current as int + 1, j, TwoTo64);
  }

  /**
   * The picks of `k` consecutive round-robin calls on the same backends:
   * call `j` picks `alive[((current + j) mod 2^64) % len(alive)]` and the
   * counter ends `k` further on, both with uint64 wrap-around; with no
   * alive backend every call returns nil and the counter stays.
   */
  function RoundRobinRun(current: u64, bs: seq<Backend>, k: nat): (r: (seq<Option<Backend>>, u64))
    ensures |r.0| == k
    ensures |AliveBackends(bs)| == 0 ==> r.1 == current && forall j :: 0 <= j < k ==> r.0[j].None?
    ensures |AliveBackends(bs)| > 0 ==> r.1 as int == (current as int + k) % TwoTo64
    ensures |AliveBackends(bs)| > 0 ==> forall j :: 0 <= j < k ==>
      r.0[j] == Some(RoundRobinPick(current, AliveBackends(bs), j))
    decreases k
  {
    if k == 0 then ([], current)
    else
      var step := RoundRobinNext(current, bs);
      var rest := RoundRobinRun(step.1, bs, k - 1);
      if |AliveBackends(bs)| == 0 then ([step.0] + rest.0, rest.1)
      else
        RoundRobinRunCons(current, AliveBackends(bs), k, step.1, rest.0, rest.1);
        ([step.0] + rest.0, rest.1)
  }

  /** One call followed by the run of the remaining `k - 1` calls from the bumped counter is the run of `k` calls. */
  lemma RoundRobinRunCons(current: u64, alive: seq<Backend>, k: nat, next: u64, rest: seq<Option<Backend>>, last: u64)
    requires |alive| > 0 && k > 0
    requires next as int == (current as int + 1) % TwoTo64
    requires |rest| == k - 1 && last as int == (next as int + (k - 1)) % TwoTo64
    requires forall j :: 0 <= j < k - 1 ==> rest[j] == Some(RoundRobinPick(next, alive, j))
    ensures last as int == (current as int + k) % TwoTo64
    ensures forall j :: 0 <= j < k ==>
      ([Some(alive[current as int % |alive|])] + rest)[j] == Some(RoundRobinPick(current, alive, j))
  {
    var run := [Some(alive[current as int % |alive|])] + rest;
    forall j | 0 <= j < k
      ensures run[j] == Some(RoundRobinPick(current, alive, j))
    {
      if j == 0 {
        RoundRobinPickFirst(current, alive);
      } else {
        assert run[j] == rest[j - 1];
        RoundRobinPickShift(current, next, alive, j - 1);
      }
    }
    assert last as int == (current as int + k) % TwoTo64 by {
      ModAddMod(current as int + 1, k - 1, TwoTo64);
    }
  }

  /** `Some` around every element. */
  function Somes(s: seq<Backend>): (r: seq<Option<Backend>>)
    ensures |r| == |s| && forall i :: 0 <= i < |s| ==> r[i] == Some(s[i])
  {
    seq(|s|, i requires 0 <= i < |s| => Some(s[i]))
  }

  lemma {:induction false} MulAtLeast(d: int, n: int)
    requires n > 0 && d >= 1
    ensures d * n >= n
    decreases d
  {
    if d > 1 {
      MulAtLeast(d - 1, n);
      assert d * n == (d - 1) * n + n;
    }
  }

  /** Euclidean division is unique: any `q * n + r` with `0 <= r < n` fixes quotient and remainder. */
  lemma DivModUnique(a: int, n: int, q: int, r: int)
    requires n > 0 && 0 <= r < n && a == q * n + r
    ensures a % n == r && a / n == q
  {
    var q' := a / n;
    var r' := a % n;
    var d := q - q';
    assert d * n == q * n - q' * n;
    assert d * n == r' - r;
    if d >= 1 {
      MulAtLeast(d, n);
    } else if d <= -1 {
      MulAtLeast(-d, n);
    }
  }

  /** `(c + j) % n` for a small offset, spelled out without `%` on the sum. */
  lemma ModOffset(c: nat, j: nat, n: nat)
    requires n > 0 && j < n
    ensures c % n + j < n ==> (c + j) % n == c % n + j
    ensures c % n + j >= n ==> (c + j) % n == c % n + j - n
  {
    var q := c / n;
    var m := c % n;
    if m + j < n {
      DivModUnique(c + j, n, q, m + j);
    } else {
      assert (q + 1) * n == q * n + n;
      DivModUnique(c + j, n, q + 1, m + j - n);
    }
  }

  /**
   * Fairness: `len(alive)` consecutive calls without counter wrap-around
   * return the alive backends as a rotation starting at `current % len`,
   * so each alive backend is returned exactly once.
   */
  lemma RoundRobinVisitsEachOnce(current: u64, bs: seq<Backend>)
    requires |AliveBackends(bs)| > 0
    requires current as int + |AliveBackends(bs)| <= TwoTo64
    ensures var alive := AliveBackends(bs);
      var m := current as int % |alive|;
      RoundRobinRun(current, bs, |alive|).0 == Somes(alive[m..] + alive[..m])
    ensures multiset(AliveBackends(bs)[current as int % |AliveBackends(bs)|..] + AliveBackends(bs)[..current as int % |AliveBackends(bs)|])
         == multiset(AliveBackends(bs))
  {
    var alive := AliveBackends(bs);
    var n := |alive|;
    var m := current as int % n;
    var run := RoundRobinRun(current, bs, n).0;
    var rot := alive[m..] + alive[..m];
    forall j | 0 <= j < n
      ensures run[j] == Some(rot[j])
    {
      assert run[j] == Some(RoundRobinPick(current, alive, j));
      RotationPick(current, alive, j);
    }
    assert alive == alive[..m] + alive[m..];
  }

  /** Without wrap-around, the `j`-th pick is the `j`-th element of the rotation starting at `current % len`. */
  lemma RotationPick(current: u64, alive: seq<Backend>, j: nat)
    requires |alive| > 0 && j < |alive|
    requires current as int + |alive| <= TwoTo64
    ensures var m := current as int % |alive|;
      RoundRobinPick(current, alive, j) == (alive[m..] + alive[..m])[j]
  {
    var n := |alive|;
    var m := current as int % n;
    DivModUnique(current as int + j, TwoTo64, 0, current as int + j);
    ModOffset(current as int, j, n);
    if m + j < n {
      assert (alive[m..] + alive[..m])[j] == alive[m + j];
    } else {
      assert (alive[m..] + alive[..m])[j] == alive[m + j - n];
    }
  }

  // ------------------------------------------------------ weighted round-robin

  /** Weights of zero or below count as 1. */
  function EffectiveWeight(w: int): (r: int)
    ensures r >= 1
    ensures w > 0 ==> r == w
    ensures w <= 0 ==> r == 1
  {
    if w <= 0 then 1 else w
  }

  /** A backend's current weight; a missing entry reads as Go's zero value. */
  function WeightOf(cw: map<nat, int>, id: nat): int
  {
    if id in cw then cw[id] else 0
  }

  /** The identities of a list of backends. */
  function IdSet(bs: seq<Backend>): set<nat>
    decreases |bs|
  {
    if |bs| == 0 then {} else {bs[0].id} + IdSet(bs[1..])
  }

  /** Every alive backend gets an entry, initially 0; no weight changes. */
  function InitWeights(cw: map<nat, int>, alive: seq<Backend>): (r: map<nat, int>)
    ensures r.Keys == cw.Keys + IdSet(alive)
    ensures forall id :: WeightOf(r, id) == WeightOf(cw, id)
    decreases |alive|
  {
    if |alive| == 0 then cw
    else
      InitWeights(if alive[0].id in cw then cw else cw[alive[0].id := 0], alive[1..])
  }

  /**
   * How the scan compares a raised weight against the best so far:
   * `SentinelMinusOne` is the source's `maxWeight := -1` start, under
   * which a raised weight of -1 or less is never selected;
   * `FirstCandidate` always accepts the first backend.
   */
  datatype MaxRule = SentinelMinusOne | FirstCandidate

  datatype ScanState = ScanState(weights: map<nat, int>, maxWeight: int, selected: Option<nat>, total: int)

  /** Visiting `alive[i]`: raise its current weight and keep it if it beats the best so far. */
  function ScanStep(rule: MaxRule, alive: seq<Backend>, i: nat, st: ScanState): (r: ScanState)
    requires i < |alive|
    requires st.selected.Some? ==> st.selected.value < i
    ensures r.selected.Some? ==> r.selected.value < i + 1
  {
    var b := alive[i];
    var w := EffectiveWeight(b.weight);
    var c := WeightOf(st.weights, b.id) + w;
    var weights := st.weights[b.id := c];
    if (rule == FirstCandidate && st.selected.None?) || c > st.maxWeight then ScanState(weights, c, Some(i), st.total + w)
    else ScanState(weights, st.maxWeight, st.selected, st.total + w)
  }

  /** The scan's state after visiting the first `n` alive backends, starting from the weights with missing entries set to 0. */
  function ScanPrefix(rule: MaxRule, cw: map<nat, int>, alive: seq<Backend>, n: nat): (r: ScanState)
    requires n <= |alive|
    ensures r.selected.Some? ==> r.selected.value < n
  {
    if n == 0 then ScanState(InitWeights(cw, alive), -1, None, 0)
    else ScanStep(rule, alive, n - 1, ScanPrefix(rule, cw, alive, n - 1))
  }

  /** The scan of every alive backend. */
  function FullScan(rule: MaxRule, cw: map<nat, int>, alive: seq<Backend>): (r: ScanState)
    ensures r.selected.Some? ==> r.selected.value < |alive|
  {
    ScanPrefix(rule, cw, alive, |alive|)
  }

  /**
   * The weighted step on the alive backends, by position: the index
   * picked, if any, and the new current weights. The selected entry gives
   * back the total of the effective weights.
   */
  function WeightedPick(rule: MaxRule, cw: map<nat, int>, alive: seq<Backend>): (r: (Option<nat>, map<nat, int>))
    ensures r.0.Some? ==> r.0.value < |alive|
    ensures |alive| == 0 ==> r == (None, cw)
  {
    if |alive| == 0 then (None, cw)
    else
      var st := FullScan(rule, cw, alive);
      match st.selected
      case None => (None, st.weights)
      case Some(k) =>
        var id := alive[k].id;
        (Some(k), st.weights[id := WeightOf(st.weights, id) - st.total])
  }

  function WeightedNextWith(rule: MaxRule, cw: map<nat, int>, bs: seq<Backend>): (r: (Option<Backend>, map<nat, int>))
    ensures r.0.Some? ==> r.0.value in bs && r.0.value.alive
    ensures |AliveBackends(bs)| == 0 ==> r == (None, cw)
  {
    var alive := AliveBackends(bs);
    var (k, weights) := WeightedPick(rule, cw, alive);
    match k
    case None => (None, weights)
    case Some(i) => (Some(alive[i]), weights)
  }

  /** The weighted step exactly as the source writes it. */
  function WeightedNextAsWritten(cw: map<nat, int>, bs: seq<Backend>): (r: (Option<Backend>, map<nat, int>))
    ensures r.0.Some? ==> r.0.value in bs && r.0.value.alive
  {
    WeightedNextWith(SentinelMinusOne, cw, bs)
  }

  /** The weighted step with the maximum search seeded by the first candidate. */
  function WeightedNext(cw: map<nat, int>, bs: seq<Backend>): (r: (Option<Backend>, map<nat, int>))
    ensures r.0.Some? ==> r.0.value in bs && r.0.value.alive
  {
    WeightedNextWith(FirstCandidate, cw, bs)
  }

  predicate DistinctIds(bs: seq<Backend>)
  {
    forall i, j :: 0 <= i < j < |bs| ==> bs[i].id != bs[j].id
  }

  /** Current weight of `alive[j]` after its effective weight is added. */
  function Raised(cw: map<nat, int>, alive: seq<Backend>, j: nat): int
    requires j < |alive|
  {
    WeightOf(cw, alive[j].id) + EffectiveWeight(alive[j].weight)
  }

  function SumSeq(s: seq<int>): int
    decreases |s|
  {
    if |s| == 0 then 0 else SumSeq(s[..|s| - 1]) + s[|s| - 1]
  }

  function Effs(alive: seq<Backend>): (r: seq<int>)
    ensures |r| == |alive| && forall j :: 0 <= j < |alive| ==> r[j] == EffectiveWeight(alive[j].weight)
  {
    seq(|alive|, j requires 0 <= j < |alive| => EffectiveWeight(alive[j].weight))
  }

  /** Sum of effective weights: what the selected backend gives back. */
  function TotalWeight(alive: seq<Backend>): int
  {
    SumSeq(Effs(alive))
  }

  /** `k` is the first position of the strict maximum among the raised weights. */
  ghost predicate FirstMax(cw: map<nat, int>, alive: seq<Backend>, k: nat)
  {
    && k < |alive|
    && (forall j :: 0 <= j < |alive| ==> Raised(cw, alive, j) <= Raised(cw, alive, k))
    && (forall j :: 0 <= j < k ==> Raised(cw, alive, j) < Raised(cw, alive, k))
  }

  /** What the scan has done to the weights by position `i`, for a scan started on `cw0`. */
  ghost predicate WeightsInv(alive: seq<Backend>, cw0: map<nat, int>, i: nat, st: ScanState)
    requires i <= |alive|
  {
    && (forall j {:trigger WeightOf(st.weights, alive[j].id)} :: 0 <= j < i ==> WeightOf(st.weights, alive[j].id) == Raised(cw0, alive, j))
    && (forall j {:trigger WeightOf(st.weights, alive[j].id)} :: i <= j < |alive| ==> WeightOf(st.weights, alive[j].id) == WeightOf(cw0, alive[j].id))
    && (forall id :: id !in IdSet(alive) ==> WeightOf(st.weights, id) == WeightOf(cw0, id))
    && st.total == SumSeq(Effs(alive)[..i])
  }

  /** The selection made among the first `i` raised weights. */
  ghost predicate SelectInv(rule: MaxRule, alive: seq<Backend>, cw0: map<nat, int>, i: nat, st: ScanState)
    requires i <= |alive|
  {
    && (st.selected.None? ==>
          (rule == SentinelMinusOne ==> st.maxWeight == -1 && forall j :: 0 <= j < i ==> Raised(cw0, alive, j) <= -1)
          && (rule == FirstCandidate ==> i == 0))
    && (st.selected.Some? ==>
          var k := st.selected.value;
          && k < i
          && st.maxWeight == Raised(cw0, alive, k)
          && (rule == SentinelMinusOne ==> Raised(cw0, alive, k) > -1)
          && (forall j :: 0 <= j < i ==> Raised(cw0, alive, j) <= Raised(cw0, alive, k))
          && (forall j :: 0 <= j < k ==> Raised(cw0, alive, j) < Raised(cw0, alive, k)))
  }

  lemma WeightsStep(rule: MaxRule, alive: seq<Backend>, cw0: map<nat, int>, i: nat, st: ScanState)
    requires DistinctIds(alive)
    requires i < |alive|
    requires st.selected.Some? ==> st.selected.value < i
    requires WeightsInv(alive, cw0, i, st)
    ensures WeightsInv(alive, cw0, i + 1, ScanStep(rule, alive, i, st))
  {
    var st' := ScanStep(rule, alive, i, st);
    ScanStepRaises(rule, alive, i, st);
    DistinctAt(alive, i);
    WeightsRaise(alive, cw0, i, st, st');
  }

  /** The visit raises exactly `alive[i]`'s current weight and adds its effective weight to the total. */
  lemma ScanStepRaises(rule: MaxRule, alive: seq<Backend>, i: nat, st: ScanState)
    requires i < |alive|
    requires st.selected.Some? ==> st.selected.value < i
    ensures var st' := ScanStep(rule, alive, i, st);
      var w := EffectiveWeight(alive[i].weight);
      st' == ScanState(st.weights[alive[i].id := WeightOf(st.weights, alive[i].id) + w], st'.maxWeight, st'.selected, st.total + w)
  {
  }

  /** With distinct identities no other position shares `alive[i]`'s. */
  lemma DistinctAt(alive: seq<Backend>, i: nat)
    requires DistinctIds(alive)
    requires i < |alive|
    ensures forall j :: 0 <= j < |alive| && j != i ==> alive[j].id != alive[i].id
  {
    forall j | 0 <= j < |alive| && j != i
      ensures alive[j].id != alive[i].id
    {
      if j < i {
        assert alive[j].id != alive[i].id;
      } else {
        assert alive[i].id != alive[j].id;
      }
    }
  }

  /** Raising `alive[i]` and adding its effective weight to the total extends the weights invariant by one position. */
  lemma WeightsRaise(alive: seq<Backend>, cw0: map<nat, int>, i: nat, st: ScanState, after: ScanState)
    requires i < |alive|
    requires forall j :: 0 <= j < |alive| && j != i ==> alive[j].id != alive[i].id
    requires WeightsInv(alive, cw0, i, st)
    requires after.weights == st.weights[alive[i].id := WeightOf(st.weights, alive[i].id) + EffectiveWeight(alive[i].weight)]
    requires after.total == st.total + EffectiveWeight(alive[i].weight)
    ensures WeightsInv(alive, cw0, i + 1, after)
  {
    RaisedPrefix(alive, cw0, i, st.weights, after.weights);
    RaisedSuffix(alive, cw0, i, st.weights, after.weights);
    IdInIdSet(alive, i);
    RaisedOthers(IdSet(alive), cw0, alive[i].id, WeightOf(st.weights, alive[i].id) + EffectiveWeight(alive[i].weight), st.weights, after.weights);
    TotalStep(alive, i);
  }

  /** After the raise, the visited positions hold their raised weights. */
  lemma RaisedPrefix(alive: seq<Backend>, cw0: map<nat, int>, i: nat, before: map<nat, int>, after: map<nat, int>)
    requires i < |alive|
    requires forall j :: 0 <= j < |alive| && j != i ==> alive[j].id != alive[i].id
    requires after == before[alive[i].id := WeightOf(before, alive[i].id) + EffectiveWeight(alive[i].weight)]
    requires forall j :: 0 <= j < i ==> WeightOf(before, alive[j].id) == Raised(cw0, alive, j)
    requires forall j :: i <= j < |alive| ==> WeightOf(before, alive[j].id) == WeightOf(cw0, alive[j].id)
    ensures forall j :: 0 <= j < i + 1 ==> WeightOf(after, alive[j].id) == Raised(cw0, alive, j)
  {
  }

  /** After the raise, the positions not yet visited keep their starting weights. */
  lemma RaisedSuffix(alive: seq<Backend>, cw0: map<nat, int>, i: nat, before: map<nat, int>, after: map<nat, int>)
    requires i < |alive|
    requires forall j :: 0 <= j < |alive| && j != i ==> alive[j].id != alive[i].id
    requires after == before[alive[i].id := WeightOf(before, alive[i].id) + EffectiveWeight(alive[i].weight)]
    requires forall j :: i <= j < |alive| ==> WeightOf(before, alive[j].id) == WeightOf(cw0, alive[j].id)
    ensures forall j :: i + 1 <= j < |alive| ==> WeightOf(after, alive[j].id) == WeightOf(cw0, alive[j].id)
  {
  }

  /** Raising a listed identity leaves every unlisted identity's weight alone. */
  lemma RaisedOthers(ids: set<nat>, cw0: map<nat, int>, id0: nat, c: int, before: map<nat, int>, after: map<nat, int>)
    requires id0 in ids
    requires after == before[id0 := c]
    requires forall id :: id !in ids ==> WeightOf(before, id) == WeightOf(cw0, id)
    ensures forall id :: id !in ids ==> WeightOf(after, id) == WeightOf(cw0, id)
  {
    forall id | id !in ids
      ensures WeightOf(after, id) == WeightOf(cw0, id)
    {
      assert id != id0;
    }
  }

  /** A listed backend's identity is among the list's identities. */
  lemma {:induction false} IdInIdSet(alive: seq<Backend>, i: nat)
    requires i < |alive|
    ensures alive[i].id in IdSet(alive)
    decreases i
  {
    if i > 0 {
      IdInIdSet(alive[1..], i - 1);
    }
  }

  /** The running total of effective weights grows by the visited backend's. */
  lemma TotalStep(alive: seq<Backend>, i: nat)
    requires i < |alive|
    ensures SumSeq(Effs(alive)[..i + 1]) == SumSeq(Effs(alive)[..i]) + EffectiveWeight(alive[i].weight)
  {
    assert Effs(alive)[..i + 1][..i] == Effs(alive)[..i];
  }

  lemma SelectStep(rule: MaxRule, alive: seq<Backend>, cw0: map<nat, int>, i: nat, st: ScanState)
    requires i < |alive|
    requires st.selected.Some? ==> st.selected.value < i
    requires WeightOf(st.weights, alive[i].id) == WeightOf(cw0, alive[i].id)
    requires SelectInv(rule, alive, cw0, i, st)
    ensures SelectInv(rule, alive, cw0, i + 1, ScanStep(rule, alive, i, st))
  {
    assert WeightOf(st.weights, alive[i].id) + EffectiveWeight(alive[i].weight) == Raised(cw0, alive, i);
  }

  /** Both invariants of the scan at position `i`. */
  ghost predicate ScanInv(rule: MaxRule, alive: seq<Backend>, cw0: map<nat, int>, i: nat, st: ScanState)
  {
    && i <= |alive|
    && (st.selected.Some? ==> st.selected.value < i)
    && WeightsInv(alive, cw0, i, st)
    && SelectInv(rule, alive, cw0, i, st)
  }

  lemma {:induction false} ScanCorrect(rule: MaxRule, cw: map<nat, int>, alive: seq<Backend>, n: nat) returns (st: ScanState)
    requires DistinctIds(alive)
    requires n <= |alive|
    ensures st == ScanPrefix(rule, cw, alive, n)
    ensures ScanInv(rule, alive, cw, n, st)
  {
    if n == 0 {
      ScanStart(rule, cw, alive);
      st := ScanState(InitWeights(cw, alive), -1, None, 0);
    } else {
      var prev := ScanCorrect(rule, cw, alive, n - 1);
      ScanStepInv(rule, alive, cw, n - 1, n, prev);
      st := ScanStep(rule, alive, n - 1, prev);
    }
  }

  /** One visit of the scan keeps both invariants. */
  lemma ScanStepInv(rule: MaxRule, alive: seq<Backend>, cw: map<nat, int>, i: nat, n: nat, st: ScanState)
    requires DistinctIds(alive)
    requires i < |alive| && n == i + 1
    requires ScanInv(rule, alive, cw, i, st)
    ensures ScanInv(rule, alive, cw, n, ScanStep(rule, alive, i, st))
  {
    WeightsStep(rule, alive, cw, i, st);
    SelectStep(rule, alive, cw, i, st);
  }

  /** The scan's selection: the first strict maximum, or nothing exactly when the sentinel beats every raised weight. */
  lemma FullScanSelect(rule: MaxRule, cw: map<nat, int>, alive: seq<Backend>)
    requires DistinctIds(alive)
    requires |alive| > 0
    ensures var st := FullScan(rule, cw, alive);
      && (st.selected.Some? ==> FirstMax(cw, alive, st.selected.value))
      && (st.selected.None? <==> rule == SentinelMinusOne && forall j :: 0 <= j < |alive| ==> Raised(cw, alive, j) <= -1)
  {
    var st := ScanCorrect(rule, cw, alive, |alive|);
  }

  /** The scan raises every alive weight, touches no other entry and sums the effective weights. */
  lemma FullScanWeights(rule: MaxRule, cw: map<nat, int>, alive: seq<Backend>)
    requires DistinctIds(alive)
    ensures var st := FullScan(rule, cw, alive);
      && (forall j :: 0 <= j < |alive| ==> WeightOf(st.weights, alive[j].id) == Raised(cw, alive, j))
      && (forall id :: id !in IdSet(alive) ==> WeightOf(st.weights, id) == WeightOf(cw, id))
      && st.total == TotalWeight(alive)
  {
    var st := ScanCorrect(rule, cw, alive, |alive|);
    assert Effs(alive)[..|alive|] == Effs(alive);
  }

  lemma ScanStart(rule: MaxRule, cw: map<nat, int>, alive: seq<Backend>)
    ensures ScanInv(rule, alive, cw, 0, ScanState(InitWeights(cw, alive), -1, None, 0))
  {
    assert Effs(alive)[..0] == [];
  }

  /**
   * The weighted step picks the first position whose raised weight is
   * strictly greatest. Under the source's sentinel it picks nothing
   * exactly when every raised weight is -1 or less; seeded by the first
   * candidate it always picks when some backend is alive.
   */
  lemma PickSelection(rule: MaxRule, cw: map<nat, int>, alive: seq<Backend>)
    requires DistinctIds(alive)
    ensures var r := WeightedPick(rule, cw, alive);
      && (r.0.None? <==> |alive| == 0 || (rule == SentinelMinusOne && forall j :: 0 <= j < |alive| ==> Raised(cw, alive, j) <= -1))
      && (r.0.Some? ==> FirstMax(cw, alive, r.0.value))
  {
    if |alive| > 0 {
      FullScanSelect(rule, cw, alive);
    }
  }

  /**
   * The weighted step raises every alive backend's current weight by its
   * effective weight, takes the total back from the picked one only, and
   * leaves every other entry alone.
   */
  lemma PickUpdate(rule: MaxRule, cw: map<nat, int>, alive: seq<Backend>)
    requires DistinctIds(alive)
    ensures var r := WeightedPick(rule, cw, alive);
      && (forall j :: 0 <= j < |alive| ==>
            WeightOf(r.1, alive[j].id) == Raised(cw, alive, j) - (if r.0 == Some(j) then TotalWeight(alive) else 0))
      && (forall id :: id !in IdSet(alive) ==> WeightOf(r.1, id) == WeightOf(cw, id))
  {
    if |alive| > 0 {
      var st := FullScan(rule, cw, alive);
      FullScanWeights(rule, cw, alive);
      if st.selected.Some? {
        SelectedUpdate(cw, alive, st.weights, st.selected.value, st.total);
      }
    }
  }

  /** `PickSelection` for the step on the whole backend list. */
  lemma WeightedSelection(rule: MaxRule, cw: map<nat, int>, bs: seq<Backend>)
    requires DistinctIds(AliveBackends(bs))
    ensures var alive := AliveBackends(bs);
      var r := WeightedNextWith(rule, cw, bs);
      && (r.0.None? <==> |alive| == 0 || (rule == SentinelMinusOne && forall j :: 0 <= j < |alive| ==> Raised(cw, alive, j) <= -1))
      && (r.0.Some? ==> exists k: nat :: FirstMax(cw, alive, k) && r.0.value == alive[k])
  {
    var alive := AliveBackends(bs);
    PickSelection(rule, cw, alive);
    var p := WeightedPick(rule, cw, alive);
    if p.0.Some? {
      assert FirstMax(cw, alive, p.0.value);
    }
  }

  /** `PickUpdate` for the step on the whole backend list. */
  lemma WeightedUpdate(rule: MaxRule, cw: map<nat, int>, bs: seq<Backend>)
    requires DistinctIds(AliveBackends(bs))
    ensures var alive := AliveBackends(bs);
      var r := WeightedNextWith(rule, cw, bs);
      && (forall j :: 0 <= j < |alive| ==>
            WeightOf(r.1, alive[j].id) == Raised(cw, alive, j) - (if r.0 == Some(alive[j]) then TotalWeight(alive) else 0))
      && (forall id :: id !in IdSet(alive) ==> WeightOf(r.1, id) == WeightOf(cw, id))
  {
    var alive := AliveBackends(bs);
    PickUpdate(rule, cw, alive);
    var p := WeightedPick(rule, cw, alive);
    var r := WeightedNextWith(rule, cw, bs);
    forall j | 0 <= j < |alive|
      ensures r.0 == Some(alive[j]) <==> p.0 == Some(j)
    {
      if p.0.Some? && p.0.value != j {
        assert alive[p.0.value].id != alive[j].id;
      }
    }
  }

  /** Taking the total back from `alive[k]` alone, with identities distinct. */
  lemma SelectedUpdate(cw: map<nat, int>, alive: seq<Backend>, weights: map<nat, int>, k: nat, total: int)
    requires DistinctIds(alive)
    requires k < |alive|
    requires forall j :: 0 <= j < |alive| ==> WeightOf(weights, alive[j].id) == Raised(cw, alive, j)
    ensures var m := weights[alive[k].id := WeightOf(weights, alive[k].id) - total];
      && (forall j :: 0 <= j < |alive| ==>
            WeightOf(m, alive[j].id) == Raised(cw, alive, j) - (if Some(k) == Some(j) then total else 0))
      && (forall id :: id != alive[k].id ==> WeightOf(m, id) == WeightOf(weights, id))
  {
    forall j | 0 <= j < |alive| && j != k
      ensures alive[j] != alive[k]
    {
      assert alive[j].id != alive[k].id;
    }
  }

  /** Sum of current weights over the given backends. */
  function SumWeights(cw: map<nat, int>, alive: seq<Backend>): int
  {
    SumSeq(Currents(cw, alive))
  }

  /** The current weights of the alive backends, in order. */
  function Currents(cw: map<nat, int>, alive: seq<Backend>): (r: seq<int>)
    ensures |r| == |alive| && forall j :: 0 <= j < |alive| ==> r[j] == WeightOf(cw, alive[j].id)
  {
    seq(|alive|, j requires 0 <= j < |alive| => WeightOf(cw, alive[j].id))
  }

  /** The raised weights of the alive backends, in order; they sum to the current weights plus the total. */
  function Raiseds(cw: map<nat, int>, alive: seq<Backend>): (r: seq<int>)
    ensures |r| == |alive| && forall j :: 0 <= j < |alive| ==> r[j] == Raised(cw, alive, j)
    ensures SumSeq(r) == SumWeights(cw, alive) + TotalWeight(alive)
  {
    var r := seq(|alive|, j requires 0 <= j < |alive| => Raised(cw, alive, j));
    SumSeqPointwise(Currents(cw, alive), Effs(alive), r);
    r
  }

  lemma {:induction false} SumSeqPointwise(a: seq<int>, b: seq<int>, c: seq<int>)
    requires |a| == |b| == |c|
    requires forall j :: 0 <= j < |a| ==> c[j] == a[j] + b[j]
    ensures SumSeq(c) == SumSeq(a) + SumSeq(b)
    decreases |a|
  {
    if |a| > 0 {
      var n := |a| - 1;
      SumSeqPointwise(a[..n], b[..n], c[..n]);
    }
  }

  lemma {:induction false} SumSeqUpdate(a: seq<int>, k: nat, d: int)
    requires k < |a|
    ensures SumSeq(a[k := a[k] + d]) == SumSeq(a) + d
    decreases |a|
  {
    var n := |a| - 1;
    var a' := a[k := a[k] + d];
    if k < n {
      assert a'[..n] == a[..n][k := a[k] + d];
      SumSeqUpdate(a[..n], k, d);
    } else {
      assert a'[..n] == a[..n];
    }
  }

  lemma {:induction false} SumSeqAllNegative(s: seq<int>)
    requires forall j :: 0 <= j < |s| ==> s[j] <= -1
    ensures SumSeq(s) <= -|s|
    decreases |s|
  {
    if |s| > 0 {
      SumSeqAllNegative(s[..|s| - 1]);
    }
  }

  lemma {:induction false} SumSeqAtLeastLength(s: seq<int>)
    requires forall j :: 0 <= j < |s| ==> s[j] >= 1
    ensures SumSeq(s) >= |s|
    decreases |s|
  {
    if |s| > 0 {
      SumSeqAtLeastLength(s[..|s| - 1]);
    }
  }

  /**
   * A step that selects leaves the sum of current weights over the alive
   * backends unchanged: the total added is exactly the total taken back.
   */
  lemma WeightedConservesSum(rule: MaxRule, cw: map<nat, int>, bs: seq<Backend>)
    requires DistinctIds(AliveBackends(bs))
    requires WeightedNextWith(rule, cw, bs).0.Some?
    ensures SumWeights(WeightedNextWith(rule, cw, bs).1, AliveBackends(bs)) == SumWeights(cw, AliveBackends(bs))
  {
    var alive := AliveBackends(bs);
    var p := WeightedPick(rule, cw, alive);
    PickUpdate(rule, cw, alive);
    SumAfterSelect(cw, alive, p.1, p.0.value);
  }

  /** Raising every weight and taking the total back from one leaves the sum unchanged. */
  lemma SumAfterSelect(cw: map<nat, int>, alive: seq<Backend>, m: map<nat, int>, k: nat)
    requires k < |alive|
    requires forall j :: 0 <= j < |alive| ==>
      WeightOf(m, alive[j].id) == Raised(cw, alive, j) - (if j == k then TotalWeight(alive) else 0)
    ensures SumWeights(m, alive) == SumWeights(cw, alive)
  {
    var raised := Raiseds(cw, alive);
    assert Currents(m, alive) == raised[k := raised[k] + -TotalWeight(alive)];
    SumSeqUpdate(raised, k, -TotalWeight(alive));
  }

  /** The picks of `m` consecutive as-written weighted calls on the same backends. */
  function WeightedRunAsWritten(cw: map<nat, int>, bs: seq<Backend>, m: nat): (r: seq<Option<Backend>>)
    ensures |r| == m
    decreases m
  {
    if m == 0 then []
    else
      var (pick, cw') := WeightedNextAsWritten(cw, bs);
      [pick] + WeightedRunAsWritten(cw', bs, m - 1)
  }

  /**
   * On a fixed alive set whose current weights sum to zero (in
   * particular from the empty map), every call of the source's weighted
   * step selects a backend: the raised weights sum to the total, which is
   * positive, so one of them exceeds the -1 sentinel.
   */
  lemma {:induction false} WeightedBalancedRunAlwaysSelects(cw: map<nat, int>, bs: seq<Backend>, m: nat)
    requires |AliveBackends(bs)| > 0
    requires DistinctIds(AliveBackends(bs))
    requires SumWeights(cw, AliveBackends(bs)) == 0
    ensures None !in WeightedRunAsWritten(cw, bs, m)
    decreases m
  {
    if m > 0 {
      var step := WeightedNextAsWritten(cw, bs);
      BalancedStep(cw, bs);
      WeightedBalancedRunAlwaysSelects(step.1, bs, m - 1);
      assert WeightedRunAsWritten(cw, bs, m) == [step.0] + WeightedRunAsWritten(step.1, bs, m - 1);
    }
  }

  /** A balanced call selects and leaves the weights balanced. */
  lemma BalancedStep(cw: map<nat, int>, bs: seq<Backend>)
    requires |AliveBackends(bs)| > 0
    requires DistinctIds(AliveBackends(bs))
    requires SumWeights(cw, AliveBackends(bs)) == 0
    ensures WeightedNextAsWritten(cw, bs).0.Some?
    ensures SumWeights(WeightedNextAsWritten(cw, bs).1, AliveBackends(bs)) == 0
  {
    BalancedSelects(cw, bs);
    WeightedConservesSum(SentinelMinusOne, cw, bs);
  }

  /** One balanced call under the sentinel selects: some raised weight exceeds -1. */
  lemma BalancedSelects(cw: map<nat, int>, bs: seq<Backend>)
    requires |AliveBackends(bs)| > 0
    requires DistinctIds(AliveBackends(bs))
    requires SumWeights(cw, AliveBackends(bs)) == 0
    ensures WeightedNextAsWritten(cw, bs).0.Some?
  {
    var alive := AliveBackends(bs);
    var j := SomeRaisedAboveSentinel(cw, alive);
    PickSelection(SentinelMinusOne, cw, alive);
  }

  /** When the current weights sum to zero, some raised weight is at least 0. */
  lemma SomeRaisedAboveSentinel(cw: map<nat, int>, alive: seq<Backend>) returns (j: nat)
    requires |alive| > 0
    requires SumWeights(cw, alive) == 0
    ensures j < |alive| && Raised(cw, alive, j) > -1
  {
    var raised := Raiseds(cw, alive);
    SumSeqAtLeastLength(Effs(alive));
    if forall i :: 0 <= i < |alive| ==> raised[i] <= -1 {
      SumSeqAllNegative(raised);
      assert false;
    }
    j :| 0 <= j < |alive| && raised[j] > -1;
  }

  /** With the first candidate as seed, a weighted call selects whenever some backend is alive. */
  lemma WeightedNextTotal(cw: map<nat, int>, bs: seq<Backend>)
    requires DistinctIds(AliveBackends(bs))
    ensures WeightedNext(cw, bs).0.None? <==> |AliveBackends(bs)| == 0
  {
    PickSelection(FirstCandidate, cw, AliveBackends(bs));
  }

  /** A fresh weight-1 backend with identity `id`. */
  function WeightOne(id: nat): (b: Backend)
    ensures b.id == id && b.weight == 1 && b.alive
  {
    Backend(id, "http://backend", 1, true, 0, 0, 0, false, DefaultMaxConsecutiveErrors, DefaultCircuitTimeout)
  }

  function Trio(): seq<Backend>
  {
    [WeightOne(0), WeightOne(1), WeightOne(2)]
  }

  /** The same three backends after the second and third went down. */
  function TrioLater(): seq<Backend>
  {
    [WeightOne(0), WeightOne(1).(alive := false), WeightOne(2).(alive := false)]
  }

  lemma TrioAlive()
    ensures AliveBackends(Trio()) == Trio()
    ensures AliveBackends(TrioLater()) == [WeightOne(0)]
  {
    var p := (b: Backend) => b.alive;
    FilterAll(Trio(), p);
    var later := TrioLater();
    assert later == [later[0]] + later[1..];
    FilterAppend([later[0]], later[1..], p);
    FilterNone(later[1..], p);
    FilterAll([later[0]], p);
  }

  /** From no recorded weights the source's step picks the first of the trio and leaves it at -2. */
  lemma TrioFirstCall()
    ensures WeightedNextAsWritten(map[], Trio()).0 == Some(WeightOne(0))
    ensures WeightOf(WeightedNextAsWritten(map[], Trio()).1, 0) == -2
  {
    TrioAlive();
    TrioPick();
  }

  /** The index-level step on the trio: position 0, left at 1 - 3. */
  lemma TrioPick()
    ensures WeightedPick(SentinelMinusOne, map[], Trio()).0 == Some(0)
    ensures WeightOf(WeightedPick(SentinelMinusOne, map[], Trio()).1, 0) == -2
  {
    TrioTotal();
    TrioFirstMax();
    PickAtFirstMax(SentinelMinusOne, map[], Trio(), 0);
  }

  /** When position `k` is the first maximum and beats the sentinel, the step picks it and takes the total off it. */
  lemma PickAtFirstMax(rule: MaxRule, cw: map<nat, int>, alive: seq<Backend>, k: nat)
    requires DistinctIds(alive)
    requires FirstMax(cw, alive, k) && Raised(cw, alive, k) > -1
    ensures WeightedPick(rule, cw, alive).0 == Some(k)
    ensures WeightOf(WeightedPick(rule, cw, alive).1, alive[k].id) == Raised(cw, alive, k) - TotalWeight(alive)
  {
    PickSelection(rule, cw, alive);
    FirstMaxUnique(cw, alive, WeightedPick(rule, cw, alive).0.value, k);
    PickUpdate(rule, cw, alive);
  }

  lemma TrioFirstMax()
    ensures FirstMax(map[], Trio(), 0)
    ensures Raised(map[], Trio(), 0) == 1
  {
    var bs := Trio();
    assert Raised(map[], bs, 0) == 1 && Raised(map[], bs, 1) == 1 && Raised(map[], bs, 2) == 1;
  }

  /** The first position of the maximum is unique. */
  lemma FirstMaxUnique(cw: map<nat, int>, alive: seq<Backend>, k: nat, k': nat)
    requires FirstMax(cw, alive, k) && FirstMax(cw, alive, k')
    ensures k == k'
  {
    var a, a' := Raised(cw, alive, k), Raised(cw, alive, k');
    if k != k' {
      assert false;
    }
  }

  lemma TrioTotal()
    ensures TotalWeight(Trio()) == 3
  {
    var e := Effs(Trio());
    assert e[0] == 1 && e[1] == 1 && e[2] == 1;
    assert e == [1, 1, 1];
    var s: seq<int> := [1, 1, 1];
    assert s[..2] == [1, 1] && s[..2][..1] == [1] && s[..2][..1][..0] == [];
    assert SumSeq([1]) == 1;
    assert SumSeq([1, 1]) == 2;
    assert SumSeq(s) == 3;
  }

  /**
   * Three weight-1 backends, all alive, from no recorded weights: the
   * source's step picks the first and leaves it at -2. When the other
   * two then go down, its raised weight is -1, which does not beat the
   * -1 sentinel, so the source returns no backend although one is alive;
   * the first-candidate step returns it.
   */
  lemma WeightedSentinelStarves()
    ensures var first := WeightedNextAsWritten(map[], Trio());
      && first.0 == Some(Trio()[0])
      && |AliveBackends(TrioLater())| == 1
      && WeightedNextAsWritten(first.1, TrioLater()).0.None?
      && WeightedNext(first.1, TrioLater()).0 == Some(Trio()[0])
  {
    TrioAlive();
    TrioFirstCall();
    var cw := WeightedNextAsWritten(map[], Trio()).1;
    PickSelection(SentinelMinusOne, cw, [WeightOne(0)]);
    assert Raised(cw, [WeightOne(0)], 0) == -1;
    WeightedNextTotal(cw, TrioLater());
  }

  // ------------------------------------------------------- least-connections

  /** The source's scan with `-1` standing for "no minimum yet". */
  function LeastScan(bs: seq<Backend>, i: nat, minConnections: int, selected: Option<nat>): (r: Option<nat>)
    requires i <= |bs|
    requires selected.Some? ==> selected.value < i && bs[selected.value].alive
    ensures r.Some? ==> r.value < |bs| && bs[r.value].alive
    ensures (forall j :: i <= j < |bs| ==> !bs[j].alive) ==> r == selected
    decreases |bs| - i
  {
    if i == |bs| then selected
    else if !bs[i].alive then LeastScan(bs, i + 1, minConnections, selected)
    else if minConnections == -1 || bs[i].connections < minConnections then
      LeastScan(bs, i + 1, bs[i].connections, Some(i))
    else LeastScan(bs, i + 1, minConnections, selected)
  }

  function LeastConnectionsNext(bs: seq<Backend>): (r: Option<Backend>)
    ensures r.Some? ==> r.value in bs && r.value.alive
    ensures (forall b :: b in bs ==> !b.alive) ==> r.None?
  {
    match LeastScan(bs, 0, -1, None)
    case None => None
    case Some(k) => Some(bs[k])
  }

  /** `k` is the first alive position holding the fewest connections among alive backends. */
  ghost predicate FirstLeast(bs: seq<Backend>, k: nat)
  {
    && k < |bs| && bs[k].alive
    && (forall j :: 0 <= j < |bs| && bs[j].alive ==> bs[k].connections <= bs[j].connections)
    && (forall j :: 0 <= j < k && bs[j].alive ==> bs[k].connections < bs[j].connections)
  }

  /** Nothing exactly when no backend is alive, else the first alive backend with the fewest connections. */
  ghost predicate LeastResult(bs: seq<Backend>, r: Option<nat>)
  {
    && (r.None? <==> forall j :: 0 <= j < |bs| ==> !bs[j].alive)
    && (r.Some? ==> FirstLeast(bs, r.value))
  }

  /** What the scan has established after visiting positions `0..i`. */
  ghost predicate LeastInv(bs: seq<Backend>, i: nat, minConnections: int, selected: Option<nat>)
  {
    && i <= |bs|
    && (selected.None? ==> minConnections == -1 && forall j :: 0 <= j < i ==> !bs[j].alive)
    && (selected.Some? ==>
          var k := selected.value;
          && k < i && bs[k].alive && minConnections == bs[k].connections
          && (forall j :: 0 <= j < i && bs[j].alive ==> bs[k].connections <= bs[j].connections)
          && (forall j :: 0 <= j < k && bs[j].alive ==> bs[k].connections < bs[j].connections))
  }

  /** Each of the scan's three moves keeps the invariant. */
  lemma LeastStep(bs: seq<Backend>, i: nat, minConnections: int, selected: Option<nat>)
    requires forall j :: 0 <= j < |bs| && bs[j].alive ==> bs[j].connections >= 0
    requires i < |bs| && LeastInv(bs, i, minConnections, selected)
    ensures !bs[i].alive ==> LeastInv(bs, i + 1, minConnections, selected)
    ensures bs[i].alive && (minConnections == -1 || bs[i].connections < minConnections) ==>
      LeastInv(bs, i + 1, bs[i].connections, Some(i))
    ensures bs[i].alive && !(minConnections == -1 || bs[i].connections < minConnections) ==>
      LeastInv(bs, i + 1, minConnections, selected)
  {
  }

  /** At the end of the scan the invariant is the claim about the selection. */
  lemma LeastDone(bs: seq<Backend>, minConnections: int, selected: Option<nat>)
    requires LeastInv(bs, |bs|, minConnections, selected)
    ensures LeastResult(bs, selected)
  {
    if selected.Some? {
      var k := selected.value;
      assert bs[k].alive;
    }
  }

  lemma {:induction false} LeastScanCorrect(bs: seq<Backend>, i: nat, minConnections: int, selected: Option<nat>)
    requires forall j :: 0 <= j < |bs| && bs[j].alive ==> bs[j].connections >= 0
    requires LeastInv(bs, i, minConnections, selected)
    ensures LeastResult(bs, LeastScan(bs, i, minConnections, selected))
    decreases |bs| - i
  {
    if i == |bs| {
      LeastDone(bs, minConnections, selected);
    } else {
      LeastStep(bs, i, minConnections, selected);
      var (m, sel) :=
        if bs[i].alive && (minConnections == -1 || bs[i].connections < minConnections)
        then (bs[i].connections, Some(i)) else (minConnections, selected);
      assert LeastScan(bs, i, minConnections, selected) == LeastScan(bs, i + 1, m, sel);
      LeastScanCorrect(bs, i + 1, m, sel);
    }
  }

  /**
   * With non-negative connection counts (which bracketed add/remove
   * keeps), least-connections returns nothing exactly when no backend is
   * alive, and otherwise the earliest alive backend with the fewest
   * connections.
   */
  lemma LeastConnectionsPicksMinimum(bs: seq<Backend>)
    requires forall j :: 0 <= j < |bs| && bs[j].alive ==> bs[j].connections >= 0
    ensures LeastConnectionsNext(bs).None? <==> forall j :: 0 <= j < |bs| ==> !bs[j].alive
    ensures LeastConnectionsNext(bs).Some? ==> exists k: nat :: FirstLeast(bs, k) && LeastConnectionsNext(bs).value == bs[k]
  {
    LeastScanCorrect(bs, 0, -1, None);
  }

  // ------------------------------------------------------------------ factory

  /**
   * The algorithms and their state. The weighted algorithm carries the
   * rule its maximum search starts from: `SentinelMinusOne` is the
   * source's, `FirstCandidate` the corrected one.
   */
  datatype Algorithm =
    | RoundRobin(current: u64)
    | WeightedRoundRobin(currentWeights: map<nat, int>, rule: MaxRule)
    | LeastConnections

  /** "weighted" and "least-connections" name their algorithms; every other string gives round-robin. */
  function CreateAlgorithm(name: string): (a: Algorithm)
    ensures a.WeightedRoundRobin? <==> name == "weighted"
    ensures a.LeastConnections? <==> name == "least-connections"
    ensures a.RoundRobin? <==> name != "weighted" && name != "least-connections"
    ensures a.WeightedRoundRobin? ==> a.currentWeights == map[] && a.rule == SentinelMinusOne
    ensures a.RoundRobin? ==> a.current == 0
  {
    if name == "weighted" then WeightedRoundRobin(map[], SentinelMinusOne)
    else if name == "least-connections" then LeastConnections
    else RoundRobin(0)
  }

  function Name(a: Algorithm): string
  {
    match a
    case RoundRobin(_) => "Round Robin"
    case WeightedRoundRobin(_, _) => "Weighted Round Robin"
    case LeastConnections => "Least Connections"
  }

  /**
   * One selection. Any pick is an alive element of the input; with no
   * alive input there is no pick; the algorithm keeps its kind and, when
   * weighted, its rule.
   */
  function NextBackend(a: Algorithm, bs: seq<Backend>): (r: (Option<Backend>, Algorithm))
    ensures r.0.Some? ==> r.0.value in bs && r.0.value.alive
    ensures |AliveBackends(bs)| == 0 ==> r.0.None?
    ensures a.RoundRobin? <==> r.1.RoundRobin?
    ensures a.WeightedRoundRobin? <==> r.1.WeightedRoundRobin?
    ensures a.WeightedRoundRobin? ==> r.1.rule == a.rule
    ensures a.LeastConnections? ==> r.1 == a
  {
    match a
    case RoundRobin(current) =>
      var (pick, next) := RoundRobinNext(current, bs);
      (pick, RoundRobin(next))
    case WeightedRoundRobin(cw, rule) =>
      var (pick, cw') := WeightedNextWith(rule, cw, bs);
      (pick, WeightedRoundRobin(cw', rule))
    case LeastConnections =>
      assert |AliveBackends(bs)| == 0 ==> forall b :: b in bs ==> !b.alive;
      (LeastConnectionsNext(bs), LeastConnections)
  }

  /**
   * The source's weighted rule finds no raised weight above its -1
   * sentinel, so it selects nothing although backends are alive.
   */
  predicate Starved(a: Algorithm, bs: seq<Backend>)
  {
    && a.WeightedRoundRobin? && a.rule == SentinelMinusOne
    && forall j :: 0 <= j < |AliveBackends(bs)| ==> Raised(a.currentWeights, AliveBackends(bs), j) <= -1
  }

  /**
   * With distinct identities (and non-negative counts for
   * least-connections), a selection picks exactly when some input
   * backend is alive and the weighted sentinel does not starve it; the
   * pick is `alive[current % len]` for round-robin, the first maximal
   * raised weight for weighted round-robin, and the first alive backend
   * with the fewest connections for least-connections.
   */
  lemma NextBackendPicks(a: Algorithm, bs: seq<Backend>)
    requires DistinctIds(AliveBackends(bs))
    requires forall j :: 0 <= j < |bs| && bs[j].alive ==> bs[j].connections >= 0
    ensures NextBackend(a, bs).0.Some? <==> |AliveBackends(bs)| > 0 && !Starved(a, bs)
    ensures a.RoundRobin? && NextBackend(a, bs).0.Some? ==>
      NextBackend(a, bs).0.value == AliveBackends(bs)[a.current as int % |AliveBackends(bs)|]
    ensures a.WeightedRoundRobin? && NextBackend(a, bs).0.Some? ==> exists k: nat ::
      FirstMax(a.currentWeights, AliveBackends(bs), k) && NextBackend(a, bs).0.value == AliveBackends(bs)[k]
    ensures a.LeastConnections? && NextBackend(a, bs).0.Some? ==> exists k: nat ::
      FirstLeast(bs, k) && NextBackend(a, bs).0.value == bs[k]
  {
    match a
    case RoundRobin(_) =>
    case WeightedRoundRobin(cw, rule) =>
      WeightedSelection(rule, cw, bs);
    case LeastConnections =>
      LeastConnectionsPicksMinimum(bs);
      if |AliveBackends(bs)| > 0 {
        var b := AliveBackends(bs)[0];
        assert b in bs && b.alive;
      }
  }

  /** The corrected weighted rule never starves: it picks whenever a backend is alive. */
  lemma CorrectedNextBackendPicks(cw: map<nat, int>, bs: seq<Backend>)
    requires DistinctIds(AliveBackends(bs))
    ensures NextBackend(WeightedRoundRobin(cw, FirstCandidate), bs).0.Some? <==> |AliveBackends(bs)| > 0
  {
    WeightedNextTotal(cw, bs);
  }
}
