/**
 * The C balancer's connection table: a fixed array of slots, a slot
 * being in use exactly when its client descriptor is not -1, and the
 * counter of active connections that admission control reads.
 * Descriptors are plain integers; the system calls that produce them
 * (accept, fcntl, epoll_ctl, malloc) appear as outcomes in the inputs.
 *
 * Two places where the code breaks the table's own bookkeeping are
 * modelled both as written and corrected, chosen by a `Variant`.
 */
module ConnectionTable {
  import opened Options

  /** Size of each connection's request and response buffers. */
  const BufferSize: nat := 8192

  /** Which reading of the code: the code as written, or with its bookkeeping faults corrected. */
  datatype Variant = AsWritten | Corrected

  /** A heap pointer held in a slot: null, pointing at a live block, or still holding a block already freed. */
  datatype Buffer = Null | Live | Dangling

  /** The slot's connection state; a zeroed slot holds the enum's zero value. */
  datatype ConnState = Zero | ReadingRequest | ConnectingBackend

  /** The backend the balancer picked, as far as connecting needs it. */
  datatype BackendRef = BackendRef(host: string, port: int)

  /** What the request parser extracted. */
  datatype HttpRequest = HttpRequest(verb: string, path: string)

  datatype Conn = Conn(
    clientFd: int,
    backendFd: int,
    state: ConnState,
    startTime: int,
    request: seq<char>,
    requestBuf: Buffer,
    responseBuf: Buffer,
    parsed: Option<HttpRequest>,
    backend: Option<BackendRef>,
    peer: nat)

  datatype Server = Server(slots: seq<Conn>, maxConnections: int, active: int)

  /**
   * `t` differs from `s` only in slots that were free, and each slot it
   * changes holds no backend descriptor: accepting never touches a
   * connection already in use.
   */
  predicate TouchesOnlyFree(s: seq<Conn>, t: seq<Conn>)
  {
    && |t| == |s|
    && forall j :: 0 <= j < |s| ==> t[j] == s[j] || (!InUse(s[j]) && t[j].backendFd == -1)
  }

  /** A slot as `server_init` leaves it: zeroed, with both descriptors -1. */
  const FreeSlot: Conn := Conn(-1, -1, Zero, 0, [], Null, Null, None, None, 0)

  predicate InUse(c: Conn)
  {
    c.clientFd != -1
  }

  /** The number of slots `calloc` provides for a configured maximum. */
  function Capacity(maxConnections: int): nat
  {
    if maxConnections > 0 then maxConnections else 0
  }

  /** The number of slots in use. */
  function UsedCount(slots: seq<Conn>): (n: nat)
    ensures n <= |slots|
    decreases |slots|
  {
    if |slots| == 0 then 0
    else UsedCount(slots[..|slots| - 1]) + (if InUse(slots[|slots| - 1]) then 1 else 0)
  }

  /**
   * A slot that can be used and released safely: in use, it owns two live
   * buffers and a request shorter than its buffer; free, it holds no
   * backend descriptor.
   */
  predicate SlotSound(c: Conn)
  {
    if InUse(c) then c.requestBuf.Live? && c.responseBuf.Live? && |c.request| < BufferSize
    else c.backendFd == -1
  }

  /** The table's invariant: one slot per allowed connection, and the counter counts the slots in use. */
  predicate Consistent(s: Server)
  {
    && |s.slots| == Capacity(s.maxConnections)
    && s.active == UsedCount(s.slots)
    && forall j :: 0 <= j < |s.slots| ==> SlotSound(s.slots[j])
  }

  // --------------------------------------------------------------- counting

  /** Replacing one slot changes the count by that slot's difference. */
  lemma {:induction false} UsedCountUpdate(slots: seq<Conn>, i: nat, c: Conn)
    requires i < |slots|
    ensures UsedCount(slots[i := c]) ==
      UsedCount(slots) - (if InUse(slots[i]) then 1 else 0) + (if InUse(c) then 1 else 0)
    decreases |slots|
  {
    var n := |slots| - 1;
    var t := slots[i := c];
    assert t[..n] == if i == n then slots[..n] else slots[..n][i := c];
    if i < n {
      UsedCountUpdate(slots[..n], i, c);
    }
  }

  /** When every slot is in use the count is the table's length. */
  lemma {:induction false} AllUsedCount(slots: seq<Conn>)
    requires forall j :: 0 <= j < |slots| ==> InUse(slots[j])
    ensures UsedCount(slots) == |slots|
    decreases |slots|
  {
    if |slots| > 0 {
      AllUsedCount(slots[..|slots| - 1]);
    }
  }

  /** A table of free slots counts nothing in use. */
  lemma {:induction false} NoneUsedCount(slots: seq<Conn>)
    requires forall j :: 0 <= j < |slots| ==> !InUse(slots[j])
    ensures UsedCount(slots) == 0
    decreases |slots|
  {
    if |slots| > 0 {
      NoneUsedCount(slots[..|slots| - 1]);
    }
  }

  /** The counter of a consistent table stays between 0 and the capacity. */
  lemma ActiveBounded(s: Server)
    requires Consistent(s)
    ensures 0 <= s.active <= Capacity(s.maxConnections)
  {
  }

  // ----------------------------------------------------------------- init

  /** Outcomes of the system calls `server_init` makes. */
  datatype InitOutcomes = InitOutcomes(listenOk: bool, epollOk: bool, registerOk: bool, callocOk: bool)

  /**
   * `server_init`: any failing step gives -1 (None); otherwise every slot
   * is free and nothing is active.
   */
  function ServerInit(maxConnections: int, io: InitOutcomes): (r: Option<Server>)
    ensures r.Some? <==> io.listenOk && io.epollOk && io.registerOk && io.callocOk
    ensures r.Some? ==> Consistent(r.value) && r.value.active == 0 && r.value.maxConnections == maxConnections
    ensures r.Some? ==> forall j :: 0 <= j < |r.value.slots| ==> !InUse(r.value.slots[j])
  {
    if !(io.listenOk && io.epollOk && io.registerOk && io.callocOk) then None
    else
      var slots := seq(Capacity(maxConnections), _ => FreeSlot);
      NoneUsedCount(slots);
      Some(Server(slots, maxConnections, 0))
  }

  // --------------------------------------------------------------- accept

  /** The lowest-numbered free slot at or after `k`. */
  function FirstFreeFrom(slots: seq<Conn>, k: nat): (r: Option<nat>)
    requires k <= |slots|
    ensures r.Some? ==> k <= r.value < |slots| && !InUse(slots[r.value])
    ensures r.Some? ==> forall j :: k <= j < r.value ==> InUse(slots[j])
    ensures r.None? ==> forall j :: k <= j < |slots| ==> InUse(slots[j])
    decreases |slots| - k
  {
    if k == |slots| then None
    else if !InUse(slots[k]) then Some(k)
    else FirstFreeFrom(slots, k + 1)
  }

  /** The slot `handle_accept` takes: the first one whose client descriptor is -1. */
  function FirstFree(slots: seq<Conn>): (r: Option<nat>)
    ensures r.Some? ==> r.value < |slots| && !InUse(slots[r.value])
    ensures r.Some? ==> forall j :: 0 <= j < r.value ==> InUse(slots[j])
    ensures r.None? <==> forall j :: 0 <= j < |slots| ==> InUse(slots[j])
  {
    FirstFreeFrom(slots, 0)
  }

  /** One accepted client and the outcomes of the calls made for it. */
  datatype Client = Client(
    fd: nat,
    peer: nat,
    now: int,
    nonblockOk: bool,
    requestAlloc: bool,
    responseAlloc: bool,
    registerOk: bool)

  datatype AcceptResult =
    | Admitted(slot: nat)
    | LimitReached
    | NonblockFailed
    | NoFreeSlot
    | AllocationFailed
    | RegisterFailed

  /** `free` leaves the pointer in place: a live block becomes dangling. */
  function Freed(b: Buffer): (r: Buffer)
    ensures r != Live
    ensures b.Null? ==> r.Null?
  {
    if b.Live? then Dangling else b
  }

  /** A slot freshly initialised for a client, with its buffers as `malloc` returned them. */
  function Fresh(cl: Client): (c: Conn)
    ensures InUse(c) && c.backendFd == -1 && c.state == ReadingRequest && c.request == []
    ensures c.requestBuf.Live? <==> cl.requestAlloc
    ensures c.responseBuf.Live? <==> cl.responseAlloc
  {
    Conn(cl.fd, -1, ReadingRequest, cl.now, [], if cl.requestAlloc then Live else Null,
      if cl.responseAlloc then Live else Null, None, None, cl.peer)
  }

  /**
   * One pass of `handle_accept`'s loop. As written, a failed buffer
   * allocation frees the buffers and closes the descriptor but leaves it
   * in the slot; corrected, the slot is released as on the epoll failure.
   */
  function AcceptOne(s: Server, cl: Client, v: Variant): (r: (AcceptResult, Server))
    ensures r.1.maxConnections == s.maxConnections && |r.1.slots| == |s.slots|
    ensures r.0.Admitted? <==>
      s.active < s.maxConnections && cl.nonblockOk && FirstFree(s.slots).Some?
      && cl.requestAlloc && cl.responseAlloc && cl.registerOk
    ensures r.0.Admitted? ==>
      r.0.slot == FirstFree(s.slots).value && r.1.active == s.active + 1
      && r.1.slots == s.slots[r.0.slot := Fresh(cl)]
    ensures r.0.LimitReached? <==> s.active >= s.maxConnections
    ensures !r.0.Admitted? ==> r.1.active == s.active
    ensures !r.0.Admitted? && !(v.AsWritten? && r.0.AllocationFailed?) ==>
      forall j :: 0 <= j < |s.slots| ==> (InUse(r.1.slots[j]) <==> InUse(s.slots[j]))
    ensures TouchesOnlyFree(s.slots, r.1.slots)
  {
    if s.active >= s.maxConnections then (LimitReached, s)
    else if !cl.nonblockOk then (NonblockFailed, s)
    else match FirstFree(s.slots)
      case None => (NoFreeSlot, s)
      case Some(i) =>
        var c := Fresh(cl);
        if !cl.requestAlloc || !cl.responseAlloc then
          var released := c.(requestBuf := Freed(c.requestBuf), responseBuf := Freed(c.responseBuf));
          var kept := if v.AsWritten? then released else released.(clientFd := -1);
          (AllocationFailed, s.(slots := s.slots[i := kept]))
        else if !cl.registerOk then
          var released := c.(requestBuf := Dangling, responseBuf := Dangling, clientFd := -1);
          (RegisterFailed, s.(slots := s.slots[i := released]))
        else (Admitted(i), s.(slots := s.slots[i := c], active := s.active + 1))
  }

  /** A consistent table with room below the limit always has a free slot. */
  lemma RoomMeansFreeSlot(s: Server)
    requires Consistent(s) && s.active < s.maxConnections
    ensures FirstFree(s.slots).Some?
  {
    if FirstFree(s.slots).None? {
      AllUsedCount(s.slots);
    }
  }

  /** Corrected, accepting a client keeps the table consistent. */
  lemma AcceptKeepsConsistent(s: Server, cl: Client)
    requires Consistent(s)
    ensures Consistent(AcceptOne(s, cl, Corrected).1)
  {
    var r := AcceptOne(s, cl, Corrected);
    if r.1 != s {
      var i := FirstFree(s.slots).value;
      UsedCountUpdate(s.slots, i, r.1.slots[i]);
      assert r.1.slots == s.slots[i := r.1.slots[i]];
    }
  }

  /** The two readings differ only when a buffer allocation fails. */
  lemma AcceptVariantsAgree(s: Server, cl: Client)
    requires cl.requestAlloc && cl.responseAlloc
    ensures AcceptOne(s, cl, AsWritten) == AcceptOne(s, cl, Corrected)
  {
  }

  /**
   * As written, a failed allocation leaves the slot in use with nothing
   * counting it: the counter falls one short of the slots in use, and the
   * slot is never released while the server runs.
   */
  lemma AcceptLeaksSlot(s: Server, cl: Client)
    requires Consistent(s) && s.active < s.maxConnections && cl.nonblockOk
    requires !(cl.requestAlloc && cl.responseAlloc)
    ensures AcceptOne(s, cl, AsWritten).0 == AllocationFailed
    ensures UsedCount(AcceptOne(s, cl, AsWritten).1.slots) == AcceptOne(s, cl, AsWritten).1.active + 1
    ensures !Consistent(AcceptOne(s, cl, AsWritten).1)
  {
    RoomMeansFreeSlot(s);
    var i := FirstFree(s.slots).value;
    var r := AcceptOne(s, cl, AsWritten);
    UsedCountUpdate(s.slots, i, r.1.slots[i]);
    assert r.1.slots == s.slots[i := r.1.slots[i]];
  }

  /** `handle_accept`: every client the listening socket yields, in order, until `accept` would block. */
  function HandleAccept(s: Server, clients: seq<Client>, v: Variant): (r: (seq<AcceptResult>, Server))
    ensures |r.0| == |clients|
    ensures r.1.maxConnections == s.maxConnections && |r.1.slots| == |s.slots|
    ensures TouchesOnlyFree(s.slots, r.1.slots)
    decreases |clients|
  {
    if |clients| == 0 then ([], s)
    else
      var first := AcceptOne(s, clients[0], v);
      var rest := HandleAccept(first.1, clients[1..], v);
      ([first.0] + rest.0, rest.1)
  }

  /** Corrected, a whole accept burst keeps the table consistent, so the counter never passes the capacity. */
  lemma {:induction false} HandleAcceptKeepsConsistent(s: Server, clients: seq<Client>)
    requires Consistent(s)
    ensures Consistent(HandleAccept(s, clients, Corrected).1)
    ensures HandleAccept(s, clients, Corrected).1.active <= Capacity(s.maxConnections)
    decreases |clients|
  {
    if |clients| > 0 {
      AcceptKeepsConsistent(s, clients[0]);
      HandleAcceptKeepsConsistent(AcceptOne(s, clients[0], Corrected).1, clients[1..]);
    }
  }

  // -------------------------------------------------------------- cleanup

  /** A slot after `cleanup_connection`: both descriptors -1 and both buffers freed and nulled. */
  function Released(c: Conn): (r: Conn)
    ensures !InUse(r) && r.backendFd == -1 && r.requestBuf.Null? && r.responseBuf.Null?
    ensures r.request == c.request && r.state == c.state
  {
    c.(clientFd := -1, backendFd := -1, requestBuf := Null, responseBuf := Null)
  }

  /** Freeing a pointer that was already freed. */
  predicate FreesTwice(c: Conn)
  {
    c.requestBuf.Dangling? || c.responseBuf.Dangling?
  }

  /**
   * `cleanup_connection` on slot `i`, with whether it frees a block twice.
   * As written the counter is decremented whatever the slot held;
   * corrected, a slot already free is left alone.
   */
  function Cleanup(s: Server, i: nat, v: Variant): (r: (Server, bool))
    requires i < |s.slots|
    ensures r.0.maxConnections == s.maxConnections && |r.0.slots| == |s.slots|
    ensures !InUse(r.0.slots[i])
    ensures v.AsWritten? || InUse(s.slots[i]) ==> r.0.slots[i] == Released(s.slots[i])
    ensures forall j :: 0 <= j < |s.slots| && j != i ==> r.0.slots[j] == s.slots[j]
    ensures r.1 ==> FreesTwice(s.slots[i])
    ensures v.AsWritten? || InUse(s.slots[i]) ==> r.0.active == s.active - 1
    ensures v.Corrected? && !InUse(s.slots[i]) ==> r.0 == s
  {
    var c := s.slots[i];
    if v.Corrected? && !InUse(c) then (s, false)
    else (s.(slots := s.slots[i := Released(c)], active := s.active - 1), FreesTwice(c))
  }

  /** Releasing a slot of a consistent table keeps it consistent and frees nothing twice (corrected). */
  lemma CleanupKeepsConsistent(s: Server, i: nat)
    requires Consistent(s) && i < |s.slots|
    ensures Consistent(Cleanup(s, i, Corrected).0)
    ensures !Cleanup(s, i, Corrected).1
  {
    var c := s.slots[i];
    if InUse(c) {
      UsedCountUpdate(s.slots, i, Released(c));
    }
  }

  /**
   * As written, cleaning the same slot twice decrements the counter twice
   * for one connection, leaving it below the slots in use.
   */
  lemma CleanupTwiceDrifts(s: Server, i: nat)
    requires Consistent(s) && i < |s.slots| && InUse(s.slots[i])
    ensures Cleanup(Cleanup(s, i, AsWritten).0, i, AsWritten).0.active == s.active - 2
    ensures !Consistent(Cleanup(Cleanup(s, i, AsWritten).0, i, AsWritten).0)
  {
    var once := Cleanup(s, i, AsWritten).0;
    UsedCountUpdate(s.slots, i, Released(s.slots[i]));
    var twice := Cleanup(once, i, AsWritten).0;
    UsedCountUpdate(once.slots, i, Released(once.slots[i]));
  }

  /** Corrected, cleaning the same slot twice is the same as cleaning it once. */
  lemma CleanupIdempotent(s: Server, i: nat)
    requires i < |s.slots|
    ensures Cleanup(Cleanup(s, i, Corrected).0, i, Corrected).0 == Cleanup(s, i, Corrected).0
  {
  }

  /**
   * `server_cleanup`'s loop from slot `k` on: every slot in use is
   * released; the count of double frees is returned alongside.
   */
  function ShutdownFrom(s: Server, k: nat, v: Variant): (r: (Server, nat))
    requires k <= |s.slots|
    ensures |r.0.slots| == |s.slots| && r.0.maxConnections == s.maxConnections
    ensures forall j :: 0 <= j < k ==> r.0.slots[j] == s.slots[j]
    ensures forall j :: k <= j < |s.slots| ==> !InUse(r.0.slots[j])
    decreases |s.slots| - k
  {
    if k == |s.slots| then (s, 0)
    else if InUse(s.slots[k]) then
      var c := Cleanup(s, k, v);
      var rest := ShutdownFrom(c.0, k + 1, v);
      (rest.0, rest.1 + if c.1 then 1 else 0)
    else ShutdownFrom(s, k + 1, v)
  }

  function Shutdown(s: Server, v: Variant): (r: (Server, nat))
    ensures forall j :: 0 <= j < |r.0.slots| ==> !InUse(r.0.slots[j])
    ensures |r.0.slots| == |s.slots|
  {
    ShutdownFrom(s, 0, v)
  }

  /** Shutting down a consistent table frees every block once and brings the counter back to 0. */
  lemma {:induction false} ShutdownFromClean(s: Server, k: nat, v: Variant)
    requires Consistent(s) && k <= |s.slots|
    ensures ShutdownFrom(s, k, v).1 == 0
    ensures ShutdownFrom(s, k, v).0.active == s.active - UsedCount(s.slots) + UsedCount(s.slots[..k])
    decreases |s.slots| - k
  {
    if k == |s.slots| {
      assert s.slots[..k] == s.slots;
    } else {
      assert s.slots[..k + 1][..k] == s.slots[..k];
      assert UsedCount(s.slots[..k + 1]) == UsedCount(s.slots[..k]) + if InUse(s.slots[k]) then 1 else 0;
      if InUse(s.slots[k]) {
        var c := Cleanup(s, k, v).0;
        CleanupKeepsConsistent(s, k);
        assert c == Cleanup(s, k, Corrected).0;
        ShutdownFromClean(c, k + 1, v);
        UsedCountUpdate(s.slots, k, Released(s.slots[k]));
        assert c.slots[..k + 1][..k] == s.slots[..k];
        assert UsedCount(c.slots[..k + 1]) == UsedCount(s.slots[..k]);
      } else {
        ShutdownFromClean(s, k + 1, v);
      }
    }
  }

  lemma ShutdownClean(s: Server, v: Variant)
    requires Consistent(s)
    ensures Shutdown(s, v).1 == 0 && Shutdown(s, v).0.active == 0
  {
    ShutdownFromClean(s, 0, v);
    assert s.slots[..0] == [];
  }

  /**
   * The leak's second half: after the as-written allocation failure of
   * one buffer only, shutting down frees the other buffer a second time.
   */
  lemma LeakedSlotFreedTwice(s: Server, cl: Client)
    requires Consistent(s) && s.active < s.maxConnections && cl.nonblockOk
    requires cl.requestAlloc != cl.responseAlloc
    ensures Shutdown(AcceptOne(s, cl, AsWritten).1, AsWritten).1 > 0
  {
    RoomMeansFreeSlot(s);
    var i := FirstFree(s.slots).value;
    var t := AcceptOne(s, cl, AsWritten).1;
    assert FreesTwice(t.slots[i]);
    ShutdownFreesTwice(t, 0, i);
  }

  /** A slot in use that holds a freed block makes shutdown report a double free. */
  lemma {:induction false} ShutdownFreesTwice(s: Server, k: nat, i: nat)
    requires k <= i < |s.slots| && InUse(s.slots[i]) && FreesTwice(s.slots[i])
    ensures ShutdownFrom(s, k, AsWritten).1 > 0
    decreases i - k
  {
    if k < i {
      if InUse(s.slots[k]) {
        ShutdownFreesTwice(Cleanup(s, k, AsWritten).0, k + 1, i);
      } else {
        ShutdownFreesTwice(s, k + 1, i);
      }
    }
  }
}
