/**
 * `server_run`'s dispatch of ready events and the server's life from
 * `server_init` to `server_cleanup`. Each event carries the results of
 * the system calls its handling makes, so the loop is a function of the
 * table and the events.
 */
module EventLoop {
  import opened Options
  import opened ConnectionTable
  import opened RequestIntake

  /** The most events one `epoll_wait` returns. */
  const MaxEvents: nat := 1024

  /** The event bits `server_run` tests. */
  datatype Flags = Flags(err: bool, hup: bool, readable: bool, writable: bool)

  /**
   * A ready event: the listening socket with the clients `accept` yields,
   * or a connection's slot (client or backend descriptor alike) with what
   * reading it meets.
   */
  datatype Event =
    | ListenReady(clients: seq<Client>)
    | ConnReady(slot: nat, flags: Flags, input: seq<ReadStep>, env: Collaborators)

  /** Connection events name slots of the table: epoll hands back the slot pointer it was given. */
  predicate EventFits(s: Server, ev: Event)
  {
    ev.ConnReady? ==> ev.slot < |s.slots|
  }

  predicate EventsFit(s: Server, evs: seq<Event>)
  {
    forall k :: 0 <= k < |evs| ==> EventFits(s, evs[k])
  }

  /**
   * One pass of `server_run`'s inner loop: accept on the listening socket;
   * on error or hang-up clean the slot up without reading; otherwise read
   * when readable and clean up when the read returns -1. Writability is
   * only reported.
   */
  function HandleEvent(s: Server, ev: Event, v: Variant): (r: Server)
    requires EventFits(s, ev)
    ensures r.maxConnections == s.maxConnections && |r.slots| == |s.slots|
    ensures ev.ConnReady? && (ev.flags.err || ev.flags.hup) ==> r == Cleanup(s, ev.slot, v).0
    ensures ev.ConnReady? && !ev.flags.err && !ev.flags.hup && !ev.flags.readable ==> r == s
    ensures ev.ConnReady? ==> forall j :: 0 <= j < |s.slots| && j != ev.slot ==> r.slots[j] == s.slots[j]
  {
    match ev
    case ListenReady(clients) => HandleAccept(s, clients, v).1
    case ConnReady(i, flags, input, env) =>
      if flags.err || flags.hup then Cleanup(s, i, v).0
      else if flags.readable then
        var r := ClientRead(s.slots[i], input, env, v);
        var s1 := s.(slots := s.slots[i := r.conn]);
        if Code(r.end) < 0 then Cleanup(s1, i, v).0 else s1
      else s
  }

  /** An error or hang-up never reads: what the socket would have delivered does not matter. */
  lemma HangupSkipsRead(s: Server, i: nat, flags: Flags, input: seq<ReadStep>, env: Collaborators, v: Variant)
    requires i < |s.slots| && (flags.err || flags.hup)
    ensures HandleEvent(s, ConnReady(i, flags, input, env), v) == HandleEvent(s, ConnReady(i, flags, [], env), v)
  {
  }

  /**
   * A read that keeps the connection (0) leaves the counter and the slot's
   * descriptors alone; one that returns -1 releases the slot.
   */
  lemma ReadEventEffect(s: Server, i: nat, flags: Flags, input: seq<ReadStep>, env: Collaborators)
    requires i < |s.slots| && !flags.err && !flags.hup && flags.readable && InUse(s.slots[i])
    ensures var r := ClientRead(s.slots[i], input, env, Corrected);
      var t := HandleEvent(s, ConnReady(i, flags, input, env), Corrected);
      && (Code(r.end) == 0 ==> t.active == s.active && t.slots[i] == r.conn && InUse(t.slots[i]))
      && (Code(r.end) == -1 ==> t.active == s.active - 1 && t.slots[i] == Released(r.conn))
  {
  }

  /** Reading a slot of a consistent table keeps the slot sound and the count unchanged. */
  lemma ReadKeepsConsistent(s: Server, i: nat, input: seq<ReadStep>, env: Collaborators, v: Variant)
    requires Consistent(s) && i < |s.slots|
    ensures Consistent(s.(slots := s.slots[i := ClientRead(s.slots[i], input, env, v).conn]))
  {
    var c := ClientRead(s.slots[i], input, env, v).conn;
    UsedCountUpdate(s.slots, i, c);
    assert SlotSound(s.slots[i]);
  }

  /** Corrected, every event keeps the table consistent. */
  lemma HandleEventKeepsConsistent(s: Server, ev: Event)
    requires Consistent(s) && EventFits(s, ev)
    ensures Consistent(HandleEvent(s, ev, Corrected))
  {
    match ev
    case ListenReady(clients) =>
      HandleAcceptKeepsConsistent(s, clients);
    case ConnReady(i, flags, input, env) =>
      if flags.err || flags.hup {
        CleanupKeepsConsistent(s, i);
      } else if flags.readable {
        var s1 := s.(slots := s.slots[i := ClientRead(s.slots[i], input, env, Corrected).conn]);
        ReadKeepsConsistent(s, i, input, env, Corrected);
        CleanupKeepsConsistent(s1, i);
      }
  }

  // ---------------------------------------------------- backend descriptors

  /** A slot holds a backend descriptor only while that backend's connect is under way. */
  predicate BackendTracked(c: Conn)
  {
    c.backendFd != -1 ==> c.state == ConnectingBackend
  }

  predicate BackendsTracked(s: Server)
  {
    forall j :: 0 <= j < |s.slots| ==> BackendTracked(s.slots[j])
  }

  /**
   * No backend descriptor is lost: every slot that held one either still
   * holds the same one, or was released (`cleanup_connection` closes the
   * descriptor and sets it to -1).
   */
  predicate KeepsBackends(s: Server, t: Server)
    requires |t.slots| == |s.slots|
  {
    forall j :: 0 <= j < |s.slots| && s.slots[j].backendFd != -1 ==>
      t.slots[j].backendFd == s.slots[j].backendFd || (!InUse(t.slots[j]) && t.slots[j].backendFd == -1)
  }

  /**
   * As written, a readable event carrying more client bytes on a slot whose
   * backend connect is under way replaces the slot's backend descriptor
   * with a new one while the connection stays open: the old descriptor is
   * dropped without being closed.
   */
  lemma RedispatchDropsBackend(s: Server, i: nat, chunk: seq<char>, env: Collaborators)
    requires i < |s.slots|
    requires var c := s.slots[i];
      && c.clientFd != -1 && c.state == ConnectingBackend && c.backendFd != -1
      && HeadComplete(c.request) && |chunk| > 0 && |c.request| + |chunk| < BufferSize
      && env.parse(CString(c.request + chunk)).Some?
      && !Local(env.parse(CString(c.request + chunk)).value.path)
      && env.select.Some?
      && env.connect.socketOk && env.connect.nonblockOk && env.connect.addressOk
      && env.connect.connectOk && env.connect.registerOk
      && env.connect.fd != c.backendFd
    ensures var t := HandleEvent(s, ConnReady(i, Flags(false, false, true, false), [Data(chunk)], env), AsWritten);
      && InUse(t.slots[i]) && t.slots[i].backendFd == env.connect.fd
      && !KeepsBackends(s, t)
  {
    RedispatchOverwrites(s.slots[i], chunk, env);
  }

  /**
   * Corrected, every event keeps each backend descriptor until its slot
   * is released, and a slot still holds one only while connecting.
   */
  lemma HandleEventKeepsBackends(s: Server, ev: Event)
    requires Consistent(s) && BackendsTracked(s) && EventFits(s, ev)
    ensures |HandleEvent(s, ev, Corrected).slots| == |s.slots|
    ensures BackendsTracked(HandleEvent(s, ev, Corrected))
    ensures KeepsBackends(s, HandleEvent(s, ev, Corrected))
  {
    var t := HandleEvent(s, ev, Corrected);
    match ev
    case ListenReady(clients) =>
      forall j | 0 <= j < |s.slots|
        ensures BackendTracked(t.slots[j])
        ensures s.slots[j].backendFd != -1 ==> t.slots[j].backendFd == s.slots[j].backendFd
      {
        assert SlotSound(s.slots[j]);
      }
    case ConnReady(i, flags, input, env) =>
      if !flags.err && !flags.hup && flags.readable {
        var c := s.slots[i];
        var r := ClientRead(c, input, env, Corrected);
        assert BackendTracked(c);
        if c.state == ConnectingBackend {
          ConnectingKeepsBackend(c, input, env);
        }
        assert BackendTracked(r.conn);
      }
  }

  /** The events of one `epoll_wait`, handled in order. */
  function HandleBatch(s: Server, evs: seq<Event>, v: Variant): (r: Server)
    requires EventsFit(s, evs)
    ensures r.maxConnections == s.maxConnections && |r.slots| == |s.slots|
    decreases |evs|
  {
    if |evs| == 0 then s
    else
      var s1 := HandleEvent(s, evs[0], v);
      assert EventsFit(s1, evs[1..]) by {
        assert forall k :: 0 <= k < |evs| - 1 ==> evs[1..][k] == evs[k + 1];
      }
      HandleBatch(s1, evs[1..], v)
  }

  lemma {:induction false} HandleBatchKeepsConsistent(s: Server, evs: seq<Event>)
    requires Consistent(s) && EventsFit(s, evs)
    ensures Consistent(HandleBatch(s, evs, Corrected))
    decreases |evs|
  {
    if |evs| > 0 {
      HandleEventKeepsConsistent(s, evs[0]);
      var s1 := HandleEvent(s, evs[0], Corrected);
      assert EventsFit(s1, evs[1..]) by {
        assert forall k :: 0 <= k < |evs| - 1 ==> evs[1..][k] == evs[k + 1];
      }
      HandleBatchKeepsConsistent(s1, evs[1..]);
    }
  }

  /** Corrected, a whole batch keeps every slot's backend descriptor tracked by its state. */
  lemma {:induction false} HandleBatchKeepsBackends(s: Server, evs: seq<Event>)
    requires Consistent(s) && BackendsTracked(s) && EventsFit(s, evs)
    ensures BackendsTracked(HandleBatch(s, evs, Corrected))
    decreases |evs|
  {
    if |evs| > 0 {
      HandleEventKeepsConsistent(s, evs[0]);
      HandleEventKeepsBackends(s, evs[0]);
      var s1 := HandleEvent(s, evs[0], Corrected);
      assert EventsFit(s1, evs[1..]) by {
        assert forall k :: 0 <= k < |evs| - 1 ==> evs[1..][k] == evs[k + 1];
      }
      HandleBatchKeepsBackends(s1, evs[1..]);
    }
  }

  /**
   * The batch that cleans a connection up twice as written: an error on
   * its backend descriptor, then its client descriptor readable, both
   * naming the same slot. The second handling reads descriptor -1, fails,
   * and cleans up again.
   */
  function ErrorThenRead(i: nat, input: seq<ReadStep>, env: Collaborators): seq<Event>
  {
    [ConnReady(i, Flags(true, false, false, false), [], env), ConnReady(i, Flags(false, false, true, false), input, env)]
  }

  /** Either way, the batch is a cleanup of the slot followed by a second cleanup of the same slot. */
  lemma ErrorThenReadCleansTwice(s: Server, i: nat, input: seq<ReadStep>, env: Collaborators, v: Variant)
    requires i < |s.slots|
    ensures HandleBatch(s, ErrorThenRead(i, input, env), v) == Cleanup(Cleanup(s, i, v).0, i, v).0
  {
    var evs := ErrorThenRead(i, input, env);
    var s1 := Cleanup(s, i, v).0;
    assert HandleEvent(s, evs[0], v) == s1;
    assert evs[1..] == [evs[1]] && evs[1..][1..] == [];
    var r := ClientRead(s1.slots[i], input, env, v);
    assert r.end == ReadFailed && r.conn == s1.slots[i];
    assert s1.slots[i := r.conn] == s1.slots;
    assert HandleEvent(s1, evs[1], v) == Cleanup(s1, i, v).0;
    assert HandleBatch(s, evs, v) == HandleBatch(s1, evs[1..], v);
    assert HandleBatch(s1, evs[1..], v) == HandleBatch(Cleanup(s1, i, v).0, evs[1..][1..], v);
  }

  /** As written, that batch decrements the counter twice for one connection. */
  lemma ErrorThenReadDrifts(s: Server, i: nat, input: seq<ReadStep>, env: Collaborators)
    requires Consistent(s) && i < |s.slots| && InUse(s.slots[i])
    ensures HandleBatch(s, ErrorThenRead(i, input, env), AsWritten).active == s.active - 2
    ensures !Consistent(HandleBatch(s, ErrorThenRead(i, input, env), AsWritten))
  {
    ErrorThenReadCleansTwice(s, i, input, env, AsWritten);
    CleanupTwiceDrifts(s, i);
  }

  /** Corrected, the same batch releases the connection once. */
  lemma ErrorThenReadOnce(s: Server, i: nat, input: seq<ReadStep>, env: Collaborators)
    requires Consistent(s) && i < |s.slots| && InUse(s.slots[i])
    ensures HandleBatch(s, ErrorThenRead(i, input, env), Corrected).active == s.active - 1
    ensures Consistent(HandleBatch(s, ErrorThenRead(i, input, env), Corrected))
  {
    ErrorThenReadCleansTwice(s, i, input, env, Corrected);
    CleanupKeepsConsistent(s, i);
    CleanupIdempotent(s, i);
  }

  // ------------------------------------------------------------- the loop

  /** One `epoll_wait`: events, an interrupting signal, or a failure. */
  datatype Wait = Ready(events: seq<Event>) | Interrupted | WaitFailed

  predicate WaitFits(s: Server, w: Wait)
  {
    w.Ready? ==> |w.events| <= MaxEvents && EventsFit(s, w.events)
  }

  /** Connection events only ever name the table's slots, whose number never changes. */
  predicate WaitsFit(s: Server, waits: seq<Wait>)
  {
    forall k :: 0 <= k < |waits| ==> WaitFits(s, waits[k])
  }

  /**
   * `server_run`: wait and handle until the running flag is cleared (the
   * waits run out: 0) or `epoll_wait` fails for a reason other than a
   * signal (-1).
   */
  function Run(s: Server, waits: seq<Wait>, v: Variant): (r: (int, Server))
    requires WaitsFit(s, waits)
    ensures r.0 == -1 <==> exists k :: 0 <= k < |waits| && waits[k].WaitFailed?
    ensures r.0 == 0 || r.0 == -1
    ensures r.1.maxConnections == s.maxConnections && |r.1.slots| == |s.slots|
    decreases |waits|
  {
    if |waits| == 0 then (0, s)
    else
      var w := waits[0];
      assert forall k :: 0 <= k < |waits| - 1 ==> waits[1..][k] == waits[k + 1];
      match w
      case WaitFailed => (-1, s)
      case Interrupted =>
        var r := Run(s, waits[1..], v);
        (r.0, r.1)
      case Ready(evs) =>
        var s1 := HandleBatch(s, evs, v);
        assert WaitsFit(s1, waits[1..]) by {
          forall k | 0 <= k < |waits| - 1
            ensures WaitFits(s1, waits[1..][k])
          {
            assert WaitFits(s, waits[k + 1]);
          }
        }
        Run(s1, waits[1..], v)
  }

  lemma {:induction false} RunKeepsConsistent(s: Server, waits: seq<Wait>)
    requires Consistent(s) && WaitsFit(s, waits)
    ensures Consistent(Run(s, waits, Corrected).1)
    decreases |waits|
  {
    if |waits| > 0 {
      assert forall k :: 0 <= k < |waits| - 1 ==> waits[1..][k] == waits[k + 1];
      match waits[0]
      case WaitFailed =>
      case Interrupted =>
        RunKeepsConsistent(s, waits[1..]);
      case Ready(evs) =>
        HandleBatchKeepsConsistent(s, evs);
        var s1 := HandleBatch(s, evs, Corrected);
        assert WaitsFit(s1, waits[1..]) by {
          forall k | 0 <= k < |waits| - 1
            ensures WaitFits(s1, waits[1..][k])
          {
            assert WaitFits(s, waits[k + 1]);
          }
        }
        RunKeepsConsistent(s1, waits[1..]);
    }
  }

  /**
   * A whole life, corrected: a server that initialises, runs, and shuts
   * down ends with no connection counted and no block freed twice.
   */
  lemma Lifetime(maxConnections: int, io: InitOutcomes, waits: seq<Wait>)
    requires ServerInit(maxConnections, io).Some?
    requires WaitsFit(ServerInit(maxConnections, io).value, waits)
    ensures var s := Run(ServerInit(maxConnections, io).value, waits, Corrected).1;
      Shutdown(s, Corrected).0.active == 0 && Shutdown(s, Corrected).1 == 0
  {
    var s0 := ServerInit(maxConnections, io).value;
    RunKeepsConsistent(s0, waits);
    ShutdownClean(Run(s0, waits, Corrected).1, Corrected);
  }
}
