/**
 * `handle_client_read` and what it leads to: the client's bytes are
 * appended to the slot's request buffer until the buffer, read as a C
 * string, holds a blank line; then the request is parsed and either
 * answered locally (/health, /stats, 503) or a backend connection is
 * started. The parser, the balancer's choice of backend, the statistics
 * text and the socket calls are inputs.
 */
module RequestIntake {
  import opened Options
  import opened Text
  import opened Responses
  import opened ConnectionTable

  /** The blank line that ends an HTTP request head. */
  const Terminator: string := "\r\n\r\n"

  /** What C's string functions see of a buffer: the characters before the first NUL. */
  function CString(s: seq<char>): (r: seq<char>)
    ensures r <= s
    ensures '\0' !in r
    ensures |r| < |s| ==> s[|r|] == '\0'
    decreases |s|
  {
    if |s| == 0 || s[0] == '\0' then []
    else [s[0]] + CString(s[1..])
  }

  /** One `read` on the client socket. A `Data` step with no bytes is `read` returning 0. */
  datatype ReadStep = Data(chunk: seq<char>) | WouldBlock | ReadError | EndOfStream

  /** The bytes the `Data` steps deliver, in order. */
  function Chunks(steps: seq<ReadStep>): (r: seq<char>)
    ensures |steps| == 0 ==> r == []
    decreases |steps|
  {
    if |steps| == 0 then []
    else (if steps[0].Data? then steps[0].chunk else []) + Chunks(steps[1..])
  }

  /** Outcomes of the calls `server_connect_to_backend` makes; `fd` is the socket's descriptor. */
  datatype ConnectOutcomes = ConnectOutcomes(
    socketOk: bool,
    nonblockOk: bool,
    addressOk: bool,
    connectOk: bool,
    registerOk: bool,
    fd: nat)

  /** What the collaborators outside this model answer for one request. */
  datatype Collaborators = Collaborators(
    parse: string -> Option<HttpRequest>,
    select: Option<BackendRef>,
    statsJson: Option<string>,
    connect: ConnectOutcomes)

  /** How a call of `handle_client_read` ends. */
  datatype ReadEnd =
    | Pending
    | TooLarge
    | ReadFailed
    | PeerClosed
    | Unparsable
    | Replied(reply: Reply)
    | Connecting

  /** The value `handle_client_read` returns: 0 keeps the connection, -1 has it cleaned up. */
  function Code(e: ReadEnd): (c: int)
    ensures c == 0 || c == -1
    ensures c == 0 <==> e.Pending? || e.Connecting?
  {
    if e.Pending? || e.Connecting? then 0 else -1
  }

  datatype ReadOutcome = ReadOutcome(end: ReadEnd, conn: Conn, taken: nat)

  /** A reply the balancer sends itself before closing the connection. */
  datatype Reply = HealthReplied | StatsReplied(json: Option<string>) | ErrorReplied(code: int, text: string)

  /** The replies `handle_client_read` can produce. */
  predicate KnownReply(r: Reply)
  {
    || r.HealthReplied?
    || r.StatsReplied?
    || r == ErrorReplied(502, "Bad Gateway")
    || r == ErrorReplied(503, "Service Unavailable")
  }

  /**
   * `server_connect_to_backend`: any failing call answers 502; a failed
   * epoll registration also resets the backend descriptor to -1.
   */
  function Connect(c: Conn, io: ConnectOutcomes): (r: (ReadEnd, Conn))
    ensures r.0 == Connecting <==> io.socketOk && io.nonblockOk && io.addressOk && io.connectOk && io.registerOk
    ensures r.0 != Connecting ==> r.0 == Replied(ErrorReplied(502, "Bad Gateway"))
    ensures r.0 == Connecting ==> r.1 == c.(backendFd := io.fd)
    ensures r.1.clientFd == c.clientFd && r.1.request == c.request && r.1.state == c.state
    ensures r.1.requestBuf == c.requestBuf && r.1.responseBuf == c.responseBuf
  {
    if !io.socketOk || !io.nonblockOk || !io.addressOk || !io.connectOk then (Replied(ErrorReplied(502, "Bad Gateway")), c)
    else if !io.registerOk then (Replied(ErrorReplied(502, "Bad Gateway")), c.(backendFd := -1))
    else (Connecting, c.(backendFd := io.fd))
  }

  /** The bytes sent for /health: a string literal (with its NUL) sent for its `strlen`. */
  function HealthSent(v: Variant): (s: Sent)
    ensures SentWhole(s) && InBounds(s)
    ensures v.Corrected? ==> s.buffer == Render(HealthReply())
  {
    var text := Render(if v.AsWritten? then HealthAsWritten else HealthReply());
    Sent(text, |text|, |text| + 1)
  }

  /** The bytes sent for /stats. */
  function StatsSent(json: Option<string>, v: Variant): (s: Sent)
    ensures v.Corrected? ==> SentWhole(s) && InBounds(s)
  {
    if v.AsWritten? then StatsAsWritten(json).0 else StatsReply(json).0
  }

  /** The bytes each reply puts on the wire. */
  function ReplyBytes(r: Reply, v: Variant): Sent
  {
    match r
    case HealthReplied => HealthSent(v)
    case StatsReplied(json) => StatsSent(json, v)
    case ErrorReplied(code, text) => SendErrorResponse(code, text).0
  }

  /**
   * Corrected, every reply the balancer produces is sent whole, with a
   * length header that matches its body.
   */
  lemma RepliesInBounds(r: Reply)
    requires KnownReply(r)
    ensures SentWhole(ReplyBytes(r, Corrected)) && InBounds(ReplyBytes(r, Corrected))
  {
    if r.ErrorReplied? {
      ErrorReplyFits(r.code, r.text);
    }
  }

  /** Where `handle_client_read` sends a parsed request, by its path (`strcmp` equality). */
  datatype Route = HealthCheck | Statistics | Forward

  function RouteOf(path: string): (r: Route)
    ensures r == HealthCheck <==> path == "/health"
    ensures r == Statistics <==> path == "/stats"
  {
    if path == "/health" then HealthCheck else if path == "/stats" then Statistics else Forward
  }

  /** A path the balancer answers itself. */
  predicate Local(path: string)
  {
    !RouteOf(path).Forward?
  }

  /** The call ends in a dispatch exactly when it appended a chunk that completed the head. */
  predicate Dispatched(e: ReadEnd)
  {
    e.Unparsable? || e.Replied? || e.Connecting?
  }

  /** A reply sent before any backend socket exists: /health, /stats or 503. */
  predicate AnsweredLocally(e: ReadEnd)
  {
    e.Replied? && e.reply != ErrorReplied(502, "Bad Gateway")
  }

  /**
   * What happens once the buffer holds a complete head: parse it, answer
   * /health and /stats locally, answer 503 when no backend is available,
   * otherwise record the backend and start connecting to it.
   */
  function Dispatch(c: Conn, env: Collaborators, v: Variant): (r: (ReadEnd, Conn))
    ensures r.1.clientFd == c.clientFd && r.1.request == c.request
    ensures r.1.requestBuf == c.requestBuf && r.1.responseBuf == c.responseBuf
    ensures Dispatched(r.0)
    ensures r.0.Replied? ==> KnownReply(r.0.reply)
    ensures r.0.Unparsable? <==> env.parse(CString(c.request)).None?
    ensures r.0.Connecting? ==>
      r.1.backendFd == env.connect.fd && r.1.state == ConnectingBackend && r.1.backend == env.select
    ensures !r.0.Connecting? && !r.0.Replied? ==> r.1.backendFd == c.backendFd
    ensures r.0.Unparsable? ==> r.1 == c
    ensures AnsweredLocally(r.0) ==> r.1 == c.(parsed := env.parse(CString(c.request)))
  {
    match env.parse(CString(c.request))
    case None => (Unparsable, c)
    case Some(req) =>
      var c1 := c.(parsed := Some(req));
      match RouteOf(req.path)
      case HealthCheck => (Replied(HealthReplied), c1)
      case Statistics => (Replied(StatsReplied(env.statsJson)), c1)
      case Forward =>
        match env.select
        case None => (Replied(ErrorReplied(503, "Service Unavailable")), c1)
        case Some(b) => Connect(c1.(backend := Some(b), state := ConnectingBackend), env.connect)
  }

  /** The buffer, read as a C string, holds a complete request head. */
  predicate HeadComplete(request: seq<char>)
  {
    Contains(CString(request), Terminator)
  }

  /** Why `handle_client_read`'s read loop stopped. */
  datatype Stop = Blocked | Overflow | Failed | Closed | Complete

  /** The request bytes after the loop, and how many read steps it used. */
  datatype Fill = Fill(stop: Stop, request: seq<char>, taken: nat)

  /**
   * The read loop: append each chunk while the total stays below the
   * buffer size, stopping at the first chunk that completes a head. A
   * descriptor of -1 (`open` false) fails its first read.
   */
  function Accumulate(open: bool, request: seq<char>, input: seq<ReadStep>): (r: Fill)
    ensures r.taken <= |input|
    ensures |request| < BufferSize ==> |r.request| < BufferSize
    decreases |input|
  {
    if !open then Fill(Failed, request, 0)
    else if |input| == 0 then Fill(Blocked, request, 0)
    else match input[0]
      case WouldBlock => Fill(Blocked, request, 0)
      case ReadError => Fill(Failed, request, 0)
      case EndOfStream => Fill(Closed, request, 0)
      case Data(chunk) =>
        if |chunk| == 0 then Fill(Closed, request, 0)
        else if |request| + |chunk| >= BufferSize then Fill(Overflow, request, 0)
        else if HeadComplete(request + chunk) then Fill(Complete, request + chunk, 1)
        else
          var rest := Accumulate(true, request + chunk, input[1..]);
          rest.(taken := rest.taken + 1)
  }

  /** The request buffer is the old one followed by every chunk read, in order. */
  lemma {:induction false} AccumulateAppends(open: bool, request: seq<char>, input: seq<ReadStep>)
    ensures Accumulate(open, request, input).request == request + Chunks(input[..Accumulate(open, request, input).taken])
    decreases |input|
  {
    if open && |input| > 0 && input[0].Data? {
      var chunk := input[0].chunk;
      if |chunk| > 0 && |request| + |chunk| < BufferSize {
        assert Chunks(input[..1]) == chunk by {
          assert input[..1][1..] == [];
        }
        if !HeadComplete(request + chunk) {
          var rest := Accumulate(true, request + chunk, input[1..]);
          AccumulateAppends(true, request + chunk, input[1..]);
          assert input[..rest.taken + 1][1..] == input[1..][..rest.taken];
        }
      }
    }
  }

  /**
   * A request that grows too large stops at the chunk that would have
   * filled the buffer, without keeping it.
   */
  lemma {:induction false} AccumulateOverflow(open: bool, request: seq<char>, input: seq<ReadStep>)
    requires Accumulate(open, request, input).stop == Overflow
    ensures var r := Accumulate(open, request, input);
      r.taken < |input| && input[r.taken].Data? && |r.request| + |input[r.taken].chunk| >= BufferSize
    decreases |input|
  {
    var chunk := input[0].chunk;
    if |request| + |chunk| < BufferSize {
      AccumulateOverflow(true, request + chunk, input[1..]);
    }
  }

  /**
   * Starting from a buffer without a complete head, the loop stops for a
   * complete head exactly when the bytes it kept hold one.
   */
  lemma {:induction false} AccumulateCompleteIff(open: bool, request: seq<char>, input: seq<ReadStep>)
    requires !HeadComplete(request)
    ensures Accumulate(open, request, input).stop == Complete <==> HeadComplete(Accumulate(open, request, input).request)
    decreases |input|
  {
    if open && |input| > 0 && input[0].Data? {
      var chunk := input[0].chunk;
      if |chunk| > 0 && |request| + |chunk| < BufferSize && !HeadComplete(request + chunk) {
        AccumulateCompleteIff(true, request + chunk, input[1..]);
      }
    }
  }

  /**
   * Whether a completed head is dispatched. The source dispatches every
   * time the buffer holds a blank line, also on a connection whose
   * backend connect is already under way; corrected, a connection in
   * `ConnectingBackend` keeps its one dispatch and more bytes only queue.
   */
  predicate MayDispatch(c: Conn, v: Variant)
  {
    v.AsWritten? || !c.state.ConnectingBackend?
  }

  /**
   * `handle_client_read`: the read loop, then the dispatch of a completed
   * head. Blocking keeps the connection (0); failure, end of stream and an
   * oversized request close it (-1).
   */
  function ClientRead(c: Conn, input: seq<ReadStep>, env: Collaborators, v: Variant): (r: ReadOutcome)
    ensures r.conn.clientFd == c.clientFd
    ensures r.conn.requestBuf == c.requestBuf && r.conn.responseBuf == c.responseBuf
    ensures r.taken <= |input|
    ensures r.conn.request == Accumulate(c.clientFd != -1, c.request, input).request
    ensures |c.request| < BufferSize ==> |r.conn.request| < BufferSize
    ensures c.clientFd == -1 ==> r.end == ReadFailed && r.conn == c
    ensures Dispatched(r.end) <==>
      Accumulate(c.clientFd != -1, c.request, input).stop == Complete && MayDispatch(c, v)
    ensures !Dispatched(r.end) ==> r.conn == c.(request := r.conn.request)
    ensures !r.end.Connecting? && !r.end.Replied? ==> r.conn.backendFd == c.backendFd
    ensures r.end.Connecting? ==> r.conn.backendFd == env.connect.fd && r.conn.state == ConnectingBackend
  {
    var f := Accumulate(c.clientFd != -1, c.request, input);
    var c1 := c.(request := f.request);
    match f.stop
    case Complete =>
      if !MayDispatch(c, v) then ReadOutcome(Pending, c1, f.taken)
      else
        var d := Dispatch(c1, env, v);
        ReadOutcome(d.0, d.1, f.taken)
    case Blocked => ReadOutcome(Pending, c1, f.taken)
    case Overflow => ReadOutcome(TooLarge, c1, f.taken)
    case Failed => ReadOutcome(ReadFailed, c1, f.taken)
    case Closed => ReadOutcome(PeerClosed, c1, f.taken)
  }

  /**
   * Starting from a buffer without a complete head, the request is
   * dispatched exactly when the bytes kept complete one: every other ending
   * leaves a buffer that still has no blank line in its C-string part.
   */
  lemma DispatchIffComplete(c: Conn, input: seq<ReadStep>, env: Collaborators, v: Variant)
    requires !HeadComplete(c.request)
    ensures Dispatched(ClientRead(c, input, env, v).end) <==>
      MayDispatch(c, v) && HeadComplete(ClientRead(c, input, env, v).conn.request)
  {
    AccumulateCompleteIff(c.clientFd != -1, c.request, input);
  }

  /**
   * A request is forwarded (the call returns 0 with a backend connection
   * under way) only for a parsed, non-local path with a backend chosen
   * and every connect step succeeding; an answered request returns -1.
   */
  lemma DispatchRoutes(c: Conn, env: Collaborators, v: Variant)
    ensures Code(Dispatch(c, env, v).0) == 0 <==>
      && env.parse(CString(c.request)).Some?
      && !Local(env.parse(CString(c.request)).value.path)
      && env.select.Some?
      && env.connect.socketOk && env.connect.nonblockOk && env.connect.addressOk
      && env.connect.connectOk && env.connect.registerOk
  {
  }

  /**
   * The locally answered requests: /health gets the health reply, /stats
   * the statistics reply, and any other path with no backend available
   * the 503 reply; each closes the connection. None of them touches the
   * backend descriptor, the state or the chosen backend (only the parsed
   * request is recorded), and none depends on what a connect attempt
   * would have returned (`io`).
   */
  lemma DispatchAnswers(c: Conn, env: Collaborators, v: Variant, io: ConnectOutcomes)
    requires env.parse(CString(c.request)).Some?
    ensures var path := env.parse(CString(c.request)).value.path;
      && (path == "/health" ==> Dispatch(c, env, v).0 == Replied(HealthReplied))
      && (path == "/stats" ==> Dispatch(c, env, v).0 == Replied(StatsReplied(env.statsJson)))
      && (!Local(path) && env.select.None? ==>
            Dispatch(c, env, v).0 == Replied(ErrorReplied(503, "Service Unavailable")))
    ensures var path := env.parse(CString(c.request)).value.path;
      Local(path) || env.select.None? ==>
        && Code(Dispatch(c, env, v).0) == -1
        && Dispatch(c, env, v).1 == c.(parsed := Some(env.parse(CString(c.request)).value))
        && Dispatch(c, env.(connect := io), v) == Dispatch(c, env, v)
  {
  }

  /** Appending bytes can only lengthen what C's string functions see. */
  lemma {:induction false} CStringGrows(a: seq<char>, b: seq<char>)
    ensures CString(a) <= CString(a + b)
    decreases |a|
  {
    if |a| > 0 && a[0] != '\0' {
      assert (a + b)[1..] == a[1..] + b;
      CStringGrows(a[1..], b);
    }
  }

  /** Once the buffer holds a blank line, appending keeps it. */
  lemma HeadStaysComplete(request: seq<char>, chunk: seq<char>)
    requires HeadComplete(request)
    ensures HeadComplete(request + chunk)
  {
    var s, t := CString(request), CString(request + chunk);
    CStringGrows(request, chunk);
    var i :| 0 <= i <= |s| && OccursAt(s, Terminator, i);
    assert t[i..i + |Terminator|] == s[i..i + |Terminator|];
    assert OccursAt(t, Terminator, i);
  }

  /**
   * The head stays in the buffer after the first dispatch, so as written
   * any further bytes from the client while the backend connect is under
   * way dispatch the same request again: a second backend socket is
   * opened and its descriptor replaces the first one in the slot, which is
   * never closed.
   */
  lemma RedispatchOverwrites(c: Conn, chunk: seq<char>, env: Collaborators)
    requires c.clientFd != -1 && c.state == ConnectingBackend && c.backendFd != -1
    requires HeadComplete(c.request)
    requires |chunk| > 0 && |c.request| + |chunk| < BufferSize
    requires env.parse(CString(c.request + chunk)).Some?
    requires !Local(env.parse(CString(c.request + chunk)).value.path)
    requires env.select.Some?
    requires env.connect.socketOk && env.connect.nonblockOk && env.connect.addressOk
    requires env.connect.connectOk && env.connect.registerOk
    requires env.connect.fd != c.backendFd
    ensures var r := ClientRead(c, [Data(chunk)], env, AsWritten);
      && r.end == Connecting && Code(r.end) == 0
      && r.conn.backendFd == env.connect.fd && r.conn.backendFd != c.backendFd
  {
    HeadStaysComplete(c.request, chunk);
  }

  /**
   * Corrected, a connection already connecting to its backend keeps its
   * backend descriptor and state whatever the client sends, and is kept
   * open unless the read fails, ends or overflows.
   */
  lemma ConnectingKeepsBackend(c: Conn, input: seq<ReadStep>, env: Collaborators)
    requires c.state == ConnectingBackend
    ensures var r := ClientRead(c, input, env, Corrected);
      && !Dispatched(r.end)
      && r.conn.backendFd == c.backendFd && r.conn.state == ConnectingBackend
  {
  }

  /**
   * The head is searched for only up to the first NUL: bytes after a NUL
   * never complete a request, whatever they hold.
   */
  lemma {:induction false} NulHidesTerminator(prefix: seq<char>, rest: seq<char>)
    requires '\0' !in prefix
    ensures CString(prefix + ['\0'] + rest) == prefix
  {
    var s := prefix + ['\0'] + rest;
    if |prefix| > 0 {
      assert s[1..] == prefix[1..] + ['\0'] + rest;
      NulHidesTerminator(prefix[1..], rest);
    }
  }
}
