/**
 * The C balancer's canned HTTP replies: the error reply, the /health
 * reply and the /stats reply. A reply is kept as a status line, headers
 * and a body, and `Render` gives the bytes that `snprintf` lays out.
 * `snprintf` writes into a fixed stack buffer but returns the length the
 * whole text would have, and that length is what gets sent.
 */
module Responses {
  import opened Options
  import opened Text

  datatype Header = Header(name: string, value: string)

  datatype Response = Response(statusLine: string, headers: seq<Header>, body: string)

  /** Each header as `name: value` followed by CRLF. */
  function RenderHeaders(hs: seq<Header>): (s: string)
    ensures |hs| == 0 ==> s == ""
    decreases |hs|
  {
    if |hs| == 0 then ""
    else hs[0].name + ": " + hs[0].value + "\r\n" + RenderHeaders(hs[1..])
  }

  /** Status line, headers, the blank line, then the body. */
  function Render(r: Response): (s: string)
    ensures |s| == |r.statusLine| + 2 + |RenderHeaders(r.headers)| + 2 + |r.body|
    ensures s[|s| - |r.body|..] == r.body
  {
    var head := r.statusLine + "\r\n" + RenderHeaders(r.headers) + "\r\n";
    assert (head + r.body)[|head|..] == r.body;
    head + r.body
  }

  /** The value of the first `Content-Length` header, when it is a decimal numeral. */
  function DeclaredLength(hs: seq<Header>): (n: Option<nat>)
    decreases |hs|
  {
    if |hs| == 0 then None
    else if hs[0].name == "Content-Length" then
      if IsNumeral(hs[0].value) then Some(NumeralValue(hs[0].value)) else None
    else DeclaredLength(hs[1..])
  }

  /** The declared length is the length of the body actually sent. */
  predicate LengthHonest(r: Response)
  {
    DeclaredLength(r.headers) == Some(|r.body|)
  }

  // ------------------------------------------------------------ error reply

  /**
   * `server_send_error_response`'s text: `HTTP/1.1 <code> <text>`, a
   * plain-text type, a length of the text plus its newline, a close
   * header, and the text with a newline as the body.
   */
  function ErrorResponse(code: int, text: string): (r: Response)
    ensures r.statusLine == "HTTP/1.1 " + IntToDecimal(code) + " " + text
    ensures r.body == text + "\n"
    ensures |r.headers| == 3 && r.headers[0] == Header("Content-Type", "text/plain")
    ensures r.headers[1] == Header("Content-Length", NatToDecimal(|text| + 1))
    ensures r.headers[2] == Header("Connection", "close")
    ensures LengthHonest(r)
  {
    var r := Response(
      "HTTP/1.1 " + IntToDecimal(code) + " " + text,
      [Header("Content-Type", "text/plain"), Header("Content-Length", NatToDecimal(|text| + 1)), Header("Connection", "close")],
      text + "\n");
    assert DeclaredLength(r.headers) == DeclaredLength(r.headers[1..]);
    r
  }

  /**
   * What a reply buffer sends: the characters written into it (before
   * the terminating NUL), the number of bytes `send` is asked for, and
   * the size of the array.
   */
  datatype Sent = Sent(buffer: string, count: int, capacity: nat)

  /** `send` reads only inside the array (it may still read the NUL). */
  predicate InBounds(s: Sent)
  {
    0 <= s.count <= s.capacity
  }

  /** `send` reads exactly characters that were written, all inside the array. */
  predicate SentWhole(s: Sent)
  {
    0 <= s.count <= |s.buffer| <= s.capacity
  }

  /**
   * `snprintf` into an array of `size` bytes: it keeps at most `size - 1`
   * characters, writes the NUL after them, and returns the full length,
   * which is what `send` is asked for. A text of exactly `size`
   * characters is therefore sent cut short (its last byte is the NUL)
   * but stays in the array; only a longer one reads past it.
   */
  function FormatInto(size: nat, text: string): (s: Sent)
    requires size > 0
    ensures s.count == |text| && s.capacity == size
    ensures s.buffer <= text && |s.buffer| < size
    ensures |text| < size ==> s.buffer == text
    ensures InBounds(s) <==> |text| <= size
    ensures SentWhole(s) <==> |text| < size
  {
    if |text| < size then Sent(text, |text|, size) else Sent(text[..size - 1], |text|, size)
  }

  /** At exactly the buffer size the reply stays in bounds but loses its last character. */
  lemma FormatExactFit(size: nat, text: string)
    requires size > 0 && |text| == size
    ensures InBounds(FormatInto(size, text)) && !SentWhole(FormatInto(size, text))
    ensures FormatInto(size, text).buffer == text[..size - 1]
  {
  }

  const ErrorBufferSize: nat := 1024

  /** The error reply goes into a 1024-byte buffer and the connection is always closed afterwards (-1). */
  function SendErrorResponse(code: int, text: string): (r: (Sent, int))
    ensures r.1 == -1
    ensures |Render(ErrorResponse(code, text))| < ErrorBufferSize ==> r.0 == Sent(Render(ErrorResponse(code, text)), |Render(ErrorResponse(code, text))|, ErrorBufferSize)
    ensures InBounds(r.0) <==> |Render(ErrorResponse(code, text))| <= ErrorBufferSize
    ensures SentWhole(r.0) <==> |Render(ErrorResponse(code, text))| < ErrorBufferSize
  {
    (FormatInto(ErrorBufferSize, Render(ErrorResponse(code, text))), -1)
  }

  /** A number below 1000 takes at most three digits. */
  lemma DecimalShort(n: nat)
    requires n < 1000
    ensures |NatToDecimal(n)| <= 3
  {
    if n >= 10 {
      assert NatToDecimal(n) == NatToDecimal(n / 10) + [DigitChar(n % 10)];
      if n / 10 >= 10 {
        assert NatToDecimal(n / 10) == NatToDecimal(n / 100) + [DigitChar(n / 10 % 10)];
      }
    }
  }

  /**
   * An error reply with a three-digit code and a text of at most 469
   * characters fits the 1024-byte buffer, so it is sent whole. The texts
   * the server uses ("Service Unavailable", "Bad Gateway", "Internal
   * Server Error") are all far shorter.
   */
  lemma ErrorReplyFits(code: int, text: string)
    requires 0 <= code < 1000 && |text| <= 469
    ensures SentWhole(SendErrorResponse(code, text).0)
    ensures SendErrorResponse(code, text).0.buffer == Render(ErrorResponse(code, text))
  {
    var r := ErrorResponse(code, text);
    var hs := r.headers;
    DecimalShort(code);
    DecimalShort(|text| + 1);
    assert |RenderHeaders(hs[2..])| == 19 by {
      assert hs[2..][1..] == [];
    }
    assert |RenderHeaders(hs[1..])| == 37 + |NatToDecimal(|text| + 1)| by {
      assert hs[1..][1..] == hs[2..] && hs[1..][0] == hs[1];
      assert RenderHeaders(hs[1..]) == hs[1].name + ": " + hs[1].value + "\r\n" + RenderHeaders(hs[2..]);
    }
    assert |RenderHeaders(hs)| == 26 + |RenderHeaders(hs[1..])|;
  }

  // ----------------------------------------------------------- health reply

  const HealthBody: string := "{\"status\":\"healthy\"}\n"

  /** The /health reply as the source writes it, with the length fixed at 25. */
  const HealthAsWritten: Response :=
    Response("HTTP/1.1 200 OK", [Header("Content-Type", "application/json"), Header("Content-Length", "25")], HealthBody)

  /** The /health reply with the length taken from the body. */
  function HealthReply(): (r: Response)
    ensures r.statusLine == HealthAsWritten.statusLine && r.body == HealthAsWritten.body
    ensures |r.headers| == |HealthAsWritten.headers| && r.headers[0] == HealthAsWritten.headers[0]
    ensures LengthHonest(r)
  {
    var r := Response("HTTP/1.1 200 OK", [Header("Content-Type", "application/json"), Header("Content-Length", NatToDecimal(|HealthBody|))], HealthBody);
    assert DeclaredLength(r.headers) == DeclaredLength(r.headers[1..]);
    r
  }

  /**
   * The source's /health reply declares 25 bytes but its body is 21, so
   * a client waits for four bytes that never come; the reply built from
   * the body's length declares 21.
   */
  lemma HealthLengthMismatch()
    ensures |HealthAsWritten.body| == 21
    ensures DeclaredLength(HealthAsWritten.headers) == Some(25)
    ensures !LengthHonest(HealthAsWritten)
    ensures DeclaredLength(HealthReply().headers) == Some(21)
  {
    var hs := HealthAsWritten.headers;
    assert DeclaredLength(hs) == DeclaredLength(hs[1..]);
    assert NumeralValue("25") == 25 by {
      assert "25"[..1] == "2";
      assert "2"[..0] == "";
    }
  }

  // ------------------------------------------------------------ stats reply

  const StatsBufferSize: nat := 4096

  /** The /stats reply around a JSON text, with its length declared. */
  function StatsResponse(json: string): (r: Response)
    ensures r.body == json && r.statusLine == "HTTP/1.1 200 OK"
    ensures LengthHonest(r)
  {
    var r := Response("HTTP/1.1 200 OK", [Header("Content-Type", "application/json"), Header("Content-Length", NatToDecimal(|json|))], json);
    assert DeclaredLength(r.headers) == DeclaredLength(r.headers[1..]);
    r
  }

  /**
   * `server_handle_stats_endpoint` as written: no JSON gives the 500 error
   * reply; otherwise the reply is formatted into a 4096-byte buffer and
   * `send` is asked for the full formatted length. Either way the
   * connection is closed (-1).
   */
  function StatsAsWritten(json: Option<string>): (r: (Sent, int))
    ensures r.1 == -1
    ensures json.None? ==> r == SendErrorResponse(500, "Internal Server Error")
    ensures json.Some? ==> r.0.count == |Render(StatsResponse(json.value))|
    ensures json.Some? ==> (InBounds(r.0) <==> |Render(StatsResponse(json.value))| <= StatsBufferSize)
    ensures json.Some? ==> (SentWhole(r.0) <==> |Render(StatsResponse(json.value))| < StatsBufferSize)
  {
    match json
    case None => SendErrorResponse(500, "Internal Server Error")
    case Some(j) => (FormatInto(StatsBufferSize, Render(StatsResponse(j))), -1)
  }

  /**
   * A long statistics text makes `send` read past the 4096-byte buffer:
   * any JSON of 4096 characters or more does.
   */
  lemma StatsOverRead(json: string)
    requires |json| >= StatsBufferSize
    ensures !InBounds(StatsAsWritten(Some(json)).0)
  {
  }

  /**
   * The stats reply sent whole, whatever the length of the JSON: the
   * buffer is as large as the formatted reply.
   */
  function StatsReply(json: Option<string>): (r: (Sent, int))
    ensures r.1 == -1
    ensures json.None? ==> r == SendErrorResponse(500, "Internal Server Error")
    ensures json.Some? ==> SentWhole(r.0) && r.0.buffer == Render(StatsResponse(json.value))
  {
    match json
    case None => SendErrorResponse(500, "Internal Server Error")
    case Some(j) =>
      var text := Render(StatsResponse(j));
      (Sent(text, |text|, |text|), -1)
  }
}
