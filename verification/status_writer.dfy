/**
 * The test backend's logging response writer: it passes everything on to
 * the real writer and remembers the status code and the number of bytes
 * written. The real writer is left out; each write is given the byte
 * count it reports.
 */
module StatusWriter {

  datatype Recorder = Recorder(status: int, size: int)

  /** A fresh wrapper has seen no status and no bytes. */
  function NewRecorder(): (w: Recorder)
    ensures w.status == 0 && w.size == 0
  {
    Recorder(0, 0)
  }

  /** `WriteHeader` records the code it is given. */
  function WriteHeader(w: Recorder, code: int): (r: Recorder)
    ensures r.status == code && r.size == w.size
  {
    w.(status := code)
  }

  /** `Write` implies 200 when no status was set, and adds the count the real writer reports. */
  function Write(w: Recorder, n: int): (r: Recorder)
    ensures r.size == w.size + n
    ensures w.status != 0 ==> r.status == w.status
    ensures w.status == 0 ==> r.status == 200
  {
    Recorder(if w.status == 0 then 200 else w.status, w.size + n)
  }

  /** One call on the wrapper. */
  datatype Call = HeaderCall(code: int) | WriteCall(n: int)

  /** The calls applied in order. */
  function Replay(w: Recorder, calls: seq<Call>): (r: Recorder)
    decreases |calls|
  {
    if |calls| == 0 then w
    else
      var next := match calls[0]
        case HeaderCall(code) => WriteHeader(w, code)
        case WriteCall(n) => Write(w, n);
      Replay(next, calls[1..])
  }

  /** The byte counts of the writes among the calls. */
  function Written(calls: seq<Call>): (total: int)
    ensures (forall i :: 0 <= i < |calls| ==> calls[i].WriteCall? ==> calls[i].n >= 0) ==> total >= 0
    decreases |calls|
  {
    if |calls| == 0 then 0
    else (if calls[0].WriteCall? then calls[0].n else 0) + Written(calls[1..])
  }

  /** The size is exactly the sum of the counts the real writer reported. */
  lemma {:induction false} ReplaySize(w: Recorder, calls: seq<Call>)
    ensures Replay(w, calls).size == w.size + Written(calls)
    decreases |calls|
  {
    if |calls| > 0 {
      var next := match calls[0]
        case HeaderCall(code) => WriteHeader(w, code)
        case WriteCall(n) => Write(w, n);
      ReplaySize(next, calls[1..]);
    }
  }

  /**
   * The status read from the end of the calls: the last header's code,
   * unless a write comes after it while that code is 0; with no header,
   * 200 after any write and the starting status otherwise.
   */
  function FinalStatus(start: int, calls: seq<Call>): (s: int)
    decreases |calls|
  {
    if |calls| == 0 then start
    else
      var before := FinalStatus(start, calls[..|calls| - 1]);
      match calls[|calls| - 1]
      case HeaderCall(code) => code
      case WriteCall(_) => if before == 0 then 200 else before
  }

  lemma {:induction false} ReplaySnoc(w: Recorder, calls: seq<Call>, c: Call)
    ensures Replay(w, calls + [c]) == Replay(Replay(w, calls), [c])
    decreases |calls|
  {
    if |calls| == 0 {
      assert calls + [c] == [c];
    } else {
      var next := match calls[0]
        case HeaderCall(code) => WriteHeader(w, code)
        case WriteCall(n) => Write(w, n);
      assert (calls + [c])[0] == calls[0] && (calls + [c])[1..] == calls[1..] + [c];
      ReplaySnoc(next, calls[1..], c);
    }
  }

  /** Replaying the calls leaves exactly the status read from the end. */
  lemma {:induction false} ReplayStatus(w: Recorder, calls: seq<Call>)
    ensures Replay(w, calls).status == FinalStatus(w.status, calls)
    decreases |calls|
  {
    if |calls| > 0 {
      var init := calls[..|calls| - 1];
      var last := calls[|calls| - 1];
      assert calls == init + [last];
      ReplaySnoc(w, init, last);
      ReplayStatus(w, init);
    }
  }

  /** Once a status is set, writes never change it. */
  lemma {:induction false} WritesKeepStatus(w: Recorder, calls: seq<Call>)
    requires w.status != 0
    requires forall i :: 0 <= i < |calls| ==> calls[i].WriteCall?
    ensures Replay(w, calls).status == w.status
    decreases |calls|
  {
    if |calls| > 0 {
      WritesKeepStatus(Write(w, calls[0].n), calls[1..]);
    }
  }

  /** A handler that only writes is recorded as 200, with the bytes it wrote. */
  lemma ImplicitOk(calls: seq<Call>)
    requires |calls| > 0 && forall i :: 0 <= i < |calls| ==> calls[i].WriteCall?
    ensures Replay(NewRecorder(), calls).status == 200
    ensures Replay(NewRecorder(), calls).size == Written(calls)
  {
    WritesKeepStatus(Write(NewRecorder(), calls[0].n), calls[1..]);
    ReplaySize(NewRecorder(), calls);
  }
}
