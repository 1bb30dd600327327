/** The bridge's `ResponseWriter` (go/bridge/bridge.go, lines 48-66): an in-memory stand-in
    for a connection that records the status, the header map and the body the handler
    writes. The handler itself is any finite sequence of calls on it. */
module Writer {
  import opened Outcome
  import opened Base64
  import opened HttpHeader

  const StatusOK: int := 200

  /** What the writer has captured. */
  datatype Captured = Captured(status: int, headers: HeaderMap, body: seq<Byte>)

  /** The writer `Serve` creates at lines 110-116. */
  function Fresh(): Captured {
    Captured(StatusOK, map[], [])
  }

  /** One call a handler can make on the writer. The header calls act on the map that
      `Header()` returns, which is the writer's own map: the `http.Header` methods
      `Add`, `Set` and `Del`, or a direct assignment `Header()[name] = values` (no
      canonicalisation, and possibly an empty list). */
  datatype WriterCall =
    | HeaderAdd(name: string, value: string)
    | HeaderSet(name: string, value: string)
    | HeaderDel(name: string)
    | HeaderAssign(name: string, values: seq<string>)
    | Write(data: seq<Byte>)
    | WriteHeader(code: int)

  predicate IsHeaderCall(call: WriterCall) {
    call.HeaderAdd? || call.HeaderSet? || call.HeaderDel? || call.HeaderAssign?
  }

  function EditHeader(h: HeaderMap, call: WriterCall): HeaderMap
    requires IsHeaderCall(call)
  {
    match call
    case HeaderAdd(k, v) => Add(h, k, v)
    case HeaderSet(k, v) => Set(h, k, v)
    case HeaderDel(k) => Del(h, k)
    case HeaderAssign(k, vs) => h[k := vs]
  }

  function Step(c: Captured, call: WriterCall): Captured {
    match call
    case Write(p) => c.(body := c.body + p)
    case WriteHeader(code) => c.(status := code)
    case _ => c.(headers := EditHeader(c.headers, call))
  }

  /** The state after the handler's calls, one after the other. */
  function Replay(c: Captured, calls: seq<WriterCall>): Captured {
    if calls == [] then c else Step(Replay(c, calls[..|calls| - 1]), calls[|calls| - 1])
  }

  class ResponseWriter {
    var statusCode: int
    var headers: HeaderMap
    var body: seq<Byte>

    function State(): Captured
      reads this
    {
      Captured(statusCode, headers, body)
    }

    /** Status 200, an empty header map and an empty body. */
    constructor ()
      ensures statusCode == StatusOK && headers == map[] && body == []
    {
      statusCode := StatusOK;
      headers := map[];
      body := [];
    }

    /** `Header()`: the writer's own header map. */
    function Header(): HeaderMap
      reads this
    {
      headers
    }

    /** Stores the map a handler edited through `Header()`. */
    method StoreHeader(h: HeaderMap)
      modifies this
      ensures headers == h && statusCode == old(statusCode) && body == old(body)
    {
      headers := h;
    }

    /** `Write(p)`: appends exactly p and reports its length; the error is always nil
        (a `bytes.Buffer` write does not fail). */
    method Write(p: seq<Byte>) returns (n: nat)
      modifies this
      ensures body == old(body) + p && n == |p|
      ensures statusCode == old(statusCode) && headers == old(headers)
    {
      body := body + p;
      n := |p|;
    }

    /** `WriteHeader(code)`: records the status; the last call wins. */
    method WriteHeader(code: int)
      modifies this
      ensures statusCode == code && headers == old(headers) && body == old(body)
    {
      statusCode := code;
    }
  }

  /** Runs a handler that makes `calls` on the writer. */
  method RunHandler(w: ResponseWriter, calls: seq<WriterCall>)
    modifies w
    ensures w.State() == Replay(old(w.State()), calls)
  {
    ghost var c0 := w.State();
    var i := 0;
    while i < |calls|
      invariant 0 <= i <= |calls|
      invariant w.State() == Replay(c0, calls[..i])
    {
      var call := calls[i];
      match call {
        case Write(p) =>
          var _ := w.Write(p);
        case WriteHeader(code) =>
          w.WriteHeader(code);
        case _ =>
          w.StoreHeader(EditHeader(w.Header(), call));
      }
      assert calls[..i + 1][..i] == calls[..i];
      i := i + 1;
    }
    assert calls[..i] == calls;
  }

  /** The bytes of every `Write`, in order. */
  function Written(calls: seq<WriterCall>): seq<Byte> {
    if calls == [] then []
    else
      var last := calls[|calls| - 1];
      Written(calls[..|calls| - 1]) + (if last.Write? then last.data else [])
  }

  /** The code of the last `WriteHeader`, if there is one. */
  function LastStatus(calls: seq<WriterCall>): Option<int> {
    if calls == [] then None
    else if calls[|calls| - 1].WriteHeader? then Some(calls[|calls| - 1].code)
    else LastStatus(calls[..|calls| - 1])
  }

  /** The body only grows: it is what it was followed by every written byte, in order. */
  lemma {:induction false} ReplayBody(c: Captured, calls: seq<WriterCall>)
    ensures Replay(c, calls).body == c.body + Written(calls)
    decreases |calls|
  {
    if calls != [] {
      ReplayBody(c, calls[..|calls| - 1]);
    }
  }

  /** The status is the last one written, or the one before the calls if none was. */
  lemma {:induction false} ReplayStatus(c: Captured, calls: seq<WriterCall>)
    ensures Replay(c, calls).status == if LastStatus(calls).Some? then LastStatus(calls).value else c.status
    decreases |calls|
  {
    if calls != [] {
      ReplayStatus(c, calls[..|calls| - 1]);
    }
  }

  /** Writes and status changes leave the header map alone. */
  lemma {:induction false} ReplayKeepsHeaders(c: Captured, calls: seq<WriterCall>)
    requires forall i :: 0 <= i < |calls| ==> !IsHeaderCall(calls[i])
    ensures Replay(c, calls).headers == c.headers
    decreases |calls|
  {
    if calls != [] {
      ReplayKeepsHeaders(c, calls[..|calls| - 1]);
    }
  }

  /** A handler that never calls `WriteHeader` answers 200. */
  lemma DefaultStatus(calls: seq<WriterCall>)
    requires forall i :: 0 <= i < |calls| ==> !calls[i].WriteHeader?
    ensures Replay(Fresh(), calls).status == StatusOK
  {
    NoStatusWritten(calls);
    ReplayStatus(Fresh(), calls);
  }

  lemma {:induction false} NoStatusWritten(calls: seq<WriterCall>)
    requires forall i :: 0 <= i < |calls| ==> !calls[i].WriteHeader?
    ensures LastStatus(calls) == None
    decreases |calls|
  {
    if calls != [] {
      NoStatusWritten(calls[..|calls| - 1]);
    }
  }
}
