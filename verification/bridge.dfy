/** `bridge.Serve` (go/bridge/bridge.go, lines 70-135) and `ParseJsonIntoRequest`
    (lines 147-153): rebuild an HTTP request from an event, run the handler against an
    in-memory writer, and turn what it wrote back into an event. */
module Bridge {
  import opened Outcome
  import opened Base64
  import opened StrConv
  import opened HttpHeader
  import opened HeaderValues
  import opened HttpRequests
  import opened Writer

  /** The inbound event, `bridge.Request`. */
  datatype Request = Request(
    host: string,
    path: string,          // with the query string
    httpMethod: string,
    headers: HeaderMap,
    encoding: string,      // "" when the JSON leaves it out
    body: seq<Byte>,
    requestURI: string)

  /** The inbound event as JSON decoding sees it, before header values are normalised. */
  datatype JsonRequest = JsonRequest(
    host: string,
    path: string,
    httpMethod: string,
    headers: map<string, Json>,
    encoding: string,
    body: seq<Byte>)

  /** The outbound event, `bridge.Response`. */
  datatype Response = Response(statusCode: int, headers: HeaderMap, encoding: string, body: seq<Byte>)

  /** The user's handler: the calls it makes on the writer, given the request it sees. */
  type Handler = RequestView -> seq<WriterCall>

  /** `url.Parse`, which belongs to net/url: None when it rejects the path. */
  type UrlParser = string -> Option<Url>

  /** `ParseJsonIntoRequest`: decode the event and set `RequestURI` to the whole path,
      query string included. A malformed header value fails the whole decoding. */
  function ParseJsonIntoRequest(raw: JsonRequest): (r: Result<Request, BridgeError>)
    ensures r.Ok? <==> forall k :: k in raw.headers ==> UnmarshalHeaderValues(raw.headers[k]).Ok?
    ensures r.Err? ==> r.error == MalformedHeader
    ensures r.Ok? ==> r.value.requestURI == raw.path && r.value.path == raw.path
    ensures r.Ok? ==> r.value.headers.Keys == raw.headers.Keys
    ensures r.Ok? ==> forall k :: k in raw.headers ==> r.value.headers[k] == UnmarshalHeaderValues(raw.headers[k]).value
    ensures r.Ok? ==> forall k :: k in raw.headers && raw.headers[k].JString? ==> r.value.headers[k] == [raw.headers[k].s]
    ensures r.Ok? ==> r.value.host == raw.host && r.value.httpMethod == raw.httpMethod
    ensures r.Ok? ==> r.value.encoding == raw.encoding && r.value.body == raw.body
  {
    var headers :- DecodeHeaders(raw.headers);
    Ok(Request(raw.host, raw.path, raw.httpMethod, headers, raw.encoding, raw.body, raw.path))
  }

  /** Lines 71-79: the body is base64-decoded when `encoding` is "base64" and taken as
      it is otherwise. */
  function DecodeBody(req: Request): Result<seq<Byte>, BridgeError> {
    if req.encoding == "base64" then
      match Decode(req.body)
      case Some(b) => Ok(b)
      case None => Err(BadBodyEncoding)
    else
      Ok(req.body)
  }

  /** The checks `http.NewRequest` makes before building a request: an empty method
      means GET, a method must be a token, and the path must parse as a URL. */
  function NewRequestTarget(verb: string, path: string, parseUrl: UrlParser): Result<(string, Url), BridgeError> {
    var m := if verb == "" then "GET" else verb;
    if !IsToken(m) then Err(InvalidMethod)
    else
      match parseUrl(path)
      case None => Err(InvalidUrl)
      case Some(u) => Ok((m, u))
  }

  /** The request the handler receives (lines 71-108), with the event's header keys
      visited in `order`. */
  function Reconstruct(req: Request, order: seq<string>, parseUrl: UrlParser): Result<RequestView, BridgeError>
    requires IsEnumeration(order, req.headers)
  {
    var body :- DecodeBody(req);
    var target :- NewRequestTarget(req.httpMethod, req.path, parseUrl);
    var url := target.1;
    var built := RequestView(target.0, url.path, url.path, map[], url.host, |body|, "", body);
    Ok(ApplyPairs(built, Pairs(req.headers, order)))
  }

  /** The keys that hold at least one value, with their values. */
  function Flattened(h: HeaderMap): HeaderMap {
    map k | k in h && h[k] != [] :: h[k]
  }

  /** Lines 121-133: the response event for what the writer captured. */
  function Serialize(c: Captured): Response {
    Response(c.status, Flattened(c.headers), "base64", Encode(c.body))
  }

  /** What `Serve` returns. */
  function Process(handler: Handler, req: Request, order: seq<string>, parseUrl: UrlParser): Result<Response, BridgeError>
    requires IsEnumeration(order, req.headers)
  {
    var view :- Reconstruct(req, order, parseUrl);
    Ok(Serialize(Replay(Fresh(), handler(view))))
  }

  /** Lines 71-108: decode the body, build the request, set `RequestURI`, and copy the
      headers. The source assigns `r.RequestURI` (line 85) before it checks the error of
      `http.NewRequest` (line 87), so a failing `NewRequest` dereferences a nil request
      there; here the failure is returned as an error. */
  method BuildRequest(req: Request, order: seq<string>, parseUrl: UrlParser) returns (r: Result<HttpRequest, BridgeError>)
    requires IsEnumeration(order, req.headers)
    ensures r.Err? ==> Reconstruct(req, order, parseUrl) == Err(r.error)
    ensures r.Ok? ==> fresh(r.value) && Reconstruct(req, order, parseUrl) == Ok(r.value.View())
  {
    var body: seq<Byte>;
    if req.encoding == "base64" {
      var decoded := Decode(req.body);
      if decoded.None? {
        return Err(BadBodyEncoding);
      }
      body := decoded.value;
    } else {
      body := req.body;
    }
    var target := NewRequestTarget(req.httpMethod, req.path, parseUrl);
    if target.Err? {
      return Err(target.error);
    }
    var hr := new HttpRequest(target.value.0, target.value.1, body);
    hr.SetRequestURI(hr.urlPath);
    hr.ApplyHeaders(req.headers, order);
    return Ok(hr);
  }

  /** Lines 121-126: copy the writer's header map value by value, visiting its keys in
      whatever order the map yields them. A key whose list is empty is never assigned. */
  method FlattenHeaders(h: HeaderMap) returns (out: HeaderMap)
    ensures forall k :: k in out <==> k in h && h[k] != []
    ensures forall k :: k in out ==> out[k] == h[k]
  {
    out := map[];
    var keys := h.Keys;
    while keys != {}
      invariant keys <= h.Keys
      invariant forall k :: k in out <==> k in h && k !in keys && h[k] != []
      invariant forall k :: k in out ==> out[k] == h[k]
      decreases keys
    {
      var k :| k in keys;
      var vs := h[k];
      var j := 0;
      while j < |vs|
        invariant 0 <= j <= |vs|
        invariant forall k' :: k' in out <==> k' in h && (k' !in keys || (k' == k && j > 0)) && h[k'] != []
        invariant forall k' :: k' in out && k' != k ==> out[k'] == h[k']
        invariant j > 0 ==> out[k] == vs[..j]
      {
        out := out[k := (if k in out then out[k] else []) + [vs[j]]];
        j := j + 1;
      }
      assert vs[..j] == vs;
      keys := keys - {k};
    }
  }

  /** `Serve`: the response for the event, or the error that aborted it. */
  method Serve(handler: Handler, req: Request, order: seq<string>, parseUrl: UrlParser)
    returns (res: Result<Response, BridgeError>)
    requires IsEnumeration(order, req.headers)
    ensures res == Process(handler, req, order, parseUrl)
  {
    var built := BuildRequest(req, order, parseUrl);
    if built.Err? {
      return Err(built.error);
    }
    var r := built.value;
    var w := new ResponseWriter();
    RunHandler(w, handler(r.View()));
    var headers := FlattenHeaders(w.headers);
    assert headers == Flattened(w.headers);
    res := Ok(Response(w.statusCode, headers, "base64", Encode(w.body)));
  }

  // ---------------------------------------------------------------------------------
  // Lines 81-89 as written.

  /** How building the request ends when lines 81-89 run as written. */
  datatype BuildOutcome = Built(view: RequestView) | Failed(error: BridgeError) | NilDereference

  /** Lines 71-108 in the source's own order: when `http.NewRequest` fails it returns a
      nil request, and line 85 reads `r.URL` before line 87 looks at the error. */
  function ReconstructAsWritten(req: Request, order: seq<string>, parseUrl: UrlParser): BuildOutcome
    requires IsEnumeration(order, req.headers)
  {
    if DecodeBody(req).Ok? && NewRequestTarget(req.httpMethod, req.path, parseUrl).Err? then
      NilDereference
    else
      match Reconstruct(req, order, parseUrl)
      case Ok(v) => Built(v)
      case Err(e) => Failed(e)
  }

  /** Whenever `http.NewRequest` rejects the method or the path, the code as written
      dereferences nil, while `Reconstruct` (which `Serve` follows) returns the error and
      no response. */
  lemma NewRequestFailure(handler: Handler, req: Request, order: seq<string>, parseUrl: UrlParser)
    requires IsEnumeration(order, req.headers)
    requires DecodeBody(req).Ok? && NewRequestTarget(req.httpMethod, req.path, parseUrl).Err?
    ensures ReconstructAsWritten(req, order, parseUrl) == NilDereference
    ensures Reconstruct(req, order, parseUrl) == Err(NewRequestTarget(req.httpMethod, req.path, parseUrl).error)
    ensures Process(handler, req, order, parseUrl) == Err(NewRequestTarget(req.httpMethod, req.path, parseUrl).error)
  {
  }

  /** The event that shows it: a method with a space in it is not a token. */
  lemma InvalidMethodDereferencesNil(order: seq<string>, parseUrl: UrlParser)
    requires |order| == 0
    ensures var req := Request("", "/", "BAD METHOD", map[], "", [], "");
      && ReconstructAsWritten(req, order, parseUrl) == NilDereference
      && Reconstruct(req, order, parseUrl) == Err(InvalidMethod)
  {
    assert !IsTokenChar("BAD METHOD"[3]);
  }

  // ---------------------------------------------------------------------------------
  // Properties of the request side.

  /** A base64 body that does not decode aborts `Serve` with no response; otherwise the
      handler sees the decoded bytes, or the event's bytes as they are when the encoding
      is anything but "base64". */
  lemma RequestBody(handler: Handler, req: Request, order: seq<string>, parseUrl: UrlParser)
    requires IsEnumeration(order, req.headers)
    ensures req.encoding == "base64" && Decode(req.body).None? ==>
      Process(handler, req, order, parseUrl) == Err(BadBodyEncoding)
    ensures Reconstruct(req, order, parseUrl).Ok? ==>
      Reconstruct(req, order, parseUrl).value.body ==
        if req.encoding == "base64" then Decode(req.body).value else req.body
  {
    var body := DecodeBody(req);
    var target := NewRequestTarget(req.httpMethod, req.path, parseUrl);
    if body.Ok? && target.Ok? {
      var url := target.value.1;
      var built := RequestView(target.value.0, url.path, url.path, map[], url.host, |body.value|, "", body.value);
      ApplyPairsFields(built, Pairs(req.headers, order));
    }
  }

  /** A body sent base64-encoded reaches the handler as exactly the original bytes. */
  lemma Base64RequestBody(req: Request, b: seq<Byte>)
    requires req.encoding == "base64" && req.body == Encode(b)
    ensures DecodeBody(req) == Ok(b)
  {
    DecodeEncode(b);
  }

  /** The handler sees the method (GET for an empty one), the URL's path, and a
      `RequestURI` equal to that path: the query string is not part of it. */
  lemma RequestTarget(req: Request, order: seq<string>, parseUrl: UrlParser)
    requires IsEnumeration(order, req.headers)
    requires Reconstruct(req, order, parseUrl).Ok?
    ensures var v := Reconstruct(req, order, parseUrl).value;
      && parseUrl(req.path).Some?
      && v.urlPath == parseUrl(req.path).value.path
      && v.requestURI == v.urlPath
      && v.httpMethod == (if req.httpMethod == "" then "GET" else req.httpMethod)
  {
    var body := DecodeBody(req).value;
    var target := NewRequestTarget(req.httpMethod, req.path, parseUrl).value;
    var url := target.1;
    var built := RequestView(target.0, url.path, url.path, map[], url.host, |body|, "", body);
    ApplyPairsFields(built, Pairs(req.headers, order));
  }

  /** Every (name, value) pair of the event is in the request's header map under the
      canonical form of its name: each canonical key holds the values of the event keys
      with that form, key after key, each key's values in their own order; no other key
      is present. */
  lemma RequestHeaders(req: Request, order: seq<string>, parseUrl: UrlParser, c: string)
    requires IsEnumeration(order, req.headers)
    requires Reconstruct(req, order, parseUrl).Ok?
    ensures Values(Reconstruct(req, order, parseUrl).value.header, c) == ValuesOfKeys(req.headers, order, c)
    ensures c in Reconstruct(req, order, parseUrl).value.header <==> ValuesOfKeys(req.headers, order, c) != []
  {
    var body := DecodeBody(req).value;
    var target := NewRequestTarget(req.httpMethod, req.path, parseUrl).value;
    var url := target.1;
    var built := RequestView(target.0, url.path, url.path, map[], url.host, |body|, "", body);
    ApplyPairsHeader(built, Pairs(req.headers, order), c);
    PairsValuesUnder(req.headers, order, c);
  }

  /** When no other event key has the same canonical form, the request holds exactly the
      event key's values, in order, whatever order the map is iterated in. */
  lemma RequestHeaderValues(req: Request, order: seq<string>, parseUrl: UrlParser, k: string)
    requires IsEnumeration(order, req.headers)
    requires Reconstruct(req, order, parseUrl).Ok?
    requires k in req.headers
    requires forall k' :: k' in req.headers && k' != k ==> CanonicalKey(k') != CanonicalKey(k)
    ensures Values(Reconstruct(req, order, parseUrl).value.header, CanonicalKey(k)) == req.headers[k]
  {
    RequestHeaders(req, order, parseUrl, CanonicalKey(k));
    SoleKeyValues(req.headers, order, k);
  }

  /** The value of the event key whose lower case is `name`, when there is one such key
      and it has values: the last of them. */
  function SoleLast(req: Request, name: string): Option<string> {
    if exists k :: k in req.headers && ToLower(k) == name && req.headers[k] != []
                   && forall k' :: k' in req.headers && k' != k ==> ToLower(k') != name
    then
      var k :| k in req.headers && ToLower(k) == name && req.headers[k] != []
               && forall k' :: k' in req.headers && k' != k ==> ToLower(k') != name;
      Some(req.headers[k][|req.headers[k]| - 1])
    else None
  }

  /** True when no event key that lower-cases to `name` has a value. */
  predicate Absent(req: Request, name: string) {
    forall k :: k in req.headers && ToLower(k) == name ==> req.headers[k] == []
  }

  lemma LastNamedOfEvent(req: Request, order: seq<string>, name: string)
    requires IsEnumeration(order, req.headers)
    ensures SoleLast(req, name).Some? ==> LastNamed(Pairs(req.headers, order), name) == SoleLast(req, name)
    ensures Absent(req, name) ==> LastNamed(Pairs(req.headers, order), name) == None
  {
    if SoleLast(req, name).Some? {
      var k :| k in req.headers && ToLower(k) == name && req.headers[k] != []
               && forall k' :: k' in req.headers && k' != k ==> ToLower(k') != name;
      SoleKeyLastWins(req.headers, order, k, name);
    }
    if Absent(req, name) {
      NoKeyNamed(req.headers, order, name);
    }
  }

  /** `host` (in any case) sets the request's Host, `x-real-ip` its RemoteAddr, and
      `content-length` its ContentLength to the base-10 parse of the value (0 when it is
      not a number, which is not an error); within the one key the last value wins.
      Without them the request keeps what `http.NewRequest` gave it: the URL's host, no
      remote address, and the body's length. */
  lemma RequestFields(req: Request, order: seq<string>, parseUrl: UrlParser)
    requires IsEnumeration(order, req.headers)
    requires Reconstruct(req, order, parseUrl).Ok?
    ensures var v := Reconstruct(req, order, parseUrl).value;
      && (SoleLast(req, "host").Some? ==> v.host == SoleLast(req, "host").value)
      && (Absent(req, "host") ==> v.host == parseUrl(req.path).value.host)
      && (SoleLast(req, "x-real-ip").Some? ==> v.remoteAddr == SoleLast(req, "x-real-ip").value)
      && (Absent(req, "x-real-ip") ==> v.remoteAddr == "")
      && (SoleLast(req, "content-length").Some? ==>
            v.contentLength == ParseInt(SoleLast(req, "content-length").value).0)
      && (Absent(req, "content-length") ==> v.contentLength == |v.body|)
  {
    var body := DecodeBody(req).value;
    var target := NewRequestTarget(req.httpMethod, req.path, parseUrl).value;
    var url := target.1;
    var built := RequestView(target.0, url.path, url.path, map[], url.host, |body|, "", body);
    ApplyPairsFields(built, Pairs(req.headers, order));
    LastNamedOfEvent(req, order, "host");
    LastNamedOfEvent(req, order, "x-real-ip");
    LastNamedOfEvent(req, order, "content-length");
  }

  // ---------------------------------------------------------------------------------
  // Properties of the response side.

  /** The response carries the handler's last status (200 if it set none), is always
      base64-encoded, decodes back to exactly the bytes the handler wrote, and holds
      exactly the header keys that have values, each with the same values in order. */
  lemma ResponseOfHandler(handler: Handler, req: Request, order: seq<string>, parseUrl: UrlParser)
    requires IsEnumeration(order, req.headers)
    requires Reconstruct(req, order, parseUrl).Ok?
    ensures var calls := handler(Reconstruct(req, order, parseUrl).value);
      var res := Process(handler, req, order, parseUrl);
      var hs := Replay(Fresh(), calls).headers;
      && res.Ok?
      && res.value.statusCode == (if LastStatus(calls).Some? then LastStatus(calls).value else StatusOK)
      && res.value.encoding == "base64"
      && Decode(res.value.body) == Some(Written(calls))
      && (forall k :: k in res.value.headers <==> k in hs && hs[k] != [])
      && (forall k :: k in res.value.headers ==> res.value.headers[k] == hs[k])
  {
    var calls := handler(Reconstruct(req, order, parseUrl).value);
    ReplayStatus(Fresh(), calls);
    ReplayBody(Fresh(), calls);
    assert Replay(Fresh(), calls).body == Written(calls);
    DecodeEncode(Written(calls));
  }

  // ---------------------------------------------------------------------------------
  // The two scenarios of go/bridge/bridge_test.go.

  /** The calls TestServe's handler makes: two values under X-Foo, status 404, body "test". */
  function ExampleCalls(): seq<WriterCall> {
    [HeaderAdd("X-Foo", "bar"), HeaderAdd("X-Foo", "baz"), WriteHeader(404), Write([116, 101, 115, 116])]
  }

  /** TestServe's handler, which makes the same calls whatever the request. */
  function ExampleHandler(): Handler {
    _ => ExampleCalls()
  }

  /** The event of TestServe: a POST of the plain body "a". */
  function ExampleRequest(): Request {
    Request("test.com", "/path?foo=bar", "POST", map["Content-Length" := ["1"], "X-Foo" := ["bar"]], "", [97], "")
  }

  /** TestServe: the response has status 404, the handler's two X-Foo values, and a
      body that decodes to "test". */
  lemma ServeExample(order: seq<string>, parseUrl: UrlParser)
    requires IsEnumeration(order, ExampleRequest().headers)
    requires parseUrl("/path?foo=bar").Some?
    ensures Reconstruct(ExampleRequest(), order, parseUrl).Ok?
    ensures Process(ExampleHandler(), ExampleRequest(), order, parseUrl) ==
      Ok(Response(404, map["X-Foo" := ["bar", "baz"]], "base64", Encode([116, 101, 115, 116])))
    ensures Decode(Process(ExampleHandler(), ExampleRequest(), order, parseUrl).value.body) ==
      Some([116, 101, 115, 116])
  {
    var req := ExampleRequest();
    assert IsToken("POST");
    ExampleReplay();
    var h := map["X-Foo" := ["bar", "baz"]];
    assert Flattened(h) == h;
    DecodeEncode([116, 101, 115, 116]);
  }

  lemma XFooIsCanonical()
    ensures CanonicalKey("X-Foo") == "X-Foo"
  {
    assert AllTokenChars("X-Foo");
    assert "X-Foo"[1..] == "-Foo" && "-Foo"[1..] == "Foo" && "Foo"[1..] == "oo" && "oo"[1..] == "o";
    assert CanonicalCase("o", false) == "o";
    assert CanonicalCase("oo", false) == "oo";
    assert CanonicalCase("Foo", true) == "Foo";
    assert CanonicalCase("-Foo", false) == "-Foo";
  }

  /** What TestServe's handler leaves in the writer. */
  lemma ExampleReplay()
    ensures Replay(Fresh(), ExampleCalls()) == Captured(404, map["X-Foo" := ["bar", "baz"]], [116, 101, 115, 116])
  {
    XFooIsCanonical();
    var calls := ExampleCalls();
    assert calls[..3] == calls[..3];
    assert calls[..3][..2] == calls[..2];
    assert calls[..2][..1] == calls[..1];
    assert calls[..1][..0] == [];
    var c := CanonicalKey("X-Foo");
    assert Values(map[], c) + ["bar"] == ["bar"];
    assert Add(map[], "X-Foo", "bar") == map["X-Foo" := ["bar"]];
    assert Values(map["X-Foo" := ["bar"]], c) + ["baz"] == ["bar", "baz"];
    assert Add(map["X-Foo" := ["bar"]], "X-Foo", "baz") == map["X-Foo" := ["bar", "baz"]];
    assert Replay(Fresh(), calls[..1]) == Captured(200, map["X-Foo" := ["bar"]], []);
    assert Replay(Fresh(), calls[..2]) == Captured(200, map["X-Foo" := ["bar", "baz"]], []);
    assert Replay(Fresh(), calls[..3]) == Captured(404, map["X-Foo" := ["bar", "baz"]], []);
  }

  /** The event of TestParseJsonIntoRequest, with its header values as JSON values. */
  function ExampleEvent(): JsonRequest {
    JsonRequest("example.com", "/", "GET",
      map[
        "host" := JString("example.com"),
        "x-real-ip" := JString("0.0.0.0"),
        "foo" := JArray([JString("bar"), JString("baz")]),
        "x-forwarded-host" := JString("example.com"),
        "accept" := JString("*/*"),
        "x-forwarded-proto" := JString("https"),
        "x-vercel-deployment-url" := JString("example.com"),
        "x-forwarded-for" := JString("0.0.0.0"),
        "user-agent" := JString("curl/7.64.1"),
        "x-vercel-forwarded-for" := JString("0.0.0.0"),
        "x-vercel-id" := JString("dev1::pkmmp-1636755907234-8ee8499e420c")],
      "", [])
  }

  /** TestParseJsonIntoRequest: the event decodes, keeps its host, turns the string
      header into a one-value list and keeps the list header's values in order. */
  lemma ParseJsonExample()
    ensures var r := ParseJsonIntoRequest(ExampleEvent());
      && r.Ok?
      && r.value.host == "example.com"
      && r.value.requestURI == "/"
      && r.value.headers["host"] == ["example.com"]
      && r.value.headers["foo"] == ["bar", "baz"]
  {
    var m := ExampleEvent().headers;
    forall k | k in m
      ensures UnmarshalHeaderValues(m[k]).Ok?
    {
      UnmarshalAccepts(m[k]);
    }
    UnmarshalMarshal(["bar", "baz"]);
    assert m["foo"] == MarshalStrings(["bar", "baz"]);
  }
}
