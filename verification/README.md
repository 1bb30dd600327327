# go-bridge in Dafny

A model of `go/bridge/bridge.go`, the bridge that lets an ordinary Go `http.Handler`
answer serverless function invocations. An invocation arrives as a JSON event
(`Request`: host, path, method, headers, optional body encoding, body). `Serve` does four
things in turn:

1. decodes the body (base64 when the event says so);
2. builds an `*http.Request`, setting `RequestURI` to the URL's path and copying every
   header value into it, with `host`, `content-length` and `x-real-ip` also setting
   the request's `Host`, `ContentLength` and `RemoteAddr`;
3. runs the handler against an in-memory `ResponseWriter` that records the status
   (200 unless the handler sets one), the header map and the body;
4. returns a `Response` event with that status, the header keys that hold values, the
   encoding `"base64"` and the base64 of the body.

`ParseJsonIntoRequest` decodes the event. Each header value in it is either one string or
a list of strings (`ReqHeaderValues.UnmarshalJSON`), and its `RequestURI` is the event's
whole path, query string included.

Modules, one per file:

| module | file | models |
|---|---|---|
| `Outcome` | outcome.dfy | `Option`, `Result`, and the bridge's error kinds |
| `Base64` | base64.dfy | `encoding/base64` `StdEncoding` (encode, and the non-strict decoder) |
| `StrConv` | strconv.dfy | `strconv.ParseInt(s, 10, 64)` |
| `HttpHeader` | http_header.dfy | `http.Header` `Add`/`Set`/`Del`, `textproto.CanonicalMIMEHeaderKey`, `strings.ToLower` |
| `HeaderValues` | header_values.dfy | `ReqHeaderValues.UnmarshalJSON` and the decoding of the event's header map |
| `HttpRequests` | http_request.dfy | the `*http.Request` as a class, and the header-copy loop (lines 91-108) |
| `Writer` | response_writer.dfy | `ResponseWriter` as a class, with the handler's calls on it |
| `Bridge` | bridge.dfy | `Serve`, `ParseJsonIntoRequest`, the flatten loop and serialisation, and the properties of the whole |

Some functions of the Go source only compute a value; they are Dafny functions
specified by lemmas. Some objects are updated in place: the request, the writer, and
the maps built by the two nested loops. These are classes or methods with loop
invariants, proved equal to the functions (`ApplyHeaders`, `RunHandler`,
`FlattenHeaders`, `Serve`).

Two behaviours of the code worth knowing:

- A `content-length` value that is not a number is not ignored. `strconv.ParseInt`'s
  error is discarded, so `ContentLength` becomes 0, or the int64 bound for a number
  too large.
- Header names are not kept in their original case. `Header.Add` stores each value
  under the canonical form of the name, so `x-foo` becomes `X-Foo`.

## Model

| member | source | states |
|---|---|---|
| Base64.EncodeSextet | go/bridge/bridge.go:132 | each 6-bit value encodes to an alphabet character that decodes back to it |
| Base64.DecodeSextet | go/bridge/bridge.go:73 | padding, CR and LF are never alphabet characters |
| Base64.Encode | go/bridge/bridge.go:132 | output length is 4 * ceil(n / 3), and every byte is an alphabet character or '=' |
| Base64.StripNewlines | go/bridge/bridge.go:73 | the result holds no CR or LF, and input without them is returned unchanged |
| Base64.DecodeQuantaEncode | go/bridge/bridge.go:73 | the quantum decoder inverts the encoder on every byte string |
| Base64.DecodeEncode | go/bridge/bridge.go:132 | round trip: `DecodeString(EncodeToString(b)) == b` for every byte string, binary included |
| Base64.DecodeNeedsPadding | go/bridge/bridge.go:73-76 | input whose length, line breaks aside, is not a multiple of 4 is a decode error |
| Base64.DecodeIgnoresNewlines | go/bridge/bridge.go:73 | removing line breaks never changes the outcome of decoding |
| StrConv.ScanUint | go/bridge/bridge.go:101 | the unsigned scan never exceeds the largest uint64 |
| StrConv.ParseInt | go/bridge/bridge.go:101 | the value is always within int64, and a syntax error comes with the value 0 |
| StrConv.ParseIntDecimal | go/bridge/bridge.go:101-102 | an optionally signed decimal that fits in int64 parses to its value without error |
| StrConv.ParseIntSaturates | go/bridge/bridge.go:101-102 | an unsigned or "+" decimal above the largest int64 gives that largest value (with a range error) |
| StrConv.ParseIntSaturatesNeg | go/bridge/bridge.go:101-102 | a "-" decimal below the smallest int64 gives that smallest value (with a range error) |
| StrConv.ParseIntOverflow | go/bridge/bridge.go:101-102 | digits that overflow 64 bits give the int64 bound of the sign, even when a non-digit follows them |
| StrConv.ParseIntNonDigit | go/bridge/bridge.go:101-102 | a non-digit character before any overflow makes the value 0 (a syntax error) |
| StrConv.ParseIntEmpty | go/bridge/bridge.go:101-102 | an empty value, or a sign alone, gives 0 (a syntax error) |
| HttpHeader.CanonicalCase | go/bridge/bridge.go:93 | canonical casing keeps the key's length |
| HttpHeader.CanonicalKeyIdempotent | go/bridge/bridge.go:93 | canonicalising a canonical key changes nothing |
| HttpHeader.ToLower | go/bridge/bridge.go:94 | lower-casing keeps the length and maps each character on its own |
| HttpHeader.CanonicalKeySameLower | go/bridge/bridge.go:93-94 | the key a value is stored under lower-cases to the same name the switch matches on |
| HeaderValues.UnmarshalItems | go/bridge/bridge.go:33-34 | a decoded list has one string per JSON element |
| HeaderValues.UnmarshalHeaderValues | go/bridge/bridge.go:27-39 | a JSON string `s` becomes the one-element list `[s]`, and the only failure is a malformed header |
| HeaderValues.MarshalStrings | go/bridge/bridge.go:33-37 | a list becomes a JSON array with one element per value |
| HeaderValues.UnmarshalMarshal | go/bridge/bridge.go:33-37 | a JSON list of strings decodes to the same list, in the same order |
| HeaderValues.UnmarshalAccepts | go/bridge/bridge.go:27-39 | a value is accepted iff it is a string, null, or a list of strings and nulls |
| HeaderValues.DecodeHeaders | go/bridge/bridge.go:19 | decoding succeeds iff every value does; then it keeps exactly the keys and decodes each value |
| HeaderValues.DecodeMarshalledHeaders | go/bridge/bridge.go:19 | round trip: a header map written as JSON lists decodes back to itself |
| HttpRequests.ForwardedForOnlyHeader | go/bridge/bridge.go:103 | an `x-forwarded-for` value changes nothing but the header map |
| HttpRequests.HttpRequest.constructor | go/bridge/bridge.go:81 | the new request has the method, the URL's path and host, an empty header map, the body, and a content length equal to the body's length |
| HttpRequests.HttpRequest.SetRequestURI | go/bridge/bridge.go:85 | only `RequestURI` changes |
| HttpRequests.HttpRequest.AddHeaderValue | go/bridge/bridge.go:93-106 | one loop iteration: `Header.Add`, then the switch on the lower-cased name |
| HttpRequests.HttpRequest.ApplyHeaders | go/bridge/bridge.go:91-108 | the nested loop applies every (key, value) pair in iteration order |
| HttpRequests.ApplyPairsFields | go/bridge/bridge.go:94-106 | `Host` and `RemoteAddr` take the last `host` / `x-real-ip` value; `ContentLength` is the parse of the last `content-length` value; method, URL, request URI and body never change |
| HttpRequests.ApplyPairsHeader | go/bridge/bridge.go:93 | each canonical key holds its earlier values followed by the new pairs' values under it, in order; no other key appears |
| HttpRequests.PairsValuesUnder | go/bridge/bridge.go:91-93 | the values gathered under a canonical key are those of the event keys with that form, key after key |
| HttpRequests.SoleKeyValues | go/bridge/bridge.go:91-93 | a key with no other key of the same canonical form keeps exactly its values, in order |
| HttpRequests.SoleKeyLastWins | go/bridge/bridge.go:94-105 | for the one key matching a name, the switch ends on that key's last value, whatever the iteration order |
| HttpRequests.NoKeyNamed | go/bridge/bridge.go:94-105 | when no key with values matches a name, its switch case never runs |
| Writer.ResponseWriter.constructor | go/bridge/bridge.go:110-116 | a new writer has status 200, no headers and an empty body |
| Writer.ResponseWriter.Write | go/bridge/bridge.go:59-62 | appends exactly `p` and returns `len(p)`; status and headers are unchanged |
| Writer.ResponseWriter.WriteHeader | go/bridge/bridge.go:64-66 | sets the status; headers and body are unchanged |
| Writer.ResponseWriter.StoreHeader | go/bridge/bridge.go:55-57 | edits through `Header()` change only the header map |
| Writer.RunHandler | go/bridge/bridge.go:118 | the writer ends in the state the handler's calls produce, one after the other |
| Writer.ReplayBody | go/bridge/bridge.go:59-62 | the body is every written byte string concatenated, in order |
| Writer.ReplayStatus | go/bridge/bridge.go:64-66 | the status is the last `WriteHeader` code, or the earlier status if there was none |
| Writer.ReplayKeepsHeaders | go/bridge/bridge.go:59-66 | writes and status changes never touch the header map |
| Writer.DefaultStatus | go/bridge/bridge.go:113 | a handler that never calls `WriteHeader` answers 200 |
| Bridge.ParseJsonIntoRequest | go/bridge/bridge.go:147-153 | succeeds iff every header value decodes; keeps the keys, each with its decoded value (a string becomes a one-element list, a list stays the same list); copies host, method, encoding and body; `RequestURI` is the whole path, query included |
| Bridge.BuildRequest | go/bridge/bridge.go:71-108 | the built request is fresh and equals `Reconstruct`, and each failure is `Reconstruct`'s error |
| Bridge.FlattenHeaders | go/bridge/bridge.go:121-126 | the result holds exactly the keys with at least one value, each with the same values in order |
| Bridge.Serve | go/bridge/bridge.go:70-135 | the result is `Process`: the serialised writer state after the handler, or the error that stopped the request being built |
| Bridge.RequestBody | go/bridge/bridge.go:71-79 | a base64 body that fails to decode aborts with an error; otherwise the handler sees the decoded bytes, or the raw bytes for any other encoding |
| Bridge.Base64RequestBody | go/bridge/bridge.go:72-73 | a body sent as base64 of `b` reaches the handler as exactly `b` |
| Bridge.RequestTarget | go/bridge/bridge.go:81-85 | the handler sees the method (GET when empty), the URL's path, and a `RequestURI` equal to that path without the query |
| Bridge.RequestHeaders | go/bridge/bridge.go:91-93 | each canonical key holds the values of the event keys with that form, and is present iff it has values |
| Bridge.RequestHeaderValues | go/bridge/bridge.go:91-93 | an event key with no canonical clash reaches the handler with exactly its values, in order |
| Bridge.LastNamedOfEvent | go/bridge/bridge.go:94-105 | a sole matching key decides the switch with its last value, and no matching key means no change |
| Bridge.RequestFields | go/bridge/bridge.go:94-106 | `host`, `x-real-ip` and `content-length` (parsed, 0 if not a number) set `Host`, `RemoteAddr` and `ContentLength` with the last value winning; without them they stay the URL's host, "" and the body length |
| Bridge.ResponseOfHandler | go/bridge/bridge.go:121-133 | the response has the last status set (200 if none), encoding "base64", a body that decodes to exactly the bytes written, and exactly the header keys with values |
| Bridge.NewRequestFailure | go/bridge/bridge.go:81-89 | when `http.NewRequest` rejects the method or the path, `Serve` returns that error; as written, the code dereferences nil |
| Bridge.InvalidMethodDereferencesNil | go/bridge/bridge.go:85-87 | the method "BAD METHOD" makes the code as written dereference nil |
| Bridge.ServeExample | go/bridge/bridge_test.go:22-48 | the TestServe event gives status 404, `X-Foo: [bar baz]`, and a body that decodes to "test" |
| Bridge.ParseJsonExample | go/bridge/bridge_test.go:51-90 | the TestParseJsonIntoRequest event decodes with host example.com, `host: [example.com]` and `foo: [bar baz]` |

## Left out

- The JSON text of the event: `encoding/json` is not modelled. Header values are
  given as JSON values (`HeaderValues.Json`), and the other fields as decoded values.
- Byte strings: the body's Go string is modelled as its bytes, and header names and
  values as Dafny strings. UTF-8 is not modelled.
- `url.Parse` is a parameter of `Serve` (`UrlParser`): a function giving the host and
  the path without the query, or a parse failure.
- The order in which Go iterates the event's header map is an input: a sequence listing
  each key exactly once, which `Serve` requires. The properties that must hold for every
  order take any such sequence.
  The writer's map is flattened in an arbitrary order. Its result does not depend on the
  order, and the contract says so.
- The handler is a function from the request it receives to the calls it makes on the
  writer. It does not model a handler that reads the body stream or changes the request.
- `HttpHeader.ToLower`: only characters whose lower case is ASCII are lowered (A-Z,
  U+0130 and U+212A). Other characters are kept as they are, which cannot change a
  match against the four ASCII header names.
- `StrConv.ParseInt`: only base 10 and 64 bits, which is what the bridge asks for.
- `Writer.WriteHeader`, `Bridge.Response`: status codes and `ContentLength` are
  unbounded integers. Go's `int` and `int64` wrap-around is not modelled. The values
  involved come straight from the handler or are already clamped by `ParseInt`.
- `Base64.Decode`: models `StdEncoding` as the bridge uses it, so not the strict mode.
  The unused bits of the last quantum are ignored, as Go does.
- `defer r.Body.Close()` and the embedded `http.ResponseWriter` (always nil) are not
  modelled. Neither affects the response.
- `handler`, `Start` and the `userHandler` variable only hand events to and from the
  AWS Lambda runtime, which is outside the bridge's logic.
- `Response.Encoding` carries the tag `omitemtpy` (misspelt). The JSON encoder
  therefore always writes the field. Since the value is always "base64", this changes
  nothing in the model.
- A JSON `null` header value decodes to `[""]`: `encoding/json` leaves the target
  string unchanged. A `null` element in a list decodes to "".

## Findings

| source | as written | input that shows it | evidently intended | confidence | as-written member | corrected member |
|---|---|---|---|---|---|---|
| go/bridge/bridge.go:81-89 | `r.RequestURI = r.URL.Path` runs before the error of `http.NewRequest` is checked; on failure `r` is nil and the assignment dereferences it | an event whose method is `BAD METHOD` (not a token), or whose path `url.Parse` rejects | return the error from `Serve` without a response | not executed | Bridge.InvalidMethodDereferencesNil | Bridge.NewRequestFailure |
