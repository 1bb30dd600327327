/** The `*http.Request` that `Serve` builds and hands to the handler, and the loop that
    copies the event's headers into it (go/bridge/bridge.go, lines 81-108). */
module HttpRequests {
  import opened Outcome
  import opened Base64
  import opened StrConv
  import opened HttpHeader

  /** What `url.Parse` yields for the event's path, as far as the bridge uses it: the
      host (after net/http drops an empty port) and the path without the query. */
  datatype Url = Url(host: string, path: string)

  /** The fields of `http.Request` the bridge sets or the handler may read. */
  datatype RequestView = RequestView(
    httpMethod: string,
    urlPath: string,
    requestURI: string,
    header: HeaderMap,
    host: string,
    contentLength: int,
    remoteAddr: string,
    body: seq<Byte>)

  /** One (name, value) pair of the event's headers. */
  datatype Pair = Pair(name: string, value: string)

  predicate Distinct(order: seq<string>) {
    forall i, j :: 0 <= i < j < |order| ==> order[i] != order[j]
  }

  /** `order` is one order in which `range` may visit the keys of `h`: every key once. */
  ghost predicate IsEnumeration(order: seq<string>, h: HeaderMap) {
    (forall k :: k in h <==> k in order) && Distinct(order)
  }

  function PairsOf(k: string, vs: seq<string>): seq<Pair> {
    seq(|vs|, i requires 0 <= i < |vs| => Pair(k, vs[i]))
  }

  /** The pairs in the order the nested loop of lines 91-92 visits them. */
  function Pairs(h: HeaderMap, order: seq<string>): seq<Pair>
    requires forall i :: 0 <= i < |order| ==> order[i] in h
  {
    if order == [] then []
    else Pairs(h, order[..|order| - 1]) + PairsOf(order[|order| - 1], h[order[|order| - 1]])
  }

  /** One iteration of the inner loop (lines 93-106): add the pair to the header map
      under its canonical key, then switch on the lower-cased name. */
  function ApplyPair(r: RequestView, p: Pair): RequestView {
    var r1 := r.(header := Add(r.header, p.name, p.value));
    var name := ToLower(p.name);
    if name == "host" then r1.(host := p.value)
    else if name == "content-length" then r1.(contentLength := ParseInt(p.value).0)
    else if name == "x-forwarded-for" then r1
    else if name == "x-real-ip" then r1.(remoteAddr := p.value)
    else r1
  }

  /** `x-forwarded-for` has a case of its own that does nothing: the value only lands
      in the header map, like any name the switch does not know. */
  lemma ForwardedForOnlyHeader(r: RequestView, p: Pair)
    requires ToLower(p.name) == "x-forwarded-for"
    ensures ApplyPair(r, p) == r.(header := Add(r.header, p.name, p.value))
  {
  }

  function ApplyPairs(r: RequestView, ps: seq<Pair>): RequestView {
    if ps == [] then r else ApplyPair(ApplyPairs(r, ps[..|ps| - 1]), ps[|ps| - 1])
  }

  /** `*http.Request`, with the fields the bridge updates in place. */
  class HttpRequest {
    var httpMethod: string
    var urlPath: string
    var requestURI: string
    var header: HeaderMap
    var host: string
    var contentLength: int
    var remoteAddr: string
    var body: seq<Byte>

    function View(): RequestView
      reads this
    {
      RequestView(httpMethod, urlPath, requestURI, header, host, contentLength, remoteAddr, body)
    }

    /** The request `http.NewRequest` returns for a body read from a `bytes.Reader`:
        no headers, the URL's host, and the body's length as the content length. */
    constructor (httpMethod: string, url: Url, body: seq<Byte>)
      ensures View() == RequestView(httpMethod, url.path, "", map[], url.host, |body|, "", body)
    {
      this.httpMethod := httpMethod;
      urlPath := url.path;
      requestURI := "";
      header := map[];
      host := url.host;
      contentLength := |body|;
      remoteAddr := "";
      this.body := body;
    }

    method SetRequestURI(uri: string)
      modifies this
      ensures View() == old(View()).(requestURI := uri)
    {
      requestURI := uri;
    }

    /** `r.Header.Add(k, v)` followed by the switch on `strings.ToLower(k)`. */
    method AddHeaderValue(k: string, v: string)
      modifies this
      ensures View() == ApplyPair(old(View()), Pair(k, v))
    {
      header := Add(header, k, v);
      var name := ToLower(k);
      if name == "host" {
        host := v;
      } else if name == "content-length" {
        var (n, _) := ParseInt(v);
        contentLength := n;
      } else if name == "x-forwarded-for" {
        // matched, but nothing is done with it
      } else if name == "x-real-ip" {
        remoteAddr := v;
      }
    }

    /** The nested loop of lines 91-108, visiting the keys of `headers` in `order`. */
    method ApplyHeaders(headers: HeaderMap, order: seq<string>)
      requires forall i :: 0 <= i < |order| ==> order[i] in headers
      modifies this
      ensures View() == ApplyPairs(old(View()), Pairs(headers, order))
    {
      ghost var r0 := View();
      var i := 0;
      while i < |order|
        invariant 0 <= i <= |order|
        invariant View() == ApplyPairs(r0, Pairs(headers, order[..i]))
      {
        var k := order[i];
        var vv := headers[k];
        ghost var done := Pairs(headers, order[..i]);
        assert done + PairsOf(k, vv[..0]) == done;
        var j := 0;
        while j < |vv|
          invariant 0 <= j <= |vv|
          invariant View() == ApplyPairs(r0, done + PairsOf(k, vv[..j]))
        {
          AddHeaderValue(k, vv[j]);
          InnerStep(r0, done, k, vv, j);
          j := j + 1;
        }
        OuterStep(r0, headers, order, i);
        i := i + 1;
      }
      assert order[..i] == order;
    }
  }

  lemma ApplyPairsSnoc(r: RequestView, ps: seq<Pair>, p: Pair)
    ensures ApplyPairs(r, ps + [p]) == ApplyPair(ApplyPairs(r, ps), p)
  {
    assert (ps + [p])[..|ps|] == ps;
  }

  lemma InnerStep(r: RequestView, done: seq<Pair>, k: string, vv: seq<string>, j: nat)
    requires j < |vv|
    ensures ApplyPairs(r, done + PairsOf(k, vv[..j + 1]))
         == ApplyPair(ApplyPairs(r, done + PairsOf(k, vv[..j])), Pair(k, vv[j]))
  {
    assert done + PairsOf(k, vv[..j + 1]) == (done + PairsOf(k, vv[..j])) + [Pair(k, vv[j])];
    ApplyPairsSnoc(r, done + PairsOf(k, vv[..j]), Pair(k, vv[j]));
  }

  lemma OuterStep(r: RequestView, h: HeaderMap, order: seq<string>, i: nat)
    requires i < |order| && forall n :: 0 <= n < |order| ==> order[n] in h
    ensures ApplyPairs(r, Pairs(h, order[..i + 1]))
         == ApplyPairs(r, Pairs(h, order[..i]) + PairsOf(order[i], h[order[i]][..|h[order[i]]|]))
  {
    assert order[..i + 1][..i] == order[..i];
    assert h[order[i]][..|h[order[i]]|] == h[order[i]];
  }

  // ---------------------------------------------------------------------------------
  // Closed forms of the loop's effect.

  /** The value of the last pair whose lower-cased name is `name`. */
  function LastNamed(ps: seq<Pair>, name: string): Option<string> {
    if ps == [] then None
    else if ToLower(ps[|ps| - 1].name) == name then Some(ps[|ps| - 1].value)
    else LastNamed(ps[..|ps| - 1], name)
  }

  /** The values of the pairs whose canonical key is `c`, in order. */
  function ValuesUnder(ps: seq<Pair>, c: string): seq<string> {
    if ps == [] then []
    else ValuesUnder(ps[..|ps| - 1], c) + (if CanonicalKey(ps[|ps| - 1].name) == c then [ps[|ps| - 1].value] else [])
  }

  function OrElse(v: Option<string>, default: string): string {
    if v.Some? then v.value else default
  }

  /** The switch: `host` and `x-real-ip` take the last value given for them, and
      `content-length` the parse of its last value; the method, URL, request URI and
      body are never touched; every other name (`x-forwarded-for` among them) changes
      nothing but the header map. */
  lemma {:induction false} ApplyPairsFields(r: RequestView, ps: seq<Pair>)
    ensures var r' := ApplyPairs(r, ps);
      && r'.httpMethod == r.httpMethod && r'.urlPath == r.urlPath
      && r'.requestURI == r.requestURI && r'.body == r.body
      && r'.host == OrElse(LastNamed(ps, "host"), r.host)
      && r'.remoteAddr == OrElse(LastNamed(ps, "x-real-ip"), r.remoteAddr)
      && r'.contentLength ==
           (if LastNamed(ps, "content-length").Some?
            then ParseInt(LastNamed(ps, "content-length").value).0 else r.contentLength)
    decreases |ps|
  {
    if ps != [] {
      ApplyPairsFields(r, ps[..|ps| - 1]);
    }
  }

  lemma ApplyPairHeader(r: RequestView, p: Pair)
    ensures ApplyPair(r, p).header == Add(r.header, p.name, p.value)
  {
  }

  lemma ValuesAdd(h: HeaderMap, k: string, v: string, c: string)
    ensures Values(Add(h, k, v), c) == Values(h, c) + (if CanonicalKey(k) == c then [v] else [])
    ensures c in Add(h, k, v) <==> c in h || CanonicalKey(k) == c
  {
  }

  /** The header map: every pair is appended under its canonical key, so each key holds
      what it held before followed by the values given for it, in order; no key is
      added without a value and none is removed. */
  lemma {:induction false} ApplyPairsHeader(r: RequestView, ps: seq<Pair>, c: string)
    ensures Values(ApplyPairs(r, ps).header, c) == Values(r.header, c) + ValuesUnder(ps, c)
    ensures c in ApplyPairs(r, ps).header <==> c in r.header || ValuesUnder(ps, c) != []
    decreases |ps|
  {
    if ps != [] {
      var init := ps[..|ps| - 1];
      var p := ps[|ps| - 1];
      ApplyPairsHeader(r, init, c);
      ApplyPairHeader(ApplyPairs(r, init), p);
      ValuesAdd(ApplyPairs(r, init).header, p.name, p.value, c);
    }
  }

  /** The values of every event key whose canonical form is `c`, key after key. */
  function ValuesOfKeys(h: HeaderMap, order: seq<string>, c: string): seq<string>
    requires forall i :: 0 <= i < |order| ==> order[i] in h
  {
    if order == [] then []
    else
      var k := order[|order| - 1];
      ValuesOfKeys(h, order[..|order| - 1], c) + (if CanonicalKey(k) == c then h[k] else [])
  }

  lemma {:induction false} ValuesUnderAppend(ps: seq<Pair>, qs: seq<Pair>, c: string)
    ensures ValuesUnder(ps + qs, c) == ValuesUnder(ps, c) + ValuesUnder(qs, c)
    decreases |qs|
  {
    if qs != [] {
      var init := qs[..|qs| - 1];
      assert (ps + qs)[..|ps + qs| - 1] == ps + init;
      ValuesUnderAppend(ps, init, c);
    } else {
      assert ps + qs == ps;
    }
  }

  lemma {:induction false} ValuesUnderPairsOf(k: string, vs: seq<string>, c: string)
    ensures ValuesUnder(PairsOf(k, vs), c) == if CanonicalKey(k) == c then vs else []
    decreases |vs|
  {
    if vs != [] {
      var init := vs[..|vs| - 1];
      assert PairsOf(k, vs)[..|vs| - 1] == PairsOf(k, init);
      ValuesUnderPairsOf(k, init, c);
      assert vs == init + [vs[|vs| - 1]];
    }
  }

  lemma {:induction false} PairsValuesUnder(h: HeaderMap, order: seq<string>, c: string)
    requires forall i :: 0 <= i < |order| ==> order[i] in h
    ensures ValuesUnder(Pairs(h, order), c) == ValuesOfKeys(h, order, c)
    decreases |order|
  {
    if order != [] {
      var init := order[..|order| - 1];
      var k := order[|order| - 1];
      PairsValuesUnder(h, init, c);
      ValuesUnderAppend(Pairs(h, init), PairsOf(k, h[k]), c);
      ValuesUnderPairsOf(k, h[k], c);
    }
  }

  lemma {:induction false} NoKeyValues(h: HeaderMap, order: seq<string>, c: string)
    requires forall i :: 0 <= i < |order| ==> order[i] in h && CanonicalKey(order[i]) != c
    ensures ValuesOfKeys(h, order, c) == []
    decreases |order|
  {
    if order != [] {
      NoKeyValues(h, order[..|order| - 1], c);
    }
  }

  /** When k is the only event key with its canonical form, the request holds exactly
      k's values under that form, in the event's order, whatever order the keys are
      visited in. */
  lemma {:induction false} SoleKeyValues(h: HeaderMap, order: seq<string>, k: string)
    requires forall i :: 0 <= i < |order| ==> order[i] in h
    requires Distinct(order) && k in order
    requires forall i :: 0 <= i < |order| && order[i] != k ==> CanonicalKey(order[i]) != CanonicalKey(k)
    ensures ValuesOfKeys(h, order, CanonicalKey(k)) == h[k]
    decreases |order|
  {
    var init := order[..|order| - 1];
    var last := order[|order| - 1];
    if last == k {
      assert forall i :: 0 <= i < |init| ==> init[i] != k;
      NoKeyValues(h, init, CanonicalKey(k));
    } else {
      assert k in init;
      SoleKeyValues(h, init, k);
    }
  }

  lemma {:induction false} LastNamedAppend(ps: seq<Pair>, qs: seq<Pair>, name: string)
    ensures LastNamed(ps + qs, name) ==
      if LastNamed(qs, name).Some? then LastNamed(qs, name) else LastNamed(ps, name)
    decreases |qs|
  {
    if qs != [] {
      var init := qs[..|qs| - 1];
      assert (ps + qs)[..|ps + qs| - 1] == ps + init;
      LastNamedAppend(ps, init, name);
    } else {
      assert ps + qs == ps;
    }
  }

  lemma LastNamedPairsOf(k: string, vs: seq<string>, name: string)
    ensures LastNamed(PairsOf(k, vs), name) ==
      if ToLower(k) == name && vs != [] then Some(vs[|vs| - 1]) else None
  {
    if vs != [] && ToLower(k) != name {
      NoneNamedPairsOf(k, vs, name);
    }
  }

  lemma {:induction false} NoneNamedPairsOf(k: string, vs: seq<string>, name: string)
    requires ToLower(k) != name
    ensures LastNamed(PairsOf(k, vs), name) == None
    decreases |vs|
  {
    if vs != [] {
      assert PairsOf(k, vs)[..|vs| - 1] == PairsOf(k, vs[..|vs| - 1]);
      NoneNamedPairsOf(k, vs[..|vs| - 1], name);
    }
  }

  /** When k is the only event key whose lower case is `name` and it has values, the
      last of them is the one the switch keeps, whatever order the keys are visited in. */
  lemma {:induction false} SoleKeyLastWins(h: HeaderMap, order: seq<string>, k: string, name: string)
    requires forall i :: 0 <= i < |order| ==> order[i] in h
    requires Distinct(order) && k in order && ToLower(k) == name && h[k] != []
    requires forall i :: 0 <= i < |order| && order[i] != k ==> ToLower(order[i]) != name
    ensures LastNamed(Pairs(h, order), name) == Some(h[k][|h[k]| - 1])
    decreases |order|
  {
    var init := order[..|order| - 1];
    var last := order[|order| - 1];
    LastNamedAppend(Pairs(h, init), PairsOf(last, h[last]), name);
    LastNamedPairsOf(last, h[last], name);
    if last != k {
      assert k in init;
      SoleKeyLastWins(h, init, k, name);
    }
  }

  /** When no event key with values lower-cases to `name`, the switch never fires for it. */
  lemma {:induction false} NoKeyNamed(h: HeaderMap, order: seq<string>, name: string)
    requires forall i :: 0 <= i < |order| ==> order[i] in h
    requires forall i :: 0 <= i < |order| ==> ToLower(order[i]) != name || h[order[i]] == []
    ensures LastNamed(Pairs(h, order), name) == None
    decreases |order|
  {
    if order != [] {
      var init := order[..|order| - 1];
      var last := order[|order| - 1];
      NoKeyNamed(h, init, name);
      LastNamedAppend(Pairs(h, init), PairsOf(last, h[last]), name);
      LastNamedPairsOf(last, h[last], name);
    }
  }
}
