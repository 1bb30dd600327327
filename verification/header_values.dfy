/** `ReqHeaderValues.UnmarshalJSON`: an event header value arrives either as one JSON
    string or as a JSON list of strings, and is normalised to a list of strings. Only the
    JSON values the decision depends on are distinguished; the JSON text itself is read
    by `encoding/json`, which is not part of this model. */
module HeaderValues {
  import opened Outcome
  import opened HttpHeader

  /** A JSON value as far as the string-or-list decision is concerned: numbers,
      booleans and objects are all `JOther`. */
  datatype Json = JNull | JString(s: string) | JArray(items: seq<Json>) | JOther

  /** `json.Unmarshal(b, &s)` with `s` a string: a JSON null leaves `s` at its zero
      value "", without an error. */
  function UnmarshalString(j: Json): Option<string> {
    match j
    case JString(s) => Some(s)
    case JNull => Some("")
    case _ => None
  }

  /** `json.Unmarshal(b, &strs)` with `strs` a list of strings: each element as above. */
  function UnmarshalStrings(j: Json): Option<seq<string>> {
    match j
    case JNull => Some([])
    case JArray(items) => UnmarshalItems(items)
    case _ => None
  }

  function UnmarshalItems(items: seq<Json>): (r: Option<seq<string>>)
    ensures r.Some? ==> |r.value| == |items|
  {
    if items == [] then Some([])
    else
      match (UnmarshalItems(items[..|items| - 1]), UnmarshalString(items[|items| - 1]))
      case (Some(init), Some(last)) => Some(init + [last])
      case _ => None
  }

  /** `ReqHeaderValues.UnmarshalJSON`: try the value as one string, then as a list of
      strings; if neither works the event is rejected. */
  function UnmarshalHeaderValues(j: Json): (r: Result<seq<string>, BridgeError>)
    ensures j.JString? ==> r == Ok([j.s])
    ensures r.Err? ==> r.error == MalformedHeader
  {
    match UnmarshalString(j)
    case Some(s) => Ok([s])
    case None =>
      match UnmarshalStrings(j)
      case Some(strs) => Ok(strs)
      case None => Err(MalformedHeader)
  }

  /** How `encoding/json` writes a list of strings. */
  function MarshalStrings(vs: seq<string>): (j: Json)
    ensures j.JArray? && |j.items| == |vs|
  {
    JArray(seq(|vs|, i requires 0 <= i < |vs| => JString(vs[i])))
  }

  lemma {:induction false} UnmarshalItemsOfStrings(vs: seq<string>)
    ensures UnmarshalItems(MarshalStrings(vs).items) == Some(vs)
    decreases |vs|
  {
    if vs != [] {
      var init := vs[..|vs| - 1];
      UnmarshalItemsOfStrings(init);
      assert MarshalStrings(vs).items[..|vs| - 1] == MarshalStrings(init).items;
      assert vs == init + [vs[|vs| - 1]];
    }
  }

  /** A list of strings decodes to the same list, in the same order. */
  lemma UnmarshalMarshal(vs: seq<string>)
    ensures UnmarshalHeaderValues(MarshalStrings(vs)) == Ok(vs)
  {
    UnmarshalItemsOfStrings(vs);
  }

  /** A value is accepted exactly when it is a string, null, or a list whose every
      element is a string or null. */
  lemma {:induction false} UnmarshalAccepts(j: Json)
    ensures UnmarshalHeaderValues(j).Ok? <==>
      (j.JString? || j.JNull? ||
       (j.JArray? && forall i :: 0 <= i < |j.items| ==> j.items[i].JString? || j.items[i].JNull?))
  {
    if j.JArray? {
      ItemsAccepted(j.items);
    }
  }

  lemma {:induction false} ItemsAccepted(items: seq<Json>)
    ensures UnmarshalItems(items).Some? <==>
      forall i :: 0 <= i < |items| ==> items[i].JString? || items[i].JNull?
    decreases |items|
  {
    if items != [] {
      var init := items[..|items| - 1];
      ItemsAccepted(init);
      assert forall i :: 0 <= i < |init| ==> init[i] == items[i];
    }
  }

  /** The headers of an event, each value normalised; one malformed value rejects the
      whole event (no partial header set). */
  function DecodeHeaders(m: map<string, Json>): (r: Result<HeaderMap, BridgeError>)
    ensures r.Ok? <==> forall k :: k in m ==> UnmarshalHeaderValues(m[k]).Ok?
    ensures r.Ok? ==> r.value.Keys == m.Keys
    ensures r.Ok? ==> forall k :: k in m ==> r.value[k] == UnmarshalHeaderValues(m[k]).value
  {
    if forall k :: k in m ==> UnmarshalHeaderValues(m[k]).Ok? then
      Ok(map k | k in m :: UnmarshalHeaderValues(m[k]).value)
    else
      Err(MalformedHeader)
  }

  /** Header round trip: writing every header as a JSON list and decoding the result
      gives back every name with the same values in the same order. */
  lemma DecodeMarshalledHeaders(h: HeaderMap)
    ensures DecodeHeaders(map k | k in h :: MarshalStrings(h[k])) == Ok(h)
  {
    var m := map k | k in h :: MarshalStrings(h[k]);
    forall k | k in m
      ensures UnmarshalHeaderValues(m[k]) == Ok(h[k])
    {
      UnmarshalMarshal(h[k]);
    }
    var r := DecodeHeaders(m);
    assert r.value.Keys == h.Keys;
    assert r.value == h;
  }
}
