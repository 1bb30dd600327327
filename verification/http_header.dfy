/** The parts of Go's `net/http` header handling the bridge relies on: the multi-valued
    header map (`http.Header`), its key canonicalisation
    (`textproto.CanonicalMIMEHeaderKey`), and `strings.ToLower` as the bridge uses it to
    match four header names. */
module HttpHeader {

  /** `http.Header`: each key holds an ordered list of values. */
  type HeaderMap = map<string, seq<string>>

  /** The token characters of section 5.6.2 of RFC 9110 (Go's `validHeaderFieldByte`
      and `httpguts.IsTokenRune`). */
  predicate IsTokenChar(c: char) {
    || 'a' <= c <= 'z' || 'A' <= c <= 'Z' || '0' <= c <= '9'
    || c in "!#$%&'*+-.^_`|~"
  }

  predicate IsToken(s: string) {
    |s| > 0 && forall i :: 0 <= i < |s| ==> IsTokenChar(s[i])
  }

  predicate AllTokenChars(s: string) {
    forall i :: 0 <= i < |s| ==> IsTokenChar(s[i])
  }

  /** Upper case at the start and after each '-', lower case elsewhere; `upper` says
      whether the first character is in an upper-case position. */
  function CanonicalCase(s: string, upper: bool): (r: string)
    ensures |r| == |s|
  {
    if s == [] then []
    else
      var c := s[0];
      var c' := if upper && 'a' <= c <= 'z' then (c as int - 32) as char
                else if !upper && 'A' <= c <= 'Z' then (c as int + 32) as char
                else c;
      [c'] + CanonicalCase(s[1..], c' == '-')
  }

  /** `textproto.CanonicalMIMEHeaderKey`: a key holding any character that is not a
      token character (a space, say) is returned unchanged; any other key is put in
      canonical case ("content-length" becomes "Content-Length"). */
  function CanonicalKey(s: string): string {
    if AllTokenChars(s) then CanonicalCase(s, true) else s
  }

  lemma {:induction false} CanonicalCaseKeepsTokens(s: string, upper: bool)
    requires AllTokenChars(s)
    ensures AllTokenChars(CanonicalCase(s, upper))
    decreases |s|
  {
    if s != [] {
      CanonicalCaseKeepsTokens(s[1..], s[0] == '-');
      var r := CanonicalCase(s, upper);
      assert r[1..] == CanonicalCase(s[1..], r[0] == '-');
    }
  }

  lemma {:induction false} CanonicalCaseIdempotent(s: string, upper: bool)
    ensures CanonicalCase(CanonicalCase(s, upper), upper) == CanonicalCase(s, upper)
    decreases |s|
  {
    if s != [] {
      var r := CanonicalCase(s, upper);
      assert r[0] == '-' <==> s[0] == '-';
      assert r[1..] == CanonicalCase(s[1..], r[0] == '-');
      CanonicalCaseIdempotent(s[1..], r[0] == '-');
    }
  }

  /** Canonicalising a canonical key changes nothing, so `Header.Add` on a key the
      handler already canonicalised lands under the same key. */
  lemma CanonicalKeyIdempotent(s: string)
    ensures CanonicalKey(CanonicalKey(s)) == CanonicalKey(s)
  {
    if AllTokenChars(s) {
      CanonicalCaseKeepsTokens(s, true);
      CanonicalCaseIdempotent(s, true);
    }
  }

  /** `unicode.ToLower` for every character whose lower case is an ASCII letter: 'A' to
      'Z', LATIN CAPITAL LETTER I WITH DOT ABOVE and KELVIN SIGN. Other characters are
      kept; Go lowers some of them, but never to an ASCII character, so comparing the
      result with an ASCII name gives the same answer. */
  function LowerChar(c: char): char {
    if 'A' <= c <= 'Z' then (c as int + 32) as char
    else if c == '\U{0130}' then 'i'
    else if c == '\U{212A}' then 'k'
    else c
  }

  /** `strings.ToLower`, as far as matching the result against an ASCII name goes. */
  function ToLower(s: string): (r: string)
    ensures |r| == |s|
    ensures forall i :: 0 <= i < |s| ==> r[i] == LowerChar(s[i])
  {
    if s == [] then [] else [LowerChar(s[0])] + ToLower(s[1..])
  }

  lemma {:induction false} CanonicalCaseSameLower(s: string, upper: bool)
    ensures ToLower(CanonicalCase(s, upper)) == ToLower(s)
    decreases |s|
  {
    if s != [] {
      var r := CanonicalCase(s, upper);
      CanonicalCaseSameLower(s[1..], r[0] == '-');
      assert r[1..] == CanonicalCase(s[1..], r[0] == '-');
      assert ToLower(r) == [LowerChar(r[0])] + ToLower(r[1..]);
      assert ToLower(s) == [LowerChar(s[0])] + ToLower(s[1..]);
    }
  }

  /** The key a header is stored under and the name the bridge matches on agree: both
      fold to the same lower case. */
  lemma CanonicalKeySameLower(s: string)
    ensures ToLower(CanonicalKey(s)) == ToLower(s)
  {
    if AllTokenChars(s) {
      CanonicalCaseSameLower(s, true);
    }
  }

  /** The values stored under a key; an absent key reads as no values (Go's nil slice). */
  function Values(h: HeaderMap, k: string): seq<string> {
    if k in h then h[k] else []
  }

  /** `Header.Add`: append the value under the canonical key. */
  function Add(h: HeaderMap, k: string, v: string): HeaderMap {
    var c := CanonicalKey(k);
    h[c := Values(h, c) + [v]]
  }

  /** `Header.Set`: replace the values under the canonical key by the one value. */
  function Set(h: HeaderMap, k: string, v: string): HeaderMap {
    h[CanonicalKey(k) := [v]]
  }

  /** `Header.Del`: remove the canonical key. */
  function Del(h: HeaderMap, k: string): HeaderMap {
    h - {CanonicalKey(k)}
  }
}
