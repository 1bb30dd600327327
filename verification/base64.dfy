/** Go's `base64.StdEncoding`: the standard alphabet of section 4 of RFC 4648 with `=`
    padding. The decoder, like Go's, ignores carriage returns and line feeds anywhere in
    its input, accepts padding only in the final quantum, and is not strict: the unused
    bits of a padded final quantum are not required to be zero. */
module Base64 {
  import opened Outcome

  type Byte = x: int | 0 <= x < 256
  type Sextet = x: int | 0 <= x < 64

  const Pad: Byte := 61  // '='
  const CR: Byte := 13
  const LF: Byte := 10

  /** The character of the standard alphabet for a 6-bit value. */
  function EncodeSextet(v: Sextet): (c: Byte)
    ensures DecodeSextet(c) == Some(v)
  {
    if v < 26 then 65 + v                // 'A'..'Z'
    else if v < 52 then 97 + (v - 26)    // 'a'..'z'
    else if v < 62 then 48 + (v - 52)    // '0'..'9'
    else if v == 62 then 43              // '+'
    else 47                              // '/'
  }

  /** The 6-bit value of an alphabet character; None for every other byte
      (Go's decode map holds 0xFF there). */
  function DecodeSextet(c: Byte): (r: Option<Sextet>)
    ensures r.Some? ==> c != Pad && c != CR && c != LF
  {
    if 65 <= c <= 90 then Some(c - 65)
    else if 97 <= c <= 122 then Some(c - 97 + 26)
    else if 48 <= c <= 57 then Some(c - 48 + 52)
    else if c == 43 then Some(62)
    else if c == 47 then Some(63)
    else None
  }

  predicate InAlphabet(c: Byte) {
    DecodeSextet(c).Some?
  }

  /** The four characters for three input bytes. */
  function EncodeGroup(b0: Byte, b1: Byte, b2: Byte): seq<Byte> {
    [EncodeSextet(b0 / 4), EncodeSextet((b0 % 4) * 16 + b1 / 16),
     EncodeSextet((b1 % 16) * 4 + b2 / 64), EncodeSextet(b2 % 64)]
  }

  /** `StdEncoding.EncodeToString`: whole groups of three bytes, then a padded final
      quantum for one or two leftover bytes. */
  function Encode(b: seq<Byte>): (s: seq<Byte>)
    ensures |s| == (|b| + 2) / 3 * 4
    ensures forall i :: 0 <= i < |s| ==> InAlphabet(s[i]) || s[i] == Pad
    decreases |b|
  {
    if |b| == 0 then []
    else if |b| == 1 then
      [EncodeSextet(b[0] / 4), EncodeSextet((b[0] % 4) * 16), Pad, Pad]
    else if |b| == 2 then
      [EncodeSextet(b[0] / 4), EncodeSextet((b[0] % 4) * 16 + b[1] / 16),
       EncodeSextet((b[1] % 16) * 4), Pad]
    else
      EncodeGroup(b[0], b[1], b[2]) + Encode(b[3..])
  }

  /** The input with every carriage return and line feed removed. */
  function StripNewlines(s: seq<Byte>): (t: seq<Byte>)
    ensures forall i :: 0 <= i < |t| ==> t[i] != CR && t[i] != LF
    ensures (forall i :: 0 <= i < |s| ==> s[i] != CR && s[i] != LF) ==> t == s
  {
    if s == [] then []
    else (if s[0] == CR || s[0] == LF then [] else [s[0]]) + StripNewlines(s[1..])
  }

  /** Decodes quanta of four characters; only the last may be padded ("xx==" or "xxx="),
      and an input whose length is not a multiple of four is corrupt. */
  function DecodeQuanta(t: seq<Byte>): Option<seq<Byte>>
    decreases |t|
  {
    if |t| == 0 then Some([])
    else if |t| < 4 then None
    else
      var a, b, c, d := DecodeSextet(t[0]), DecodeSextet(t[1]), DecodeSextet(t[2]), DecodeSextet(t[3]);
      if a.None? || b.None? then None
      else if c.Some? && d.Some? then
        match DecodeQuanta(t[4..])
        case None => None
        case Some(rest) =>
          Some([a.value * 4 + b.value / 16, (b.value % 16) * 16 + c.value / 4,
                (c.value % 4) * 64 + d.value] + rest)
      else if |t| != 4 then None
      else if c.None? && t[2] == Pad && t[3] == Pad then Some([a.value * 4 + b.value / 16])
      else if c.Some? && t[3] == Pad then
        Some([a.value * 4 + b.value / 16, (b.value % 16) * 16 + c.value / 4])
      else None
  }

  /** `StdEncoding.DecodeString`; None stands for Go's `CorruptInputError`. */
  function Decode(s: seq<Byte>): Option<seq<Byte>> {
    DecodeQuanta(StripNewlines(s))
  }

  lemma GroupRoundTrip(b0: Byte, b1: Byte, b2: Byte)
    ensures b0 / 4 * 4 + ((b0 % 4) * 16 + b1 / 16) / 16 == b0
    ensures (((b0 % 4) * 16 + b1 / 16) % 16) * 16 + ((b1 % 16) * 4 + b2 / 64) / 4 == b1
    ensures (((b1 % 16) * 4 + b2 / 64) % 4) * 64 + b2 % 64 == b2
  {
  }

  lemma DecodeOneByte(b0: Byte)
    ensures DecodeQuanta([EncodeSextet(b0 / 4), EncodeSextet((b0 % 4) * 16), Pad, Pad]) == Some([b0])
  {
    assert DecodeSextet(Pad) == None;
    assert b0 / 4 * 4 + ((b0 % 4) * 16) / 16 == b0;
  }

  lemma DecodeTwoBytes(b0: Byte, b1: Byte)
    ensures DecodeQuanta([EncodeSextet(b0 / 4), EncodeSextet((b0 % 4) * 16 + b1 / 16),
                          EncodeSextet((b1 % 16) * 4), Pad]) == Some([b0, b1])
  {
    assert DecodeSextet(Pad) == None;
    GroupRoundTrip(b0, b1, 0);
  }

  lemma DecodeGroupThen(b0: Byte, b1: Byte, b2: Byte, rest: seq<Byte>, tail: seq<Byte>)
    requires DecodeQuanta(rest) == Some(tail)
    ensures DecodeQuanta(EncodeGroup(b0, b1, b2) + rest) == Some([b0, b1, b2] + tail)
  {
    var g := EncodeGroup(b0, b1, b2);
    assert (g + rest)[4..] == rest;
    GroupRoundTrip(b0, b1, b2);
  }

  lemma {:induction false} DecodeQuantaEncode(b: seq<Byte>)
    ensures DecodeQuanta(Encode(b)) == Some(b)
    decreases |b|
  {
    if |b| == 0 {
    } else if |b| == 1 {
      DecodeOneByte(b[0]);
      assert b == [b[0]];
    } else if |b| == 2 {
      DecodeTwoBytes(b[0], b[1]);
      assert b == [b[0], b[1]];
    } else {
      DecodeQuantaEncode(b[3..]);
      DecodeGroupThen(b[0], b[1], b[2], Encode(b[3..]), b[3..]);
      assert b == [b[0], b[1], b[2]] + b[3..];
    }
  }

  /** Base64 is binary safe: decoding an encoding gives back exactly the bytes,
      whatever they are (empty, not UTF-8, anything). */
  lemma DecodeEncode(b: seq<Byte>)
    ensures Decode(Encode(b)) == Some(b)
  {
    var s := Encode(b);
    assert forall i :: 0 <= i < |s| ==> s[i] != CR && s[i] != LF;
    assert StripNewlines(s) == s;
    DecodeQuantaEncode(b);
  }

  /** With padding required, an input whose length (ignoring line breaks) is not a
      multiple of four never decodes. */
  lemma {:induction false} DecodeQuantaNeedsPadding(t: seq<Byte>)
    requires |t| % 4 != 0
    ensures DecodeQuanta(t) == None
    decreases |t|
  {
    if |t| >= 4 {
      DecodeQuantaNeedsPadding(t[4..]);
    }
  }

  lemma DecodeNeedsPadding(s: seq<Byte>)
    requires |StripNewlines(s)| % 4 != 0
    ensures Decode(s) == None
  {
    DecodeQuantaNeedsPadding(StripNewlines(s));
  }

  /** Line breaks are ignored: removing them does not change the outcome. */
  lemma {:induction false} DecodeIgnoresNewlines(s: seq<Byte>)
    ensures Decode(StripNewlines(s)) == Decode(s)
  {
    var t := StripNewlines(s);
    assert StripNewlines(t) == t;
  }
}
