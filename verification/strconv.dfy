/** Go's `strconv.ParseInt(s, 10, 64)`, which the bridge uses for `content-length`:
    an optional sign, then decimal digits scanned left to right as an unsigned 64-bit
    value (stopping at the first digit that overflows, before any later character is
    looked at), then clamped to the signed 64-bit range. On a syntax error the value is 0;
    on a range error it is the bound of the sign. */
module StrConv {
  import opened Outcome

  const MaxUint64: int := 0xFFFF_FFFF_FFFF_FFFF
  const MaxInt64: int := 0x7FFF_FFFF_FFFF_FFFF
  const MinInt64: int := -0x8000_0000_0000_0000
  /** `cutoff` in ParseUint: the smallest n for which n * 10 overflows 64 bits. */
  const UintCutoff: int := MaxUint64 / 10 + 1
  /** `cutoff` in ParseInt: 1 << 63. */
  const IntCutoff: int := 0x8000_0000_0000_0000

  datatype NumError = ErrSyntax | ErrRange

  predicate IsDigit(c: char) {
    '0' <= c <= '9'
  }

  function DigitValue(c: char): nat
    requires IsDigit(c)
  {
    c as int - '0' as int
  }

  predicate IsDigits(s: string) {
    forall i :: 0 <= i < |s| ==> IsDigit(s[i])
  }

  /** The value of a string of decimal digits, read as usual (most significant first). */
  function DigitsValue(s: string): nat
    requires IsDigits(s)
  {
    if s == [] then 0 else DigitsValue(s[..|s| - 1]) * 10 + DigitValue(s[|s| - 1])
  }

  /** The loop of `ParseUint` from index i with n accumulated so far. */
  function ScanUint(s: string, i: nat, n: nat): (r: (nat, Option<NumError>))
    requires i <= |s| && n <= MaxUint64
    ensures r.0 <= MaxUint64
    decreases |s| - i
  {
    if i == |s| then (n, None)
    else if !IsDigit(s[i]) then (0, Some(ErrSyntax))
    else if n >= UintCutoff then (MaxUint64, Some(ErrRange))
    else if n * 10 + DigitValue(s[i]) > MaxUint64 then (MaxUint64, Some(ErrRange))
    else ScanUint(s, i + 1, n * 10 + DigitValue(s[i]))
  }

  /** `strconv.ParseUint(s, 10, 64)`. */
  function ParseUint(s: string): (nat, Option<NumError>) {
    if s == "" then (0, Some(ErrSyntax)) else ScanUint(s, 0, 0)
  }

  /** `strconv.ParseInt(s, 10, 64)`: the value and the error Go returns beside it. */
  function ParseInt(s: string): (r: (int, Option<NumError>))
    ensures MinInt64 <= r.0 <= MaxInt64
    ensures r.1 == Some(ErrSyntax) ==> r.0 == 0
  {
    if s == "" then (0, Some(ErrSyntax))
    else
      var neg := s[0] == '-';
      var digits := if s[0] == '+' || s[0] == '-' then s[1..] else s;
      var (un, err) := ParseUint(digits);
      if err.Some? && err.value != ErrRange then (0, err)
      else if !neg && un >= IntCutoff then (MaxInt64, Some(ErrRange))
      else if neg && un > IntCutoff then (MinInt64, Some(ErrRange))
      else
        var u: int := un;
        (if neg then -u else u, err)
  }

  /** The part of s after an optional leading sign. */
  function Unsigned(s: string): string {
    if s != [] && (s[0] == '+' || s[0] == '-') then s[1..] else s
  }

  lemma {:induction false} PrefixValue(s: string, i: nat)
    requires IsDigits(s) && i <= |s|
    ensures IsDigits(s[..i]) && DigitsValue(s[..i]) <= DigitsValue(s)
    decreases |s| - i
  {
    if i < |s| {
      PrefixValue(s[..|s| - 1], i);
      assert s[..|s| - 1][..i] == s[..i];
    } else {
      assert s[..i] == s;
    }
  }

  lemma DigitsValueStep(s: string, i: nat)
    requires i < |s| && IsDigits(s[..i + 1])
    ensures IsDigits(s[..i])
    ensures DigitsValue(s[..i + 1]) == DigitsValue(s[..i]) * 10 + DigitValue(s[i])
  {
    assert s[..i + 1][..i] == s[..i];
  }

  /** Scanning a run of digits whose value fits in 64 bits accumulates that value. */
  lemma {:induction false} ScanDigits(s: string, i: nat, j: nat)
    requires i <= j <= |s| && IsDigits(s[..j]) && DigitsValue(s[..j]) <= MaxUint64
    ensures IsDigits(s[..i]) && DigitsValue(s[..i]) <= MaxUint64
    ensures ScanUint(s, i, DigitsValue(s[..i])) == ScanUint(s, j, DigitsValue(s[..j]))
    decreases j - i
  {
    PrefixValue(s[..j], i);
    assert s[..j][..i] == s[..i];
    if i < j {
      PrefixValue(s[..j], i + 1);
      assert s[..j][..i + 1] == s[..i + 1];
      DigitsValueStep(s, i);
      assert IsDigit(s[..j][i]);
      ScanDigits(s, i + 1, j);
    }
  }

  /** Digits whose value exceeds 64 bits make the scan a range error as soon as the
      overflowing digit is read, whatever follows it. */
  lemma {:induction false} ScanOverflow(s: string, i: nat, j: nat)
    requires i < j <= |s| && IsDigits(s[..j]) && DigitsValue(s[..j]) > MaxUint64
    requires IsDigits(s[..i]) && DigitsValue(s[..i]) <= MaxUint64
    ensures ScanUint(s, i, DigitsValue(s[..i])) == (MaxUint64, Some(ErrRange))
    decreases j - i
  {
    PrefixValue(s[..j], i + 1);
    assert s[..j][..i + 1] == s[..i + 1];
    DigitsValueStep(s, i);
    assert IsDigit(s[..j][i]);
    var n := DigitsValue(s[..i]);
    if n < UintCutoff && n * 10 + DigitValue(s[i]) <= MaxUint64 {
      ScanOverflow(s, i + 1, j);
    }
  }

  /** A well-formed decimal (optional sign, at least one digit) that fits in int64 parses
      to its value without error. */
  lemma ParseIntDecimal(s: string)
    requires var d := Unsigned(s); d != [] && IsDigits(d)
    requires var v := DigitsValue(Unsigned(s)); if s[0] == '-' then v <= IntCutoff else v <= MaxInt64
    ensures ParseInt(s).0 == if s[0] == '-' then -(DigitsValue(Unsigned(s)) as int) else DigitsValue(Unsigned(s))
    ensures ParseInt(s).1 == None
  {
    var d := Unsigned(s);
    assert d[..0] == [];
    assert d[..|d|] == d;
    ScanDigits(d, 0, |d|);
  }

  /** Digits that overflow 64 bits are a range error even when a character that is
      not a digit comes after them: the value is the int64 bound of the sign. */
  lemma ParseIntOverflow(s: string, j: nat)
    requires s != []
    requires var d := Unsigned(s); j <= |d| && IsDigits(d[..j]) && DigitsValue(d[..j]) > MaxUint64
    ensures ParseInt(s) == (if s[0] == '-' then MinInt64 else MaxInt64, Some(ErrRange))
  {
    var d := Unsigned(s);
    assert d[..0] == [];
    ScanOverflow(d, 0, j);
  }

  /** A decimal (unsigned or with '+') above the largest int64 saturates at the largest
      int64, with a range error, which the bridge discards. */
  lemma ParseIntSaturates(s: string)
    requires var d := Unsigned(s); d != [] && IsDigits(d) && s[0] != '-' && DigitsValue(d) > MaxInt64
    ensures ParseInt(s) == (MaxInt64, Some(ErrRange))
  {
    var d := Unsigned(s);
    assert d[..0] == [];
    assert d[..|d|] == d;
    if DigitsValue(d) <= MaxUint64 {
      ScanDigits(d, 0, |d|);
    } else {
      ParseIntOverflow(s, |d|);
    }
  }

  /** A negative decimal below the smallest int64 saturates at the smallest int64. */
  lemma ParseIntSaturatesNeg(s: string)
    requires var d := Unsigned(s); d != [] && IsDigits(d) && s[0] == '-' && DigitsValue(d) > IntCutoff
    ensures ParseInt(s) == (MinInt64, Some(ErrRange))
  {
    var d := Unsigned(s);
    assert d[..0] == [];
    assert d[..|d|] == d;
    if DigitsValue(d) <= MaxUint64 {
      ScanDigits(d, 0, |d|);
    } else {
      ParseIntOverflow(s, |d|);
    }
  }

  /** A character that is not a digit, met before the digits read so far overflow,
      makes the parse a syntax error whose value is 0. */
  lemma ParseIntNonDigit(s: string, j: nat)
    requires var d := Unsigned(s); j < |d| && IsDigits(d[..j]) && !IsDigit(d[j])
    requires DigitsValue(Unsigned(s)[..j]) <= MaxUint64
    ensures ParseInt(s) == (0, Some(ErrSyntax))
  {
    var d := Unsigned(s);
    assert d[..0] == [];
    ScanDigits(d, 0, j);
  }

  /** Nothing to parse (empty, or a sign alone) is a syntax error with value 0. */
  lemma ParseIntEmpty(s: string)
    requires Unsigned(s) == []
    ensures ParseInt(s) == (0, Some(ErrSyntax))
  {
  }
}
