/**
 * The part of Go's `strconv` package the lexer relies on: `ParseInt(s, base, 64)`
 * for an explicit base, and, as its inverse, `FormatInt`.
 */
module Strconv {
  import opened Wrappers

  const MinInt64: int := -0x8000_0000_0000_0000
  const MaxInt64: int := 0x7fff_ffff_ffff_ffff

  /** The bases `ParseInt` accepts when one is given explicitly. */
  predicate ValidBase(base: int)
  {
    2 <= base <= 36
  }

  /** The value `ParseUint` gives a digit byte: decimal digits, then letters
      in either case from 10 upwards; anything else gets 36, which no base accepts. */
  function DigitValue(c: char): (d: nat)
    ensures d <= 36
  {
    if '0' <= c <= '9' then c as int - '0' as int
    else if 'a' <= c <= 'z' then c as int - 'a' as int + 10
    else if 'A' <= c <= 'Z' then c as int - 'A' as int + 10
    else 36
  }

  predicate IsDigit(c: char, base: int)
  {
    DigitValue(c) < base
  }

  predicate AllDigits(s: string, base: int)
  {
    forall i :: 0 <= i < |s| ==> IsDigit(s[i], base)
  }

  /** The number a digit string denotes, most significant digit first. */
  function Magnitude(s: string, base: nat): nat
    requires AllDigits(s, base)
  {
    if s == [] then 0 else Magnitude(s[..|s| - 1], base) * base + DigitValue(s[|s| - 1])
  }

  /**
   * `strconv.ParseInt(s, base, 64)`: an optional `+` or `-`, then one or more
   * digits of the base, denoting a value in the signed 64-bit range.  `None`
   * stands for both the syntax error and the range error; the lexer only tests
   * whether an error occurred.
   */
  function ParseInt(s: string, base: nat): (r: Option<int>)
    requires ValidBase(base)
    ensures r.Some? ==> MinInt64 <= r.value <= MaxInt64
    ensures r.Some? ==> s != "" && (r.value < 0 ==> s[0] == '-')
  {
    if s == "" then None
    else
      var negative := s[0] == '-';
      var digits := if s[0] == '+' || s[0] == '-' then s[1..] else s;
      if digits == "" || !AllDigits(digits, base) then None
      else
        var m := Magnitude(digits, base);
        if negative then
          if m > -MinInt64 then None else Some(0 - m as int)
        else
          if m > MaxInt64 then None else Some(m)
  }

  /** The lower-case digit of value `d`, as `strconv.FormatInt` writes it. */
  function DigitChar(d: nat): (c: char)
    requires d < 36
    ensures DigitValue(c) == d
  {
    if d < 10 then ('0' as int + d) as char else ('a' as int + d - 10) as char
  }

  function FormatNat(m: nat, base: nat): (s: string)
    requires ValidBase(base)
    ensures s != [] && AllDigits(s, base)
    decreases m
  {
    if m < base then [DigitChar(m)]
    else
      LastDigit(m, base);
      FormatNat(m / base, base) + [DigitChar(m % base)]
  }

  /** `strconv.FormatInt(v, base)`: a `-` for negative values, then the digits. */
  function FormatInt(v: int, base: nat): string
    requires ValidBase(base)
  {
    if v < 0 then "-" + FormatNat(-v, base) else FormatNat(v, base)
  }

  /** Appending a digit multiplies by the base and adds the digit. */
  lemma MagnitudeSnoc(p: string, c: char, base: nat)
    requires AllDigits(p, base) && IsDigit(c, base)
    ensures AllDigits(p + [c], base)
    ensures Magnitude(p + [c], base) == Magnitude(p, base) * base + DigitValue(c)
  {
    var s := p + [c];
    assert s[..|s| - 1] == p;
  }

  /** The arithmetic behind peeling off the last digit, kept apart from the
      sequence reasoning. */
  lemma LastDigit(m: nat, base: nat)
    requires 2 <= base <= m
    ensures 0 <= m / base < m && 0 <= m % base < base
    ensures m == (m / base) * base + m % base
  {
    var q, r := m / base, m % base;
    assert m == q * base + r && 0 <= r;
  }

  lemma {:induction false} MagnitudeOfFormat(m: nat, base: nat)
    requires ValidBase(base)
    ensures Magnitude(FormatNat(m, base), base) == m
  {
    var s := FormatNat(m, base);
    if m >= base {
      LastDigit(m, base);
      var q: nat, d: nat := m / base, m % base;
      var prefix := FormatNat(q, base);
      assert s == prefix + [DigitChar(d)];
      MagnitudeOfFormat(q, base);
      MagnitudeSnoc(prefix, DigitChar(d), base);
    } else {
      assert s[..|s| - 1] == [];
    }
  }

  /** `ParseInt` reads back every 64-bit value `FormatInt` writes, in every base. */
  lemma FormatIntRoundTrip(v: int, base: nat)
    requires ValidBase(base) && MinInt64 <= v <= MaxInt64
    ensures ParseInt(FormatInt(v, base), base) == Some(v)
  {
    var s := FormatInt(v, base);
    if v < 0 {
      var digits := FormatNat(-v, base);
      assert s == "-" + digits;
      assert s[1..] == digits;
      MagnitudeOfFormat(-v, base);
    } else {
      assert s == FormatNat(v, base);
      assert IsDigit(s[0], base);
      MagnitudeOfFormat(v, base);
    }
  }

  /** Outside the 64-bit range, parsing what `FormatInt` writes fails. */
  lemma FormatIntOutOfRange(v: int, base: nat)
    requires ValidBase(base) && (v < MinInt64 || v > MaxInt64)
    ensures ParseInt(FormatInt(v, base), base) == None
  {
    var s := FormatInt(v, base);
    if v < 0 {
      var digits := FormatNat(-v, base);
      assert s == "-" + digits;
      assert s[1..] == digits;
      MagnitudeOfFormat(-v, base);
    } else {
      assert s == FormatNat(v, base);
      assert IsDigit(s[0], base);
      MagnitudeOfFormat(v, base);
    }
  }
}
