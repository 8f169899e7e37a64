/**
 * Go's `strconv.ParseInt(v, 10, 64)` as used on the SOURCE_DATE_EPOCH override:
 * an optional '+' or '-' sign, then one or more ASCII digits (no underscores, since
 * the base is given explicitly), and a value within the signed 64-bit range.
 * Any other input is an error (a syntax or a range error; the caller treats both alike).
 */
module Decimal {
  import opened Wrappers

  const MinInt64: int := -0x8000_0000_0000_0000
  const MaxInt64: int := 0x7fff_ffff_ffff_ffff

  predicate IsDigit(c: char) {
    '0' <= c <= '9'
  }

  predicate AllDigits(s: string) {
    forall i :: 0 <= i < |s| ==> IsDigit(s[i])
  }

  /** The value of a string of decimal digits, most significant first. */
  function DigitsValue(s: string): nat
    requires AllDigits(s)
    decreases |s|
  {
    if s == [] then 0
    else DigitsValue(s[..|s| - 1]) * 10 + (s[|s| - 1] as int - '0' as int)
  }

  /** `strconv.ParseUint(s, 10, 64)` without its upper bound, which ParseInt then narrows. */
  function ParseUnsigned(s: string): Option<nat> {
    if s != [] && AllDigits(s) then Some(DigitsValue(s)) else None
  }

  function ParseInt64(s: string): (r: Option<int>)
    ensures r.Some? ==> MinInt64 <= r.value <= MaxInt64
    ensures s == "" || s == "+" || s == "-" ==> r == None
  {
    if s == [] then None
    else
      var neg := s[0] == '-';
      var body := if s[0] == '+' || s[0] == '-' then s[1..] else s;
      match ParseUnsigned(body)
      case None => None
      case Some(u) =>
        var v: int := if neg then 0 - (u as int) else u as int;
        if MinInt64 <= v <= MaxInt64 then Some(v) else None
  }

  /** Decimal digits of `n`, most significant first and without leading zeros. */
  function FormatNat(n: nat): (r: string)
    ensures r != [] && AllDigits(r)
    ensures r[0] != '-' && r[0] != '+'
  {
    if n < 10 then ["0123456789"[n]]
    else FormatNat(n / 10) + ["0123456789"[n % 10]]
  }

  /** `strconv.FormatInt(v, 10)`. */
  function FormatInt(v: int): string {
    if v < 0 then "-" + FormatNat(-v) else FormatNat(v)
  }

  lemma {:induction false} DigitsOfFormatNat(n: nat)
    ensures DigitsValue(FormatNat(n)) == n
  {
    if n >= 10 {
      DigitsOfFormatNat(n / 10);
      var r := FormatNat(n);
      assert r[..|r| - 1] == FormatNat(n / 10);
    }
  }

  /** A value parses back from its decimal form exactly when it is a valid int64 epoch. */
  lemma ParseFormatRoundTrip(v: int)
    ensures ParseInt64(FormatInt(v)) == if MinInt64 <= v <= MaxInt64 then Some(v) else None
  {
    DigitsOfFormatNat(if v < 0 then -v else v);
    if v < 0 {
      assert FormatInt(v)[1..] == FormatNat(-v);
    }
  }

  /** A character other than a digit after the optional sign makes the value malformed. */
  lemma NonDigitRejected(s: string, i: nat)
    requires 0 < i < |s| || (i == 0 < |s| && s[0] != '+' && s[0] != '-')
    requires !IsDigit(s[i])
    ensures ParseInt64(s) == None
  {
    if s[0] == '+' || s[0] == '-' {
      assert s[1..][i - 1] == s[i];
    }
  }
}
