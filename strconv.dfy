/** Go's `strconv.ParseUint(s, 10, 64)` and `strconv.ParseInt(s, 10, 64)`:
    the value they return and the error they return with it. */
module Strconv {
  import opened Errors

  const MaxUint64: nat := 0xFFFF_FFFF_FFFF_FFFF
  /** 2^63, the magnitude bound of int64 */
  const Cutoff: nat := 0x8000_0000_0000_0000

  /** The values of Go's uint64. */
  type Uint64 = x: int | 0 <= x <= MaxUint64

  predicate IsDigit(c: char) { '0' <= c <= '9' }

  predicate AllDigits(s: string) {
    forall i :: 0 <= i < |s| ==> IsDigit(s[i])
  }

  function DigitValue(c: char): (d: nat)
    requires IsDigit(c)
    ensures d < 10
  {
    c as int - '0' as int
  }

  function DigitChar(d: nat): (c: char)
    requires d < 10
    ensures IsDigit(c) && DigitValue(c) == d
  {
    ('0' as int + d) as char
  }

  /** The unbounded value of a decimal numeral. */
  function DecValue(s: string): nat
    requires AllDigits(s)
  {
    if s == [] then 0 else 10 * DecValue(s[..|s| - 1]) + DigitValue(s[|s| - 1])
  }

  /** The canonical numeral of `n`: no sign, no leading zero. */
  function Decimal(n: nat): (s: string)
    ensures |s| > 0 && AllDigits(s)
  {
    if n < 10 then [DigitChar(n)] else Decimal(n / 10) + [DigitChar(n % 10)]
  }

  /** Where the left-to-right digit scan stops. */
  datatype Scan = Scanned(n: nat) | BadDigit | Overflow

  /** The base-10 digit loop of ParseUint: the first character that is not a
      digit, or the first digit that takes the value past MaxUint64, ends it. */
  function ScanDecimal(s: string): (r: Scan)
    ensures r.Scanned? <==> AllDigits(s) && DecValue(s) <= MaxUint64
    ensures r.Scanned? ==> r.n == DecValue(s)
    ensures AllDigits(s) && DecValue(s) > MaxUint64 ==> r == Overflow
  {
    if s == [] then Scanned(0)
    else
      var init, c := s[..|s| - 1], s[|s| - 1];
      assert forall i :: 0 <= i < |init| ==> init[i] == s[i];
      match ScanDecimal(init)
      case Scanned(n) =>
        if !IsDigit(c) then BadDigit
        else if n * 10 + DigitValue(c) > MaxUint64 then Overflow
        else Scanned(n * 10 + DigitValue(c))
      case other => other
  }

  /** strconv.ParseUint(s, 10, 64). */
  function ParseUint(s: string): (r: (nat, Option<Error>))
    ensures r.0 <= MaxUint64
    ensures r.1 == None <==> s != [] && AllDigits(s) && DecValue(s) <= MaxUint64
    ensures r.1 == None ==> r.0 == DecValue(s)
    ensures r.1 != None ==> r == (0, Some(SyntaxError(s))) || r == (MaxUint64, Some(RangeError(s)))
    ensures s != [] && AllDigits(s) && DecValue(s) > MaxUint64 ==> r == (MaxUint64, Some(RangeError(s)))
  {
    if s == [] then (0, Some(SyntaxError(s)))
    else
      match ScanDecimal(s)
      case Scanned(n) => (n, None)
      case BadDigit => (0, Some(SyntaxError(s)))
      case Overflow => (MaxUint64, Some(RangeError(s)))
  }

  /** The part of a token after an optional leading '+' or '-'. */
  function Unsigned(s: string): string {
    if s != [] && (s[0] == '+' || s[0] == '-') then s[1..] else s
  }

  predicate Negative(s: string) {
    s != [] && s[0] == '-'
  }

  /** An optional sign followed by at least one digit and nothing else. */
  predicate IsSignedNumeral(s: string) {
    Unsigned(s) != [] && AllDigits(Unsigned(s))
  }

  /** The unbounded signed value of such a numeral. */
  function SignedValue(s: string): int
    requires IsSignedNumeral(s)
  {
    if Negative(s) then -(DecValue(Unsigned(s)) as int) else DecValue(Unsigned(s))
  }

  /** strconv.ParseInt(s, 10, 64): an optional '+' or '-', then ParseUint of
      the rest; a syntax error in the rest is reported against the whole token,
      and magnitudes beyond int64 return the nearest bound with a range error. */
  function ParseInt(s: string): (r: (int, Option<Error>))
    ensures -(Cutoff as int) <= r.0 < Cutoff
    ensures r.1 == None <==> IsSignedNumeral(s) && -(Cutoff as int) <= SignedValue(s) < Cutoff
    ensures r.1 == None ==> r.0 == SignedValue(s)
    ensures IsSignedNumeral(s) && !(-(Cutoff as int) <= SignedValue(s) < Cutoff) ==> r.1 == Some(RangeError(s))
    ensures r.1 == Some(SyntaxError(s)) ==> r.0 == 0
    ensures r.1 != None ==> r.1 == Some(SyntaxError(s)) || r.1 == Some(RangeError(s))
    ensures r.1 == Some(RangeError(s)) ==> r.0 == if Negative(s) then -(Cutoff as int) else Cutoff - 1
  {
    if s == [] then (0, Some(SyntaxError(s)))
    else
      var neg := s[0] == '-';
      var digits := if s[0] == '+' || s[0] == '-' then s[1..] else s;
      var (un, e) := ParseUint(digits);
      if e.Some? && e.value.SyntaxError? then (0, Some(SyntaxError(s)))
      else if !neg && un >= Cutoff then (Cutoff - 1, Some(RangeError(s)))
      else if neg && un > Cutoff then (-(Cutoff as int), Some(RangeError(s)))
      else (if neg then -(un as int) else un as int, None)
  }

  /** The numeral of a signed value, '-' first when negative. */
  function IntDecimal(i: int): (s: string)
    ensures |s| > 0
  {
    if i < 0 then "-" + Decimal(-i) else Decimal(i)
  }

  lemma {:induction false} DecValueOfDecimal(n: nat)
    ensures DecValue(Decimal(n)) == n
  {
    if n >= 10 {
      DecValueOfDecimal(n / 10);
      var s := Decimal(n);
      assert s[..|s| - 1] == Decimal(n / 10);
    }
  }

  /** Decimal numerals of uint64 values parse back to the value. */
  lemma ParseUintOfDecimal(n: nat)
    requires n <= MaxUint64
    ensures ParseUint(Decimal(n)) == (n, None)
  {
    DecValueOfDecimal(n);
  }

  /** Signed numerals of int64 values parse back to the value. */
  lemma ParseIntOfDecimal(i: int)
    requires -(Cutoff as int) <= i < Cutoff
    ensures ParseInt(IntDecimal(i)) == (i, None)
  {
    if i < 0 {
      var d := Decimal(-i);
      var s := "-" + d;
      assert s[0] == '-' && s[1..] == d;
      ParseUintOfDecimal(-i);
      assert ParseUint(s[1..]) == (-i, None);
      assert ParseInt(s) == (i, None);
    } else {
      var s := Decimal(i);
      assert IsDigit(s[0]) && s[0] != '+' && s[0] != '-';
      ParseUintOfDecimal(i);
      assert ParseInt(s) == (i, None);
    }
  }

  /** A leading '+' is accepted and ignored. */
  lemma ParseIntPlusSign(n: nat)
    requires n < Cutoff
    ensures ParseInt("+" + Decimal(n)) == (n, None)
  {
    DecValueOfDecimal(n);
    assert ("+" + Decimal(n))[1..] == Decimal(n);
  }

  /** A sign with no digits after it is a syntax error on the whole token. */
  lemma ParseIntBareSign(s: string)
    requires s == "+" || s == "-"
    ensures ParseInt(s) == (0, Some(SyntaxError(s)))
  {
    assert s[1..] == [];
  }
}
