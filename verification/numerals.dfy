/** Decimal text for integers, as `Number.prototype.toString()` writes it
    and `parseInt(text)` (no radix) reads it back. Only integer-valued
    numbers are modelled. */
module Numerals {
  import opened Base

  predicate IsDigit(c: char) {
    '0' <= c <= '9'
  }

  predicate IsHexDigit(c: char) {
    IsDigit(c) || 'a' <= c <= 'f' || 'A' <= c <= 'F'
  }

  predicate AllDigits(s: string) {
    forall i :: 0 <= i < |s| ==> IsDigit(s[i])
  }

  function DigitChar(n: nat): (c: char)
    requires n < 10
    ensures IsDigit(c) && c as int - '0' as int == n
  {
    ('0' as int + n) as char
  }

  function HexValue(c: char): (v: nat)
    requires IsHexDigit(c)
    ensures v < 16
  {
    if IsDigit(c) then c as int - '0' as int
    else if 'a' <= c <= 'f' then c as int - 'a' as int + 10
    else c as int - 'A' as int + 10
  }

  /** The number a string of digits denotes in the given radix. */
  function ValueIn(s: string, radix: nat): nat
    requires radix == 10 || radix == 16
    requires forall i :: 0 <= i < |s| ==> IsHexDigit(s[i])
  {
    if s == [] then 0
    else ValueIn(s[..|s| - 1], radix) * radix + HexValue(s[|s| - 1])
  }

  /** Decimal digits of `n`, most significant first, no leading zero. */
  function NatToString(n: nat): (s: string)
    ensures |s| > 0 && AllDigits(s)
    ensures ValueIn(s, 10) == n
    ensures |s| > 1 ==> s[0] != '0'
    decreases n
  {
    if n < 10 then [DigitChar(n)]
    else
      var s := NatToString(n / 10) + [DigitChar(n % 10)];
      assert s[..|s| - 1] == NatToString(n / 10);
      s
  }

  /** `n.toString()` for an integer `n`. */
  function IntToString(n: int): string {
    if n < 0 then "-" + NatToString(-n) else NatToString(n)
  }

  /** Length of the longest prefix of `s` made of characters satisfying the
      digit class (decimal when `hex` is false). */
  function DigitRun(s: string, hex: bool): (k: nat)
    ensures k <= |s|
    ensures forall i :: 0 <= i < k ==> (if hex then IsHexDigit(s[i]) else IsDigit(s[i]))
    ensures k < |s| ==> !(if hex then IsHexDigit(s[k]) else IsDigit(s[k]))
  {
    if s != [] && (if hex then IsHexDigit(s[0]) else IsDigit(s[0])) then 1 + DigitRun(s[1..], hex)
    else 0
  }

  /** The unsigned part of `parseInt`: a `0x`/`0X` prefix selects radix
      16, then the longest run of digits is read; no digit at all gives
      `None` (the source's `NaN`). */
  function ParseUnsigned(body: string): Option<nat> {
    var hex := |body| >= 2 && body[0] == '0' && (body[1] == 'x' || body[1] == 'X');
    var digits := if hex then body[2..] else body;
    var k := DigitRun(digits, hex);
    if k == 0 then None else Some(ValueIn(digits[..k], if hex then 16 else 10))
  }

  /** `parseInt(s)` with no radix: leading whitespace is skipped, one sign
      is read, and the rest is read as by `ParseUnsigned`. */
  function ParseInt(s: string): Option<int> {
    var t := TrimStart(s);
    var negative := |t| > 0 && t[0] == '-';
    var body := if |t| > 0 && (t[0] == '-' || t[0] == '+') then t[1..] else t;
    match ParseUnsigned(body)
    case None => None
    case Some(v) => var i: int := v; Some(if negative then -i else i)
  }

  lemma {:induction false} DigitRunAllDigits(s: string)
    requires AllDigits(s)
    ensures DigitRun(s, false) == |s|
  {
    if s != [] {
      DigitRunAllDigits(s[1..]);
    }
  }

  /** The unsigned reader reads back every decimal numeral `toString` writes. */
  lemma ParseUnsignedNatToString(m: nat)
    ensures ParseUnsigned(NatToString(m)) == Some(m)
  {
    var digits := NatToString(m);
    assert !(|digits| >= 2 && digits[0] == '0');
    DigitRunAllDigits(digits);
    assert digits[..|digits|] == digits;
  }

  /** Reading back what `toString` wrote gives the same integer. */
  lemma ParseIntToString(n: int)
    ensures ParseInt(IntToString(n)) == Some(n)
  {
    if n < 0 {
      ParseNegative(-n);
    } else {
      ParseNonNegative(n);
    }
  }

  /** A numeral without sign is read as itself. */
  lemma ParseNonNegative(m: nat)
    ensures ParseInt(NatToString(m)) == Some(m)
  {
    var s := NatToString(m);
    assert !IsSpace(s[0]);
    assert LeadingSpaces(s) == 0;
    ParseUnsignedNatToString(m);
  }

  /** A minus sign before a numeral negates it. */
  lemma ParseNegative(m: nat)
    ensures ParseInt("-" + NatToString(m)) == Some(-(m as int))
  {
    var digits := NatToString(m);
    var s := "-" + digits;
    assert LeadingSpaces(s) == 0;
    assert s[1..] == digits;
    ParseUnsignedNatToString(m);
  }
}
