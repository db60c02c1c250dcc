/** Decimal text of integers: Swift's `"\(n)"` for an `Int` (used by
    `Int.stringValue`, `abbreviateNumber` and `timeAgoSinceDate`) and its
    reader `Int(String)` (used by `String.integerValue`). */
module Decimal {
  import opened Wrappers

  predicate IsDigit(c: char) {
    '0' <= c <= '9'
  }

  predicate AllDigits(s: string) {
    forall i :: 0 <= i < |s| ==> IsDigit(s[i])
  }

  function DigitChar(d: nat): (c: char)
    requires d < 10
    ensures IsDigit(c)
  {
    ('0' as int + d) as char
  }

  function DigitValue(c: char): (d: nat)
    requires IsDigit(c)
    ensures d < 10 && DigitChar(d) == c
  {
    c as int - '0' as int
  }

  /** The shortest decimal spelling of `n`: digits only, no leading zero. */
  function NatToString(n: nat): (s: string)
    ensures |s| >= 1 && AllDigits(s)
    ensures s[0] == '0' ==> n == 0
    decreases n
  {
    if n < 10 then [DigitChar(n)] else NatToString(n / 10) + [DigitChar(n % 10)]
  }

  /** Value of a string of decimal digits (the empty string reads as 0). */
  function ParseNat(s: string): (n: nat)
    requires AllDigits(s)
    decreases |s|
  {
    if s == [] then 0 else 10 * ParseNat(s[..|s| - 1]) + DigitValue(s[|s| - 1])
  }

  lemma {:induction false} ParseNatToString(n: nat)
    ensures ParseNat(NatToString(n)) == n
    decreases n
  {
    if n >= 10 {
      var s := NatToString(n);
      assert s[..|s| - 1] == NatToString(n / 10);
      ParseNatToString(n / 10);
    }
  }

  /** `"\(n)"` for an integer: a minus sign for negative values, then the digits. */
  function IntToString(n: int): (s: string)
    ensures |s| >= 1
    ensures s[0] == '-' <==> n < 0
    ensures n >= 0 ==> AllDigits(s) && (s[0] == '0' ==> n == 0)
    ensures n < 0 ==> |s| >= 2 && AllDigits(s[1..]) && s[1] != '0'
  {
    if n < 0 then "-" + NatToString(-n) else NatToString(n)
  }

  const MaxInt64: int := 0x7FFF_FFFF_FFFF_FFFF

  /** Swift's `Int(String)`: an optional sign, then one or more ASCII digits,
      and a value that fits in 64 bits; anything else gives `nil`. */
  function IntegerValue(s: string): (r: Option<Int64>)
    ensures r.Some? ==> |s| >= 1 && (IsDigit(s[0]) || s[0] == '-' || s[0] == '+')
  {
    if |s| >= 2 && (s[0] == '-' || s[0] == '+') && AllDigits(s[1..]) then
      var v: int := if s[0] == '-' then 0 - ParseNat(s[1..]) as int else ParseNat(s[1..]) as int;
      if -MaxInt64 - 1 <= v <= MaxInt64 then Some(v) else None
    else if |s| >= 1 && AllDigits(s) && ParseNat(s) <= MaxInt64 then
      Some(ParseNat(s))
    else
      None
  }

  /** Reading back what `"\(n)"` printed gives `n` for every 64-bit integer. */
  lemma StringValueRoundTrip(n: Int64)
    ensures IntegerValue(IntToString(n)) == Some(n)
  {
    var s := IntToString(n);
    if n < 0 {
      var m: nat := 0 - n as int;
      var t := NatToString(m);
      assert s == "-" + t && s[1..] == t;
      ParseNatToString(m);
      assert ParseNat(s[1..]) == m;
    } else {
      ParseNatToString(n);
      assert s[0] != '-' && s[0] != '+';
    }
  }

  /** `Int.stringValue`. */
  function StringValue(n: Int64): (s: string)
    ensures IntegerValue(s) == Some(n)
  {
    StringValueRoundTrip(n);
    IntToString(n)
  }

  /** `Optional<Int>.nonOptionalStringValue`: `nil` reads as "0". */
  function NonOptionalStringValue(n: Option<Int64>): (s: string)
    ensures IntegerValue(s) == Some(n.GetOr(0))
  {
    match n
    case Some(v) => StringValue(v)
    case None => "0"
  }

  /** `Optional<Int>.optionalStringValue`. */
  function OptionalStringValue(n: Option<Int64>): (s: Option<string>)
    ensures s.None? <==> n.None?
    ensures s.Some? ==> IntegerValue(s.value) == n
  {
    match n
    case Some(v) => Some(StringValue(v))
    case None => None
  }

  /** `Optional<Int>.isIntegerNilOrZero`. */
  predicate IsIntegerNilOrZero(n: Option<Int64>)
  {
    n.None? || n.value == 0
  }

  /** `nil` and zero are exactly the optionals whose non-optional spelling is "0". */
  lemma NilOrZeroSpellsZero(n: Option<Int64>)
    ensures IsIntegerNilOrZero(n) <==> NonOptionalStringValue(n) == "0"
  {
    if NonOptionalStringValue(n) == "0" {
      assert IntegerValue("0") == Some(0);
    }
  }
}
