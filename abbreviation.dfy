/** `CommonUtilities.abbreviateNumber(intNumber:)`: "950", "12.3k", "4m". */
module Abbreviation {
  import opened Wrappers
  import opened Decimal

  /** How Swift prints `floor(x / unit) / 10` for `d = x / unit`: the whole
      number through `Int(n)` when the tenths digit is 0, otherwise
      `Double.description`, which for these values is "q.r". */
  function TenthsText(d: nat): (s: string)
    ensures |s| >= 1
    ensures d >= 10 ==> s[0] != '0'
    ensures forall i :: 0 <= i < |s| && s[i] == '.' ==> i == |s| - 2 && s[i + 1] != '0' && IsDigit(s[i + 1])
  {
    NatToString(d / 10) + (if d % 10 == 0 then "" else "." + [DigitChar(d % 10)])
  }

  /** `abbreviateNumber`: below 1000 (negative numbers included) the plain
      decimal; below a million the thousands and one truncated tenth with
      "k"; above, the millions and one truncated tenth with "m". */
  function AbbreviateNumber(n: Int64): (r: string)
    ensures n < 1000 ==> IntegerValue(r) == Some(n)
    ensures 0 <= n < 1000 ==> AllDigits(r) && (r[0] == '0' ==> n == 0)
    ensures n < 0 ==> |r| >= 2 && r[0] == '-' && AllDigits(r[1..]) && r[1] != '0'
    ensures n >= 1000 ==> |r| >= 2 && r[|r| - 1] == (if n < 1000000 then 'k' else 'm')
    ensures n >= 1000 ==> r[0] != '0'
    ensures forall i :: 0 <= i < |r| && r[i] == '.' ==> i == |r| - 3 && r[i + 1] != '0' && IsDigit(r[i + 1])
  {
    if n < 1000 then
      StringValueRoundTrip(n);
      IntToString(n)
    else if n < 1000000 then
      TenthsText(n / 100) + "k"
    else
      TenthsText(n / 100000) + "m"
  }

  /** What an abbreviation denotes: a plain number, or a count of tenths of
      a thousand ('k') or of a million ('m'). */
  datatype Abbrev = Plain(value: int) | Scaled(tenths: nat, suffix: char)

  /** Reads "q" or "q.r" as a number of tenths. */
  function ReadTenths(b: string): Option<nat>
  {
    if |b| >= 3 && b[|b| - 2] == '.' && AllDigits(b[..|b| - 2]) && IsDigit(b[|b| - 1]) then
      Some(10 * ParseNat(b[..|b| - 2]) + DigitValue(b[|b| - 1]))
    else if |b| >= 1 && AllDigits(b) then
      Some(10 * ParseNat(b))
    else
      None
  }

  /** An independent reader of abbreviations. */
  function ReadAbbreviation(s: string): Option<Abbrev>
  {
    if |s| >= 1 && (s[|s| - 1] == 'k' || s[|s| - 1] == 'm') then
      match ReadTenths(s[..|s| - 1])
      case Some(t) => Some(Scaled(t, s[|s| - 1]))
      case None => None
    else
      match IntegerValue(s)
      case Some(v) => Some(Plain(v))
      case None => None
  }

  /** The number of units of a suffix, in tenths. */
  function TenthUnit(suffix: char): nat
  {
    if suffix == 'k' then 100 else 100000
  }

  lemma ReadTenthsText(d: nat)
    ensures ReadTenths(TenthsText(d)) == Some(d)
  {
    var q := NatToString(d / 10);
    ParseNatToString(d / 10);
    var b := TenthsText(d);
    if d % 10 == 0 {
      assert b == q;
      if |b| >= 3 { assert IsDigit(b[|b| - 2]); }
    } else {
      assert b == q + "." + [DigitChar(d % 10)];
      assert b[..|b| - 2] == q;
    }
  }

  /** A plain decimal is not taken for an abbreviation and reads back as itself. */
  lemma PlainReadsBack(n: Int64)
    ensures ReadAbbreviation(IntToString(n)) == Some(Plain(n))
  {
    StringValueRoundTrip(n);
    var s := IntToString(n);
    assert s[|s| - 1] != 'k' && s[|s| - 1] != 'm' by {
      if n < 0 { assert IsDigit(s[1..][|s| - 2]); } else { assert IsDigit(s[|s| - 1]); }
    }
  }

  /** A count of tenths printed with a suffix reads back as that count and suffix. */
  lemma ScaledReadsBack(d: nat, u: char)
    requires u == 'k' || u == 'm'
    ensures ReadAbbreviation(TenthsText(d) + [u]) == Some(Scaled(d, u))
  {
    var r := TenthsText(d) + [u];
    assert r[..|r| - 1] == TenthsText(d);
    ReadTenthsText(d);
  }

  /** Reading an abbreviation back gives the number itself below 1000, and
      otherwise the truncated count of tenths of the unit: never rounded up,
      at most one fractional digit, ".0" omitted. */
  lemma AbbreviationReadsBack(n: Int64)
    ensures var a := ReadAbbreviation(AbbreviateNumber(n));
      && a.Some?
      && (n < 1000 ==> a.value == Plain(n))
      && (1000 <= n < 1000000 ==> a.value == Scaled(n / 100, 'k'))
      && (n >= 1000000 ==> a.value == Scaled(n / 100000, 'm'))
      && (a.value.Scaled? ==>
            var u := TenthUnit(a.value.suffix);
            a.value.tenths * u <= n < (a.value.tenths + 1) * u)
  {
    if n < 1000 {
      assert AbbreviateNumber(n) == IntToString(n);
      PlainReadsBack(n);
    } else if n < 1000000 {
      assert AbbreviateNumber(n) == TenthsText(n / 100) + ['k'];
      ScaledReadsBack(n / 100, 'k');
      assert TenthUnit('k') == 100 && (n / 100) * 100 <= n < (n / 100 + 1) * 100;
    } else {
      assert AbbreviateNumber(n) == TenthsText(n / 100000) + ['m'];
      ScaledReadsBack(n / 100000, 'm');
      assert TenthUnit('m') == 100000 && (n / 100000) * 100000 <= n < (n / 100000 + 1) * 100000;
    }
  }
}
