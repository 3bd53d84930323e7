/**
 * Rust's `u8::from_str` (`str::parse::<u8>`): an optional leading `+`, then
 * one or more ASCII decimal digits whose value is at most 255. A lone sign,
 * a `-` sign, the empty string, any other character and any value above 255
 * are rejected.
 */
module DecimalU8 {
  import opened Wrappers
  import opened Resources

  predicate IsDigit(c: char)
  {
    '0' <= c <= '9'
  }

  predicate AllDigits(s: string)
  {
    forall i :: 0 <= i < |s| ==> IsDigit(s[i])
  }

  function DigitValue(c: char): (d: nat)
    requires IsDigit(c)
    ensures d < 10
  {
    c as int - '0' as int
  }

  /** The value of a string of decimal digits, most significant first. */
  function DigitsValue(s: string): nat
    requires AllDigits(s)
  {
    if s == [] then 0 else 10 * DigitsValue(s[..|s| - 1]) + DigitValue(s[|s| - 1])
  }

  function ParseU8(s: string): (r: Option<u8>)
    ensures r.Some? ==> s != [] && s[0] != '-'
    ensures r.Some? ==> var digits := if s[0] == '+' then s[1..] else s;
                        digits != [] && AllDigits(digits) && r.value as int == DigitsValue(digits)
  {
    if s == [] then None
    else if (s[0] == '+' || s[0] == '-') && |s| == 1 then None
    else
      var digits := if s[0] == '+' then s[1..] else s;
      if AllDigits(digits) && DigitsValue(digits) <= 255 then Some(DigitsValue(digits) as u8) else None
  }

  function DigitChar(d: nat): (c: char)
    requires d < 10
    ensures IsDigit(c) && DigitValue(c) == d
  {
    ('0' as int + d) as char
  }

  /** The canonical decimal rendering of `n`, without sign or leading zeros. */
  function Decimal(n: nat): (s: string)
    ensures s != [] && AllDigits(s)
  {
    if n < 10 then [DigitChar(n)] else Decimal(n / 10) + [DigitChar(n % 10)]
  }

  lemma {:induction false} DecimalValue(n: nat)
    ensures DigitsValue(Decimal(n)) == n
  {
    if n >= 10 {
      var s := Decimal(n);
      assert s[..|s| - 1] == Decimal(n / 10);
      DecimalValue(n / 10);
    }
  }

  /** Every byte value survives rendering and parsing, with or without a `+` sign. */
  lemma ParseDecimalRoundTrip(n: u8)
    ensures ParseU8(Decimal(n as nat)) == Some(n)
    ensures ParseU8("+" + Decimal(n as nat)) == Some(n)
  {
    DecimalValue(n as nat);
    var s := Decimal(n as nat);
    assert ("+" + s)[1..] == s;
  }

  /** Values above 255 do not parse. */
  lemma ParseRejectsOverflow(n: nat)
    requires n > 255
    ensures ParseU8(Decimal(n)) == None
    ensures ParseU8("+" + Decimal(n)) == None
  {
    DecimalValue(n);
    var s := Decimal(n);
    assert ("+" + s)[1..] == s;
  }

  /** A leading `-` never parses, so negative numbers are rejected. */
  lemma ParseRejectsMinus(s: string)
    ensures ParseU8("-" + s) == None
  {
    var t := "-" + s;
    assert t[0] == '-';
  }

  /** Leading zeros are accepted and do not change the value. */
  lemma {:induction false} LeadingZeroValue(s: string)
    requires AllDigits(s)
    ensures AllDigits("0" + s) && DigitsValue("0" + s) == DigitsValue(s)
  {
    var t := "0" + s;
    assert AllDigits(t) by {
      forall i | 0 <= i < |t| ensures IsDigit(t[i]) {
        if i > 0 { assert t[i] == s[i - 1]; }
      }
    }
    if s != [] {
      assert t[..|t| - 1] == "0" + s[..|s| - 1];
      LeadingZeroValue(s[..|s| - 1]);
    }
  }
}
