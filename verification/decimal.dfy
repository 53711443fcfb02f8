/**
  Decimal text of integers, as produced by Rust's `to_string` on an integer:
  an optional leading '-', then the digits of the magnitude without leading
  zeros. `ParseInt` is the reference reader: it accepts exactly that
  canonical form, so a round trip through it pins the text down.
 */
module Decimal {
  import opened Wrappers

  predicate IsDigit(c: char) {
    '0' <= c <= '9'
  }

  predicate IsDigits(s: string) {
    forall i :: 0 <= i < |s| ==> IsDigit(s[i])
  }

  function DigitValue(c: char): nat
    requires IsDigit(c)
  {
    c as int - '0' as int
  }

  function DigitChar(d: nat): (c: char)
    requires d < 10
    ensures IsDigit(c)
    ensures DigitValue(c) == d
  {
    ('0' as int + d) as char
  }

  /** Canonical digits: non-empty, and a leading '0' only in the text "0" itself. */
  predicate IsCanonicalDigits(s: string) {
    |s| >= 1 && IsDigits(s) && (s[0] == '0' ==> s == "0")
  }

  /** Digits of `n`, most significant first, with no leading zero. */
  function NatToDecimal(n: nat): (r: string)
    ensures IsCanonicalDigits(r)
    ensures r == "0" <==> n == 0
    decreases n
  {
    if n < 10 then [DigitChar(n)] else NatToDecimal(n / 10) + [DigitChar(n % 10)]
  }

  /**
    The decimal text of `i`: '-' followed by the magnitude when negative.
    The magnitude is digits only, with no leading zero unless it is zero.
   */
  function IntToDecimal(i: int): (r: string)
    ensures |r| >= 1
    ensures r[0] == '-' <==> i < 0
    ensures var magnitude := if i < 0 then r[1..] else r;
            && |magnitude| >= 1
            && IsDigits(magnitude)
            && (magnitude[0] == '0' <==> i == 0)
    ensures i == 0 ==> r == "0"
  {
    if i < 0 then "-" + NatToDecimal(-i) else NatToDecimal(i)
  }

  /** The value of a string of digits, most significant first. */
  function DigitsValue(s: string): nat
    requires IsDigits(s)
    decreases |s|
  {
    if |s| == 0 then 0 else DigitsValue(s[..|s| - 1]) * 10 + DigitValue(s[|s| - 1])
  }

  /** Reads canonical decimal text: canonical digits, negated by a '-' unless they are "0". */
  function ParseInt(s: string): Option<int>
  {
    if |s| > 1 && s[0] == '-' && IsCanonicalDigits(s[1..]) && s[1..] != "0" then
      Some(-(DigitsValue(s[1..]) as int))
    else if IsCanonicalDigits(s) then Some(DigitsValue(s))
    else None
  }

  lemma {:induction false} NatToDecimalRoundTrip(n: nat)
    ensures DigitsValue(NatToDecimal(n)) == n
    decreases n
  {
    if n >= 10 {
      var a := NatToDecimal(n / 10);
      var s := a + [DigitChar(n % 10)];
      assert s[..|s| - 1] == a;
      NatToDecimalRoundTrip(n / 10);
    }
  }

  /** The decimal text of an integer reads back as that integer. */
  lemma IntToDecimalRoundTrip(i: int)
    ensures ParseInt(IntToDecimal(i)) == Some(i)
  {
    if i < 0 {
      var d := NatToDecimal(-i);
      assert ("-" + d)[1..] == d;
      NatToDecimalRoundTrip(-i);
    } else {
      NatToDecimalRoundTrip(i);
    }
  }

  /** Canonical digits are the decimal text of their own value. */
  lemma {:induction false} CanonicalDigitsUnique(s: string)
    requires IsCanonicalDigits(s)
    ensures s == NatToDecimal(DigitsValue(s))
    decreases |s|
  {
    var c := s[|s| - 1];
    var d := DigitValue(c);
    assert DigitChar(d) == c;
    if |s| > 1 {
      var prefix := s[..|s| - 1];
      assert prefix[0] == s[0] != '0';
      CanonicalDigitsUnique(prefix);
      var v := DigitsValue(prefix);
      assert v != 0;
      var n := v * 10 + d;
      assert n / 10 == v && n % 10 == d;
      assert s == prefix + [c];
    } else {
      assert s == [c];
    }
  }

  /**
    The decimal text of `i` is the one and only text that reads back as `i`:
    no other spelling (a leading zero, "-0", "00") is accepted.
   */
  lemma ParseIntExact(s: string, i: int)
    ensures ParseInt(s) == Some(i) <==> s == IntToDecimal(i)
  {
    IntToDecimalRoundTrip(i);
    if ParseInt(s) == Some(i) {
      if |s| > 1 && s[0] == '-' && IsCanonicalDigits(s[1..]) && s[1..] != "0" {
        CanonicalDigitsUnique(s[1..]);
        assert s == "-" + s[1..];
      } else {
        CanonicalDigitsUnique(s);
      }
    }
  }
}
