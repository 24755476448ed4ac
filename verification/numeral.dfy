/**
 * Decimal rendering of the integer legend breakpoints. In the legend loop of
 * static/js/logic.js a breakpoint is a JavaScript number joined to a string
 * with `+`. For an integer of magnitude at most 2^53 (the breakpoints are all
 * far below that) this gives the exact decimal form: an optional `-`, then
 * digits with no leading zero. `ParseInt` is its inverse.
 */
module Numeral {

  import opened Wrappers

  predicate IsDigit(c: char)
  {
    '0' <= c <= '9'
  }

  predicate AllDigits(s: string)
  {
    forall i :: 0 <= i < |s| ==> IsDigit(s[i])
  }

  /** A digit string in shortest form: non-empty and without a leading zero unless it is "0". */
  predicate Canonical(s: string)
  {
    |s| >= 1 && AllDigits(s) && (s[0] != '0' || |s| == 1)
  }

  function DigitChar(d: nat): (c: char)
    requires d < 10
    ensures IsDigit(c)
    ensures DigitValue(c) == d
  {
    ('0' as int + d) as char
  }

  function DigitValue(c: char): nat
    requires IsDigit(c)
  {
    c as int - '0' as int
  }

  /** The shortest decimal numeral of a natural number. */
  function NatToString(n: nat): (s: string)
    ensures Canonical(s)
    ensures |s| == 1 <==> n < 10
  {
    if n < 10 then [DigitChar(n)]
    else
      var prefix := NatToString(n / 10);
      prefix + [DigitChar(n % 10)]
  }

  /** The value of a string of decimal digits, most significant first. */
  function ParseNat(s: string): nat
    requires AllDigits(s)
  {
    if |s| == 0 then 0
    else ParseNat(s[..|s| - 1]) * 10 + DigitValue(s[|s| - 1])
  }

  /** Reading back the numeral of `n` gives `n`. */
  lemma {:induction false} ParseNatOfNatToString(n: nat)
    ensures ParseNat(NatToString(n)) == n
  {
    if n >= 10 {
      var s := NatToString(n);
      assert s[..|s| - 1] == NatToString(n / 10);
      ParseNatOfNatToString(n / 10);
    }
  }

  /** A digit string with a non-zero leading digit denotes at least 1. */
  lemma {:induction false} ParseNatPositive(s: string)
    requires |s| >= 1 && AllDigits(s) && s[0] != '0'
    ensures ParseNat(s) >= 1
  {
    if |s| > 1 {
      ParseNatPositive(s[..|s| - 1]);
    }
  }

  /** A canonical numeral is the rendering of the value it denotes. */
  lemma {:induction false} NatToStringOfParseNat(s: string)
    requires Canonical(s)
    ensures NatToString(ParseNat(s)) == s
  {
    if |s| > 1 {
      var prefix := s[..|s| - 1];
      assert Canonical(prefix);
      ParseNatPositive(prefix);
      NatToStringOfParseNat(prefix);
      var n := ParseNat(s);
      assert n / 10 == ParseNat(prefix) && n % 10 == DigitValue(s[|s| - 1]);
      assert s == prefix + [s[|s| - 1]];
    }
  }

  /**
   * JavaScript's rendering of an integer-valued number of magnitude at most
   * 2^53. Larger numbers print JavaScript's shortest round-trip digits padded
   * with zeros, and from 10^21 upward exponent notation; this function
   * produces neither.
   */
  function IntToString(i: int): (s: string)
    ensures |s| >= 1
    ensures s[0] == '-' <==> i < 0
  {
    if i < 0 then "-" + NatToString(-i) else NatToString(i)
  }

  /** Reads an optional minus sign followed by a canonical numeral; anything else is rejected. */
  function ParseInt(s: string): Option<int>
  {
    if |s| >= 1 && s[0] == '-' then
      if Canonical(s[1..]) && s[1..] != "0" then Some(-(ParseNat(s[1..]) as int)) else None
    else if Canonical(s) then Some(ParseNat(s))
    else None
  }

  /** Every integer renders to a string that parses back to it. */
  lemma IntToStringRoundTrip(i: int)
    ensures ParseInt(IntToString(i)) == Some(i)
  {
    var s := IntToString(i);
    if i < 0 {
      assert s[1..] == NatToString(-i);
      ParseNatOfNatToString(-i);
    } else {
      ParseNatOfNatToString(i);
    }
  }

  /** Every string that parses is the rendering of the integer it parses to. */
  lemma ParseIntRoundTrip(s: string)
    ensures ParseInt(s).Some? ==> IntToString(ParseInt(s).value) == s
  {
    if |s| >= 1 && s[0] == '-' {
      if Canonical(s[1..]) && s[1..] != "0" {
        NatToStringOfParseNat(s[1..]);
        assert s == "-" + s[1..];
      }
    } else if Canonical(s) {
      NatToStringOfParseNat(s);
    }
  }
}
