/** Decimal text of integers, as Python's `str(int)` writes it, and its inverse. */
module Strings {
  import opened Wrappers

  predicate IsDigit(c: char) { '0' <= c <= '9' }

  predicate AllDigits(s: string) { forall i :: 0 <= i < |s| ==> IsDigit(s[i]) }

  function DigitValue(c: char): (d: nat)
    requires IsDigit(c)
    ensures d < 10
  {
    c as int - '0' as int
  }

  function DigitChar(d: nat): (c: char)
    requires d < 10
    ensures IsDigit(c) && DigitValue(c) == d
  {
    ('0' as int + d) as char
  }

  /** The number a digit string denotes, most significant digit first. */
  function DigitsValue(s: string): nat
    requires AllDigits(s)
  {
    if s == [] then 0 else 10 * DigitsValue(s[..|s| - 1]) + DigitValue(s[|s| - 1])
  }

  function Pow10(k: nat): (p: nat)
    ensures p > 0
  {
    if k == 0 then 1 else 10 * Pow10(k - 1)
  }

  /** A string of k digits denotes less than 10^k. */
  lemma {:induction false} DigitsValueBelow(s: string)
    requires AllDigits(s)
    ensures DigitsValue(s) < Pow10(|s|)
  {
    if s != [] {
      DigitsValueBelow(s[..|s| - 1]);
    }
  }

  /** Appending the digits b shifts the value of a left by |b| places. */
  lemma {:induction false} DigitsValueAppend(a: string, b: string)
    requires AllDigits(a) && AllDigits(b)
    ensures AllDigits(a + b)
    ensures DigitsValue(a + b) == DigitsValue(a) * Pow10(|b|) + DigitsValue(b)
  {
    assert AllDigits(a + b) by {
      forall i | 0 <= i < |a + b| ensures IsDigit((a + b)[i]) {
        if i < |a| { assert (a + b)[i] == a[i]; } else { assert (a + b)[i] == b[i - |a|]; }
      }
    }
    if b == [] {
      assert a + b == a;
    } else {
      var c := b[..|b| - 1];
      assert AllDigits(c);
      assert (a + b)[..|a + b| - 1] == a + c;
      DigitsValueAppend(a, c);
      var l := DigitValue(b[|b| - 1]);
      assert DigitsValue(a + b) == 10 * DigitsValue(a + c) + l;
      assert DigitsValue(b) == 10 * DigitsValue(c) + l;
      assert Pow10(|b|) == 10 * Pow10(|c|);
      ShiftLeft(DigitsValue(a), Pow10(|c|), DigitsValue(c), l);
    }
  }

  lemma ShiftLeft(x: int, p: int, y: int, l: int)
    ensures 10 * (x * p + y) + l == x * (10 * p) + (10 * y + l)
  {
  }

  /** A run of digits as str() writes a natural number: no leading zero except in "0" itself. */
  predicate Canonical(s: string)
  {
    |s| > 0 && AllDigits(s) && (s[0] == '0' ==> |s| == 1)
  }

  /** `str(n)` for n >= 0: no leading zero except for 0 itself. */
  function NatText(n: nat): (r: string)
    ensures Canonical(r)
    ensures r[0] == '0' ==> n == 0
  {
    if n < 10 then [DigitChar(n)] else NatText(n / 10) + [DigitChar(n % 10)]
  }

  /** `str(n)` for any int: a minus sign before the magnitude when negative. */
  function IntText(n: int): (r: string)
    ensures |r| > 0 && (r[0] == '-' <==> n < 0)
    ensures Canonical(if n < 0 then r[1..] else r)
    ensures n < 0 ==> r[1] != '0'
  {
    if n < 0 then
      var r := "-" + NatText(-n);
      assert r[1..] == NatText(-n);
      r
    else NatText(n)
  }

  /**
   * Reads an integer as IntText writes it: an optional minus sign and
   * digits without a leading zero; "-0" is not accepted.
   */
  function ParseInt(s: string): (r: Option<int>)
    ensures r.Some? ==> |s| > 0
  {
    if |s| > 1 && s[0] == '-' && s[1] != '0' && Canonical(s[1..]) then Some(0 - DigitsValue(s[1..]))
    else if Canonical(s) then Some(DigitsValue(s))
    else None
  }

  /** IntText is the only text ParseInt reads as n. */
  lemma ParseIntOnlyIntText(s: string, n: int)
    requires ParseInt(s) == Some(n)
    ensures s == IntText(n)
  {
    if |s| > 1 && s[0] == '-' && s[1] != '0' && Canonical(s[1..]) {
      var t := s[1..];
      CanonicalIsNatText(t);
      LeadingDigitPositive(t);
      assert s == "-" + t;
    } else {
      CanonicalIsNatText(s);
    }
  }

  /** A canonical run of digits is the text of its own value. */
  lemma {:induction false} CanonicalIsNatText(s: string)
    requires Canonical(s)
    ensures s == NatText(DigitsValue(s))
  {
    if |s| > 1 {
      var t := s[..|s| - 1];
      assert Canonical(t);
      CanonicalIsNatText(t);
      LeadingDigitPositive(t);
      var v := DigitsValue(s);
      assert v == 10 * DigitsValue(t) + DigitValue(s[|s| - 1]);
      assert v / 10 == DigitsValue(t) && v % 10 == DigitValue(s[|s| - 1]);
      DigitRoundTrip(s[|s| - 1]);
      assert s == t + [s[|s| - 1]];
    } else {
      DigitRoundTrip(s[0]);
      assert s == [s[0]];
    }
  }

  lemma DigitRoundTrip(c: char)
    requires IsDigit(c)
    ensures DigitChar(DigitValue(c)) == c
  {
  }

  /** Digits that do not start with 0 denote a positive number. */
  lemma {:induction false} LeadingDigitPositive(s: string)
    requires |s| > 0 && AllDigits(s) && s[0] != '0'
    ensures DigitsValue(s) > 0
  {
    if |s| > 1 {
      var t := s[..|s| - 1];
      assert t[0] == s[0];
      LeadingDigitPositive(t);
    }
  }

  lemma {:induction false} NatTextValue(n: nat)
    ensures DigitsValue(NatText(n)) == n
  {
    if n >= 10 {
      NatTextValue(n / 10);
      var t := NatText(n);
      assert t[..|t| - 1] == NatText(n / 10);
    }
  }

  /** Reading back what IntText wrote gives the number again. */
  lemma IntTextRoundTrip(n: int)
    ensures ParseInt(IntText(n)) == Some(n)
  {
    var t := IntText(n);
    if n < 0 {
      NatTextValue(-n);
      assert t[1..] == NatText(-n);
    } else {
      NatTextValue(n);
      assert t[0] != '-';
    }
  }

  /** Splits s at its first occurrence of c: the text before it and the text after it. */
  function SplitAt(s: string, c: char): (r: Option<(string, string)>)
    ensures r.Some? ==> c !in r.value.0 && s == r.value.0 + [c] + r.value.1
    ensures r.None? <==> c !in s
  {
    if s == [] then None
    else if s[0] == c then Some(([], s[1..]))
    else match SplitAt(s[1..], c)
      case None => None
      case Some((before, after)) => Some(([s[0]] + before, after))
  }

  /** When c does not occur in a, splitting a + [c] + b at c gives back a and b. */
  lemma {:induction false} SplitAtJoin(a: string, c: char, b: string)
    requires c !in a
    ensures SplitAt(a + [c] + b, c) == Some((a, b))
  {
    var s := a + [c] + b;
    if a == [] {
      assert s == [c] + b;
      assert s[1..] == b;
    } else {
      SplitAtJoin(a[1..], c, b);
      assert s[0] == a[0] != c;
      assert s[1..] == a[1..] + [c] + b;
      assert SplitAt(s[1..], c) == Some((a[1..], b));
      assert [s[0]] + a[1..] == a;
    }
  }
}
