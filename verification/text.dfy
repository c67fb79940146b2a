/** Decimal rendering of integers (Go's `strconv.Itoa`), its inverse, and suffix handling. */
module Text {
  import opened Base

  predicate IsDigit(c: char) {
    '0' <= c <= '9'
  }

  function DigitChar(d: nat): (c: char)
    requires d < 10
    ensures IsDigit(c)
  {
    (48 + d) as char
  }

  function DigitValue(c: char): (d: nat)
    requires IsDigit(c)
    ensures d < 10 && DigitChar(d) == c
  {
    c as int - 48
  }

  /** Canonical decimal digits of a natural number: non-empty, digits only,
      and no leading zero except for zero itself. */
  function NatDigits(n: nat): (s: string)
    ensures |s| >= 1
    ensures forall i :: 0 <= i < |s| ==> IsDigit(s[i])
    ensures s[0] == '0' <==> n == 0
    decreases n
  {
    if n < 10 then [DigitChar(n)] else NatDigits(n / 10) + [DigitChar(n % 10)]
  }

  /** Go's `strconv.Itoa`: an optional minus sign followed by the canonical digits. */
  function Itoa(n: int): (s: string) {
    if n < 0 then "-" + NatDigits(-n) else NatDigits(n)
  }

  /** Reads a non-empty string of decimal digits (leading zeros allowed). */
  function ParseNat(s: string): (n: Option<nat>)
    decreases |s|
  {
    if |s| == 0 || !IsDigit(s[|s| - 1]) then None
    else if |s| == 1 then Some(DigitValue(s[0]))
    else match ParseNat(s[..|s| - 1])
      case None => None
      case Some(p) => Some(p * 10 + DigitValue(s[|s| - 1]))
  }

  /** Reads an optionally negative decimal integer, the inverse of `Itoa`. */
  function ParseInt(s: string): (n: Option<int>) {
    var negative := |s| > 0 && s[0] == '-';
    var digits := if negative then s[1..] else s;
    match ParseNat(digits)
    case None => None
    case Some(n) => Some(if negative then -(n as int) else n as int)
  }

  /** The part of `s` before `suffix`, when `s` ends with `suffix`. */
  function StripSuffix(s: string, suffix: string): (r: Option<string>)
    ensures r.Some? ==> r.value + suffix == s
  {
    if |suffix| <= |s| && s[|s| - |suffix|..] == suffix then Some(s[..|s| - |suffix|]) else None
  }

  lemma StripAppendedSuffix(prefix: string, suffix: string)
    ensures StripSuffix(prefix + suffix, suffix) == Some(prefix)
  {
    var s := prefix + suffix;
    assert s[|s| - |suffix|..] == suffix;
    assert s[..|s| - |suffix|] == prefix;
  }

  /** Appending a fixed suffix is injective. */
  lemma AppendSuffixInjective(a: string, b: string, suffix: string)
    ensures a + suffix == b + suffix <==> a == b
  {
    if a + suffix == b + suffix {
      StripAppendedSuffix(a, suffix);
      StripAppendedSuffix(b, suffix);
    }
  }

  lemma {:induction false} ParseNatDigits(n: nat)
    ensures ParseNat(NatDigits(n)) == Some(n)
    decreases n
  {
    if n >= 10 {
      var prefix := NatDigits(n / 10);
      var s := NatDigits(n);
      ParseNatDigits(n / 10);
      assert s == prefix + [DigitChar(n % 10)];
      assert s[..|s| - 1] == prefix;
    }
  }

  /** Round trip: `ParseInt` recovers every integer `Itoa` renders. */
  lemma ParseItoa(n: int)
    ensures ParseInt(Itoa(n)) == Some(n)
  {
    if n < 0 {
      var digits := NatDigits(-n);
      var s := "-" + digits;
      assert Itoa(n) == s;
      assert s[0] == '-' && s[1..] == digits;
      ParseNatDigits(-n);
    } else {
      var s := NatDigits(n);
      assert Itoa(n) == s;
      assert IsDigit(s[0]);
      ParseNatDigits(n);
    }
  }

  /** Distinct integers render to distinct decimal strings. */
  lemma ItoaInjective(a: int, b: int)
    ensures Itoa(a) == Itoa(b) <==> a == b
  {
    ParseItoa(a);
    ParseItoa(b);
  }
}
