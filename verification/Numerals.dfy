/** Decimal numerals and the C library conversions the modelled programs rely on. */
module Numerals {
  import opened Division

  predicate IsDigit(c: char) { '0' <= c <= '9' }

  predicate AllDigits(s: string) { forall i :: 0 <= i < |s| ==> IsDigit(s[i]) }

  function DigitChar(d: nat): (c: char)
    requires d < 10
    ensures IsDigit(c)
  {
    '0' + d as char
  }

  function DigitValue(c: char): (d: nat)
    requires IsDigit(c)
    ensures d < 10 && DigitChar(d) == c
  {
    (c - '0') as nat
  }

  /** The decimal numeral of n, without leading zeros. */
  function Decimal(n: nat): (s: string)
    ensures |s| >= 1 && AllDigits(s)
    ensures s[0] == '0' ==> n == 0
  {
    if n < 10 then [DigitChar(n)] else Decimal(n / 10) + [DigitChar(n % 10)]
  }

  /** The number a string of digits denotes; leading zeros are allowed. */
  function Value(s: string): nat
    requires AllDigits(s)
  {
    if s == [] then 0 else 10 * Value(s[..|s| - 1]) + DigitValue(s[|s| - 1])
  }

  lemma {:induction false} ValueOfDecimal(n: nat)
    ensures Value(Decimal(n)) == n
  {
    if n >= 10 {
      var s := Decimal(n);
      assert s[..|s| - 1] == Decimal(n / 10);
      ValueOfDecimal(n / 10);
    }
  }

  function Pow10(k: nat): (p: nat)
    ensures p >= 1
  {
    if k == 0 then 1 else 10 * Pow10(k - 1)
  }

  /** A numeral has at most k digits exactly when the number is below 10^k. */
  lemma {:induction false} DecimalLength(n: nat, k: nat)
    requires k >= 1
    ensures |Decimal(n)| <= k <==> n < Pow10(k)
  {
    if n < 10 {
      assert Pow10(k) == 10 * Pow10(k - 1);
    } else if k == 1 {
      assert Pow10(1) == 10 * Pow10(0);
    } else {
      DecimalLength(n / 10, k - 1);
    }
  }

  /** Counted from the right, digit k of a numeral is n / 10^k modulo 10. */
  lemma {:induction false} DigitAt(n: nat, k: nat)
    requires k < |Decimal(n)|
    ensures var s := Decimal(n); s[|s| - 1 - k] == '0' + (n / Pow10(k) % 10) as char
  {
    if k > 0 {
      if n >= 10 {
        DigitAt(n / 10, k - 1);
        TenTimes(n, Pow10(k - 1));
      }
    }
  }

  lemma TenTimes(n: nat, p: nat)
    requires p >= 1
    ensures n / (10 * p) == n / 10 / p
  {
    var q := n / 10 / p;
    var r := n / 10 % p;
    assert n / 10 == q * p + r;
    assert n == q * (10 * p) + (10 * r + n % 10);
    assert 10 * r + n % 10 < 10 * p;
    DivUnique(n, 10 * p, q, 10 * r + n % 10);
  }

  function Repeat(c: char, n: nat): (s: string)
    ensures |s| == n && forall i :: 0 <= i < n ==> s[i] == c
  {
    if n == 0 then [] else Repeat(c, n - 1) + [c]
  }

  /** The output of a right-justified minimum-width conversion such as "%7lld". */
  function PadLeft(s: string, width: nat): (r: string)
    ensures |r| == if |s| < width then width else |s|
  {
    if |s| < width then Repeat(' ', width - |s|) + s else s
  }

  predicate IsSpace(c: char) { c == ' ' || '\t' <= c <= '\r' }

  function SkipSpaces(s: string): (r: string)
    ensures |r| <= |s|
  {
    if s != [] && IsSpace(s[0]) then SkipSpaces(s[1..]) else s
  }

  /** The longest prefix made of digits. */
  function DigitPrefix(s: string): (r: string)
    ensures AllDigits(r)
  {
    if s != [] && IsDigit(s[0]) then [s[0]] + DigitPrefix(s[1..]) else []
  }

  /** atol(3): optional white space, optional sign, digits; anything after the digits is ignored. */
  function Atol(s: string): int
  {
    var t := SkipSpaces(s);
    if t != [] && t[0] == '-' then -(Value(DigitPrefix(t[1..])) as int)
    else if t != [] && t[0] == '+' then Value(DigitPrefix(t[1..]))
    else Value(DigitPrefix(t))
  }

  lemma {:induction false} SkipRepeat(n: nat, s: string)
    requires s != [] && !IsSpace(s[0])
    ensures SkipSpaces(Repeat(' ', n) + s) == s
  {
    if n == 0 {
      assert Repeat(' ', 0) + s == s;
    } else {
      SkipRepeat(n - 1, s);
      assert (Repeat(' ', n) + s)[1..] == Repeat(' ', n - 1) + s;
    }
  }

  lemma {:induction false} DigitPrefixOfDigits(s: string)
    requires AllDigits(s)
    ensures DigitPrefix(s) == s
  {
    if s != [] {
      DigitPrefixOfDigits(s[1..]);
    }
  }

  /** A number printed right-justified in any width is read back by atol. */
  lemma {:induction false} AtolOfPadded(n: nat, width: nat)
    ensures Atol(PadLeft(Decimal(n), width)) == n
  {
    var d := Decimal(n);
    if |d| < width {
      SkipRepeat(width - |d|, d);
    }
    DigitPrefixOfDigits(d);
    ValueOfDecimal(n);
  }
}
