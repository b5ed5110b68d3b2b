/** Decimal numbers as fmt, strconv.Itoa, Atoi, ParseInt and ParseUint read and write them. */
module Decimal {
  import opened Basics
  import opened Text

  const MAX_UINT64: int := 0xFFFF_FFFF_FFFF_FFFF

  predicate IsDigit(c: char) {
    '0' <= c <= '9'
  }

  predicate AllDigits(s: string) {
    forall k | 0 <= k < |s| :: IsDigit(s[k])
  }

  /** The regular expression ^\d+$. */
  predicate LooksLikePort(s: string) {
    s != [] && AllDigits(s)
  }

  function DigitChar(d: nat): (c: char)
    requires d < 10
    ensures IsDigit(c) && DigitValue(c) == d
  {
    '0' + d as char
  }

  function DigitValue(c: char): nat
    requires IsDigit(c)
  {
    (c - '0') as nat
  }

  function FormatNat(n: nat): (s: string)
    ensures LooksLikePort(s)
  {
    if n < 10 then [DigitChar(n)] else FormatNat(n / 10) + [DigitChar(n % 10)]
  }

  function DigitsValue(s: string): nat
    requires AllDigits(s)
  {
    if s == [] then 0 else 10 * DigitsValue(s[..|s| - 1]) + DigitValue(s[|s| - 1])
  }

  lemma {:induction false} FormatNatValue(n: nat)
    ensures DigitsValue(FormatNat(n)) == n
  {
    if n < 10 {
      assert FormatNat(n)[..0] == [];
    } else {
      FormatNatValue(n / 10);
      assert FormatNat(n)[..|FormatNat(n)| - 1] == FormatNat(n / 10);
    }
  }

  /** fmt's %d and strconv.Itoa. */
  function FormatInt(n: int): (s: string)
    ensures s != [] && (IsDigit(s[0]) || s[0] == '-') && IsDigit(s[|s| - 1])
    ensures forall c | c in s :: IsDigit(c) || c == '-'
    ensures n >= 0 <==> LooksLikePort(s)
  {
    if n >= 0 then FormatNat(n) else ['-'] + FormatNat(-n)
  }

  /** strconv.ParseUint(s, 10, 0) on a 64-bit platform. */
  function ParseUint(s: string): Option<nat> {
    if LooksLikePort(s) && DigitsValue(s) <= MAX_UINT64 then Some(DigitsValue(s)) else None
  }

  /** strconv.Atoi, and strconv.ParseInt(s, 10, 0), on a 64-bit platform. */
  function Atoi(s: string): Option<int> {
    var negative := s != [] && s[0] == '-';
    var digits := if s != [] && (s[0] == '-' || s[0] == '+') then s[1..] else s;
    if !LooksLikePort(digits) then None
    else
      var value: int := if negative then 0 - DigitsValue(digits) else DigitsValue(digits);
      if MIN_INT <= value <= MAX_INT then Some(value) else None
  }

  lemma ParseFormatUint(n: nat)
    requires n <= MAX_UINT64
    ensures ParseUint(FormatNat(n)) == Some(n)
  {
    FormatNatValue(n);
  }

  lemma AtoiFormat(n: int)
    ensures Atoi(FormatInt(n)) == if MIN_INT <= n <= MAX_INT then Some(n) else None
  {
    if n >= 0 {
      FormatNatValue(n);
    } else {
      FormatNatValue(-n);
      assert FormatInt(n)[1..] == FormatNat(-n);
    }
  }

  function Pow10(k: nat): nat {
    if k == 0 then 1 else 10 * Pow10(k - 1)
  }

  lemma {:induction false} FormatNatLength(n: nat, k: nat)
    requires k >= 1 && n < Pow10(k)
    ensures |FormatNat(n)| <= k
  {
    if n >= 10 {
      assert k >= 2;
      FormatNatLength(n / 10, k - 1);
    }
  }

  lemma Pow10Of19()
    ensures Pow10(19) == 10_000_000_000_000_000_000
  {
    assert Pow10(4) == 10_000;
    assert Pow10(8) == 100_000_000;
    assert Pow10(12) == 1_000_000_000_000;
    assert Pow10(16) == 10_000_000_000_000_000;
  }

  /** A 64-bit integer takes at most 20 characters. */
  lemma FormatIntLength(n: int)
    requires MIN_INT <= n <= MAX_INT
    ensures |FormatInt(n)| <= 20
  {
    Pow10Of19();
    FormatNatLength(if n >= 0 then n else -n, 19);
  }

  /** Printed numbers are in decimal, and only zero begins with a zero. */
  lemma {:induction false} FormatNatLeading(n: nat)
    ensures FormatNat(n) != [] && (n > 0 ==> FormatNat(n)[0] != '0') && (n == 0 ==> FormatNat(n) == "0")
  {
    if n >= 10 {
      FormatNatLeading(n / 10);
    }
  }
}
