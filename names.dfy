/** Synthesized identifiers such as `arg3` and `val1`: a prefix followed by a
    counter written in decimal, as fmt's %d verb writes it. */
module Names {

  predicate IsDigit(c: char) { '0' <= c <= '9' }

  function DigitChar(d: nat): (c: char)
    requires d < 10
    ensures IsDigit(c) && c as int - '0' as int == d
  {
    ('0' as int + d) as char
  }

  /** The decimal digits of n, most significant first, with no leading zero. */
  function Decimal(n: nat): (s: string)
    ensures |s| >= 1
    ensures forall i :: 0 <= i < |s| ==> IsDigit(s[i])
    ensures s[0] == '0' <==> n == 0
    decreases n
  {
    if n < 10 then [DigitChar(n)] else Decimal(n / 10) + [DigitChar(n % 10)]
  }

  function DigitValue(c: char): (d: nat)
    requires IsDigit(c)
    ensures d < 10
  {
    c as int - '0' as int
  }

  /** The number a string of decimal digits denotes. */
  function DecimalValue(s: string): nat
    requires forall i :: 0 <= i < |s| ==> IsDigit(s[i])
    decreases |s|
  {
    if s == [] then 0 else 10 * DecimalValue(s[..|s| - 1]) + DigitValue(s[|s| - 1])
  }

  /** Reading back the digits of n gives n. */
  lemma {:induction false} DecimalRoundTrip(n: nat)
    ensures DecimalValue(Decimal(n)) == n
    decreases n
  {
    if n >= 10 {
      var s := Decimal(n);
      assert s[..|s| - 1] == Decimal(n / 10);
      DecimalRoundTrip(n / 10);
    }
  }

  /** The identifier `prefix` followed by the decimal digits of k. */
  function Generated(prefix: string, k: nat): string
  {
    prefix + Decimal(k)
  }

  /** Two counters never produce the same identifier under one prefix. */
  lemma {:induction false} GeneratedInjective(prefix: string, j: nat, k: nat)
    requires Generated(prefix, j) == Generated(prefix, k)
    ensures j == k
  {
    assert Generated(prefix, j)[|prefix|..] == Decimal(j);
    assert Generated(prefix, k)[|prefix|..] == Decimal(k);
    DecimalRoundTrip(j);
    DecimalRoundTrip(k);
  }
}
