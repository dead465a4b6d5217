/** Printing and reading natural numbers in decimal. */
module Numerals {

  predicate IsDigit(c: char) {
    '0' <= c <= '9'
  }

  predicate AllDigits(s: string) {
    forall c :: c in s ==> IsDigit(c)
  }

  function DigitChar(d: nat): (c: char)
    requires d < 10
    ensures IsDigit(c) && DigitValue(c) == d
  {
    ('0' as int + d) as char
  }

  function DigitValue(c: char): (d: nat)
    ensures d < 10
  {
    if IsDigit(c) then c as int - '0' as int else 0
  }

  /** The number a string of digits denotes; 0 for the empty string. */
  function Value(s: string): nat {
    if s == [] then 0 else Value(s[..|s| - 1]) * 10 + DigitValue(s[|s| - 1])
  }

  function Dec(n: nat): (s: string)
    ensures s != [] && AllDigits(s) && Value(s) == n
    ensures s[0] == '0' ==> n == 0 && |s| == 1
  {
    if n < 10 then [DigitChar(n)]
    else
      var r := Dec(n / 10);
      assert (r + [DigitChar(n % 10)])[..|r|] == r;
      r + [DigitChar(n % 10)]
  }

  /** A digit string without superfluous leading zeros. */
  predicate Normal(s: string) {
    s != [] && AllDigits(s) && (s[0] == '0' ==> |s| == 1)
  }

  lemma {:induction false} NormalValuePositive(s: string)
    requires AllDigits(s) && s != [] && s[0] != '0'
    ensures Value(s) >= 1
  {
    if |s| > 1 { NormalValuePositive(s[..|s| - 1]); }
  }

  lemma DigitRoundTrip(c: char)
    requires IsDigit(c)
    ensures DigitChar(DigitValue(c)) == c
  {
  }

  lemma DecStep(v: nat, d: nat)
    requires v >= 1 && d < 10
    ensures Dec(v * 10 + d) == Dec(v) + [DigitChar(d)]
  {
    assert (v * 10 + d) / 10 == v && (v * 10 + d) % 10 == d;
  }

  /** Reading back: the printed form of a number is the only normal one. */
  lemma {:induction false} DecOfValue(s: string)
    requires Normal(s)
    ensures Dec(Value(s)) == s
  {
    var n := |s| - 1;
    DigitRoundTrip(s[n]);
    if n == 0 {
      assert Value(s) == DigitValue(s[0]) by { assert s[..0] == []; }
    } else {
      NormalValuePositive(s[..n]);
      DecOfValue(s[..n]);
      DecStep(Value(s[..n]), DigitValue(s[n]));
      assert s == s[..n] + [s[n]];
    }
  }

  lemma DecInjective(m: nat, n: nat)
    requires Dec(m) == Dec(n)
    ensures m == n
  {
    assert Value(Dec(m)) == m && Value(Dec(n)) == n;
  }
}
