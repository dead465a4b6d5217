/** Printing an integer amount of base units as a decimal number and reading it back. */
module Decimals {
  import opened Numerals
  import opened Wrappers

  function Pow10(n: nat): (r: nat)
    ensures r >= 1
  {
    if n == 0 then 1 else 10 * Pow10(n - 1)
  }

  function Zeros(n: nat): (s: string)
    ensures |s| == n && AllDigits(s)
  {
    seq(n, _ => '0')
  }

  // ----- Digit strings and their values -----

  /** `n` followed by `k` zeros. */
  function Shift(n: nat, k: nat): nat {
    if k == 0 then n else 10 * Shift(n, k - 1)
  }

  lemma {:induction false} ShiftIsProduct(n: nat, k: nat)
    ensures Shift(n, k) == n * Pow10(k)
  {
    if k == 0 {
    } else {
      ShiftIsProduct(n, k - 1);
    }
  }

  /** A number without its `k` last digits, and the number these digits make. */
  function Units(v: nat, k: nat): nat {
    if k == 0 then v else Units(v / 10, k - 1)
  }

  function Rest(v: nat, k: nat): nat {
    if k == 0 then 0 else 10 * Rest(v / 10, k - 1) + v % 10
  }

  lemma {:induction false} UnitsAndRest(v: nat, k: nat)
    ensures v == Shift(Units(v, k), k) + Rest(v, k) && Rest(v, k) < Pow10(k)
  {
    if k == 0 {
    } else {
      UnitsAndRest(v / 10, k - 1);
    }
  }

  lemma {:induction false} ValueOfConcat(a: string, b: string)
    ensures Value(a + b) == Shift(Value(a), |b|) + Value(b)
  {
    if b == "" {
      assert a + b == a;
    } else {
      var c := b[..|b| - 1];
      ValueOfConcat(a, c);
      assert (a + b)[..|a + b| - 1] == a + c;
    }
  }

  lemma {:induction false} Gap(q: nat, k: nat, b: nat)
    requires q < k
    ensures k * b >= q * b + b
  {
    if k == q + 1 { assert k * b == q * b + b; } else { Gap(q, k - 1, b); }
  }

  lemma QuotientUnique(q: nat, r: nat, k: nat, m: nat, b: nat)
    requires r < b && m < b && q * b + r == k * b + m
    ensures q == k && r == m
  {
    if q < k { Gap(q, k, b); }
    if k < q { Gap(k, q, b); }
  }

  lemma DivisionUnique(v: nat, q: nat, r: nat, b: nat)
    requires r < b && v == q * b + r
    ensures v / b == q && v % b == r
  {
    QuotientUnique(q, r, v / b, v % b, b);
  }

  /** They are the quotient and the remainder by a power of ten. */
  lemma UnitsIsQuotient(v: nat, k: nat)
    ensures v / Pow10(k) == Units(v, k) && v % Pow10(k) == Rest(v, k)
  {
    UnitsAndRest(v, k);
    ShiftIsProduct(Units(v, k), k);
    DivisionUnique(v, Units(v, k), Rest(v, k), Pow10(k));
  }

  /** Cutting digits off a string cuts its value. */
  lemma {:induction false} CuttingCuts(a: string, b: string)
    ensures Units(Value(a + b), |b|) == Value(a) && Rest(Value(a + b), |b|) == Value(b)
  {
    if b == "" {
      assert a + b == a;
    } else {
      var c := b[..|b| - 1];
      assert (a + b)[..|a + b| - 1] == a + c;
      CuttingCuts(a, c);
    }
  }

  lemma {:induction false} ValueOfZeros(n: nat)
    ensures Value(Zeros(n)) == 0
  {
    if n == 0 {
    } else {
      assert Zeros(n)[..n - 1] == Zeros(n - 1);
      ValueOfZeros(n - 1);
    }
  }

  lemma {:induction false} ValueBelow(s: string)
    ensures Value(s) < Pow10(|s|)
  {
    if s == "" {
    } else {
      ValueBelow(s[..|s| - 1]);
    }
  }

  /** Digit strings of one length are told apart by their value. */
  lemma {:induction false} SameLengthInjective(a: string, b: string)
    requires AllDigits(a) && AllDigits(b) && |a| == |b| && Value(a) == Value(b)
    ensures a == b
  {
    if a == "" {
    } else {
      var n := |a| - 1;
      assert DigitValue(a[n]) == DigitValue(b[n]);
      SameLengthInjective(a[..n], b[..n]);
      assert a == a[..n] + [a[n]] && b == b[..n] + [b[n]];
    }
  }

  lemma {:induction false} DecLength(n: nat, k: nat)
    requires n < Pow10(k) && k >= 1
    ensures |Dec(n)| <= k
  {
    if n >= 10 { DecLength(n / 10, k - 1); }
  }

  lemma {:induction false} DecOfPow(n: nat)
    ensures |Dec(Pow10(n))| == n + 1
  {
    if n == 0 {
    } else {
      DecOfPow(n - 1);
    }
  }

  function PadLeft(s: string, n: nat): string {
    if |s| < n then Zeros(n - |s|) + s else s
  }

  function PadRight(s: string, n: nat): string {
    if |s| < n then s + Zeros(n - |s|) else s
  }

  lemma PadRightStep(s: string, n: nat)
    requires |s| < n
    ensures PadRight(s + "0", n) == PadRight(s, n)
  {
    var k := n - |s| - 1;
    assert Zeros(k + 1) == "0" + Zeros(k);
    assert s + "0" + Zeros(k) == s + Zeros(k + 1);
  }

  lemma PadLeftStep(s: string, n: nat)
    requires |s| < n
    ensures PadLeft("0" + s, n) == PadLeft(s, n)
  {
    var k := n - |s| - 1;
    assert Zeros(k + 1) == Zeros(k) + "0";
    assert Zeros(k) + ("0" + s) == Zeros(k + 1) + s;
  }

  lemma PadLeftKeepsValue(s: string, n: nat)
    requires AllDigits(s)
    ensures AllDigits(PadLeft(s, n)) && Value(PadLeft(s, n)) == Value(s)
  {
    if |s| < n {
      ValueOfConcat(Zeros(n - |s|), s);
      ValueOfZeros(n - |s|);
      ShiftIsProduct(0, |s|);
    }
  }

  /** Padding a printed number to a width gives the one string of that width denoting it. */
  lemma PaddedDec(f: string)
    requires AllDigits(f) && f != ""
    ensures PadLeft(Dec(Value(f)), |f|) == f
  {
    ValueBelow(f);
    DecLength(Value(f), |f|);
    PadLeftKeepsValue(Dec(Value(f)), |f|);
    SameLengthInjective(PadLeft(Dec(Value(f)), |f|), f);
  }

  // ----- Trailing zeros -----

  /** The first group of `^([0-9]*[1-9]|0)(0*)` in a non-empty digit string. */
  function Strip(s: string): (r: string)
    ensures |r| <= |s| && (s != "" ==> r != "") && (AllDigits(s) ==> AllDigits(r))
  {
    if |s| >= 2 && s[|s| - 1] == '0' then Strip(s[..|s| - 1]) else s
  }

  /** The stripped string is the only one that ends in no zero, or is a single zero, and
      gives the original back when zeros are appended. */
  lemma {:induction false} StripIs(s: string, r: string)
    requires AllDigits(s) && s != ""
    ensures Strip(s) == r <==> r != "" && |r| <= |s| && s == r + Zeros(|s| - |r|) && (r == "0" || r[|r| - 1] != '0')
    decreases |s|
  {
    var n := |s| - 1;
    if n >= 1 && s[n] == '0' {
      StripIs(s[..n], r);
      if r != "" && |r| <= n {
        StripStep(s, r, Zeros(n - |r|));
      } else if r != "" && |r| == n + 1 && s == r + Zeros(0) {
        assert r == s;
      }
    } else if r != "" && |r| <= |s| && s == r + Zeros(|s| - |r|) {
      StripEnd(s, r);
    } else {
      assert s == s + Zeros(0);
    }
  }

  lemma StripStep(s: string, r: string, z: string)
    requires |s| == |r| + |z| + 1 && s[|s| - 1] == '0'
    ensures s == r + (z + "0") <==> s[..|s| - 1] == r + z
  {
    var n := |s| - 1;
    assert r + (z + "0") == r + z + "0";
    assert s == s[..n] + "0";
    assert (r + z + "0")[..n] == r + z;
  }

  lemma StripEnd(s: string, r: string)
    requires r != "" && |r| <= |s| && s == r + Zeros(|s| - |r|) && (|s| == 1 || s[|s| - 1] != '0')
    ensures r == s
  {
    assert r + Zeros(0) == r;
  }

  // ----- Splitting at the points -----

  /** `split('.')`. */
  function Split(s: string): (r: seq<string>)
    ensures r != []
  {
    if s == "" then [""]
    else if s[0] == '.' then [""] + Split(s[1..])
    else var r := Split(s[1..]); [[s[0]] + r[0]] + r[1..]
  }

  predicate AllPieces(r: seq<string>) {
    forall k :: 0 <= k < |r| ==> AllDigits(r[k])
  }

  /** The pieces of a plain string are digits. */
  lemma {:induction false} SplitDigits(s: string)
    requires Plain(s)
    ensures AllPieces(Split(s))
  {
    if s == "" {
    } else {
      SplitDigits(s[1..]);
    }
  }

  predicate NoPoints(r: seq<string>) {
    forall k :: 0 <= k < |r| ==> '.' !in r[k]
  }

  lemma {:induction false} PiecesHaveNoPoint(s: string)
    ensures NoPoints(Split(s))
  {
    if s == "" {
    } else {
      PiecesHaveNoPoint(s[1..]);
    }
  }

  lemma {:induction false} SplitWithoutPoint(s: string)
    requires '.' !in s
    ensures Split(s) == [s]
  {
    if s == "" {
    } else {
      SplitWithoutPoint(s[1..]);
      assert [s[0]] + s[1..] == s;
    }
  }

  lemma {:induction false} SplitAtPoint(w: string, f: string)
    requires '.' !in w && '.' !in f
    ensures Split(w + "." + f) == [w, f]
  {
    var s := w + "." + f;
    if w == "" {
      assert s[1..] == f;
      SplitWithoutPoint(f);
    } else {
      assert s[1..] == w[1..] + "." + f;
      SplitAtPoint(w[1..], f);
      assert s[0] == w[0] && [w[0]] + w[1..] == w;
    }
  }

  /** Joining the pieces with points gives the string back. */
  lemma {:induction false} SplitJoins(s: string)
    ensures Join(Split(s)) == s
  {
    if s == "" {
    } else {
      SplitJoins(s[1..]);
      var r := Split(s[1..]);
      if s[0] == '.' {
        assert ([""] + r)[1..] == r;
      } else {
        assert ([[s[0]] + r[0]] + r[1..])[1..] == r[1..];
      }
    }
  }

  function Join(pieces: seq<string>): string {
    if pieces == [] then ""
    else if |pieces| == 1 then pieces[0]
    else pieces[0] + "." + Join(pieces[1..])
  }

  // ----- The two conversions -----

  datatype Error = InvalidValue | TooManyPoints | TooManyPlaces

  /** Digits and points only, no sign. */
  predicate Plain(s: string) {
    forall i :: 0 <= i < |s| ==> IsDigit(s[i]) || s[i] == '.'
  }

  function Or(n: nat, default: nat): nat {
    if n == 0 then default else n
  }

  /** The number of zeros of the base, at least 1. */
  function BaseLength(decimals: nat): nat {
    Or(decimals, 1)
  }

  function OrZero(s: string): string {
    if s == "" then "0" else s
  }

  /** What a string of digits and points reads as. */
  function Read(s: string, decimals: nat): Result<nat, Error>
    requires Plain(s)
  {
    var comps := Split(s);
    if s == "." then Err(InvalidValue)
    else if |comps| > 2 then Err(TooManyPoints)
    else Combine(comps[0], if |comps| == 2 then comps[1] else "", decimals)
  }

  function Combine(whole: string, fraction: string, decimals: nat): Result<nat, Error> {
    var f := OrZero(fraction);
    if |f| > BaseLength(decimals) then Err(TooManyPlaces)
    else Ok(Shift(Value(OrZero(whole)), decimals) + Value(PadRight(f, BaseLength(decimals))))
  }

  /** The fractional digits of an amount, all of them. */
  function Places(v: nat, decimals: nat): string {
    PadLeft(Dec(Rest(v, decimals)), BaseLength(decimals))
  }

  /** The whole decimal number, before it is cut. */
  function Print(v: nat, decimals: nat): string {
    Joined(Dec(Units(v, decimals)), Strip(Places(v, decimals)))
  }

  function Joined(whole: string, fraction: string): string {
    if fraction == "0" then whole else whole + "." + fraction
  }

  /** `slice(0, n)`. */
  function Cut(s: string, n: nat): string {
    if n < |s| then s[..n] else s
  }

  function To(v: int, decimals: nat, fixed: nat): string {
    var digits := Print(if v < 0 then -v else v, Or(decimals, 18));
    Cut(if v < 0 then "-" + digits else digits, Or(fixed, 7))
  }

  /** The base and the number of its zeros, as both conversions begin. */
  method BaseOf(decimals: nat) returns (base: nat, baseLength: nat)
    ensures base == Pow10(decimals) && baseLength == BaseLength(decimals)
  {
    DecOfPow(decimals);
    base := Pow10(decimals);
    baseLength := Or(|Dec(base)| - 1, 1);
  }

  /** The big-number library: its parser, and what its `mul` makes of a boolean. */
  datatype BigNumbers = BigNumbers(parse: string -> int, timesTrue: int -> Result<int, Error>)

  /** Of the parser only this is relied on. */
  ghost predicate ParsesDigits(bn: BigNumbers) {
    forall s :: s != "" && AllDigits(s) ==> bn.parse(s) == Value(s)
  }

  function FromUnsigned(s: string, decimals: nat, bn: BigNumbers): Result<int, Error> {
    var comps := Split(s);
    if s == "." then Err(InvalidValue)
    else if |comps| > 2 then Err(TooManyPoints)
    else
      var f := OrZero(if |comps| == 2 then comps[1] else "");
      if |f| > BaseLength(decimals) then Err(TooManyPlaces)
      else Ok(bn.parse(OrZero(comps[0])) * Pow10(decimals) + bn.parse(PadRight(f, BaseLength(decimals))))
  }

  predicate Signed(s: string) {
    s != "" && s[0] == '-'
  }

  /** A leading minus is cut off, and at the end the number is multiplied by the boolean
      that says so. */
  function From(s: string, decimals: nat, bn: BigNumbers): Result<int, Error> {
    if !Signed(s) then FromUnsigned(s, decimals, bn)
    else
      var wei :- FromUnsigned(s[1..], decimals, bn);
      bn.timesTrue(wei)
  }

  method FromDecimals(amount: string, decimals: nat, bn: BigNumbers) returns (r: Result<int, Error>)
    ensures r == From(amount, decimals, bn)
  {
    var ether := amount;
    var base, baseLength := BaseOf(decimals);
    var negative := ether != "" && ether[0] == '-';
    if negative { ether := ether[1..]; }
    if ether == "." { return Err(InvalidValue); }
    var comps := Split(ether);
    if |comps| > 2 { return Err(TooManyPoints); }
    var whole := comps[0];
    var fraction := if |comps| == 2 then comps[1] else "";
    if whole == "" { whole := "0"; }
    if fraction == "" { fraction := "0"; }
    if |fraction| > baseLength { return Err(TooManyPlaces); }
    ghost var padded := PadRight(fraction, baseLength);
    while |fraction| < baseLength
      invariant PadRight(fraction, baseLength) == padded
    {
      PadRightStep(fraction, baseLength);
      fraction := fraction + "0";
    }
    var wei := bn.parse(whole) * base + bn.parse(fraction);
    if negative { return bn.timesTrue(wei); }
    return Ok(wei);
  }

  /** `div` and `mod` by the base. */
  method DivideByBase(v: nat, base: nat, ghost decimals: nat) returns (q: nat, r: nat)
    requires base == Pow10(decimals)
    ensures q == Units(v, decimals) && r == Rest(v, decimals)
  {
    UnitsIsQuotient(v, decimals);
    q, r := v / base, v % base;
  }

  method ToDecimals(value: int, decimals: nat, fixed: nat) returns (s: string)
    ensures s == To(value, decimals, fixed)
  {
    var d := if decimals == 0 then 18 else decimals;
    var f := if fixed == 0 then 7 else fixed;
    var negative := value < 0;
    var base, baseLength := BaseOf(d);
    var v := if negative then -value else value;
    var whole, rest := DivideByBase(v, base, d);
    var fraction := Dec(rest);
    ghost var places := PadLeft(fraction, baseLength);
    while |fraction| < baseLength
      invariant PadLeft(fraction, baseLength) == places
    {
      PadLeftStep(fraction, baseLength);
      fraction := "0" + fraction;
    }
    fraction := Strip(fraction);
    s := Dec(whole);
    if fraction != "0" { s := s + "." + fraction; }
    assert s == Print(v, d);
    if negative { s := "-" + s; }
    s := Cut(s, f);
  }

  // ----- Laws -----

  /** On digits and points the conversion depends on nothing but the digits. */
  lemma PlainReads(s: string, decimals: nat, bn: BigNumbers)
    requires Plain(s) && ParsesDigits(bn)
    ensures From(s, decimals, bn) == FromUnsigned(s, decimals, bn) == Read(s, decimals)
  {
    var comps := Split(s);
    SplitDigits(s);
    if |comps| <= 2 {
      var f := OrZero(if |comps| == 2 then comps[1] else "");
      ParsesParts(OrZero(comps[0]), f, decimals, bn);
    }
  }

  lemma ParsesParts(w: string, f: string, decimals: nat, bn: BigNumbers)
    requires AllDigits(w) && AllDigits(f) && w != "" && f != "" && ParsesDigits(bn)
    ensures var p := PadRight(f, BaseLength(decimals));
            bn.parse(w) * Pow10(decimals) + bn.parse(p) == Shift(Value(w), decimals) + Value(p)
  {
    ShiftIsProduct(Value(w), decimals);
  }

  lemma PlacesDenote(v: nat, decimals: nat)
    requires decimals >= 1
    ensures var p := Places(v, decimals);
            |p| == decimals && AllDigits(p) && Value(p) == Rest(v, decimals)
  {
    UnitsAndRest(v, decimals);
    DecLength(Rest(v, decimals), decimals);
    PadLeftKeepsValue(Dec(Rest(v, decimals)), decimals);
  }

  lemma NoPoint(s: string)
    requires AllDigits(s)
    ensures '.' !in s && Plain(s)
  {
  }

  /** The amount read has the digits of the whole followed by those of the fraction,
      padded on the right. */
  lemma CombineDenotes(w: string, g: string, decimals: nat)
    requires AllDigits(w) && AllDigits(g) && w != "" && |g| <= decimals && decimals >= 1
    ensures Combine(w, g, decimals) == Ok(Value(w + (g + Zeros(decimals - |g|))))
  {
    PadOfFull(g, decimals);
    CombineDigits(w, g, decimals, g + Zeros(decimals - |g|));
  }

  lemma CombineDigits(w: string, g: string, decimals: nat, p: string)
    requires w != "" && decimals >= 1 && |OrZero(g)| <= decimals == |p| && PadRight(OrZero(g), decimals) == p
    ensures Combine(w, g, decimals) == Ok(Value(w + p))
  {
    CombineIs(w, g, decimals, p);
    ValueOfConcat(w, p);
  }

  lemma CombineIs(w: string, g: string, decimals: nat, p: string)
    requires w != "" && decimals >= 1 && |OrZero(g)| <= decimals && PadRight(OrZero(g), decimals) == p
    ensures Combine(w, g, decimals) == Ok(Shift(Value(w), decimals) + Value(p))
  {
  }

  lemma PadOfFull(g: string, n: nat)
    requires |g| <= n && n >= 1
    ensures |OrZero(g)| <= n && PadRight(OrZero(g), n) == g + Zeros(n - |g|)
  {
    if g == "" {
      assert g + Zeros(n) == "0" + Zeros(n - 1);
    }
    assert OrZero(g) + Zeros(0) == OrZero(g);
  }

  lemma ReadsFraction(w: string, f: string, decimals: nat)
    requires AllDigits(w) && AllDigits(f) && w != "" && f != ""
    ensures Plain(w + "." + f) && Read(w + "." + f, decimals) == Combine(w, f, decimals)
  {
    NoPoint(w);
    NoPoint(f);
    SplitAtPoint(w, f);
    assert |w + "." + f| > 1;
  }

  lemma ReadsWhole(w: string, decimals: nat)
    requires AllDigits(w) && w != ""
    ensures Plain(w) && Read(w, decimals) == Combine(w, "", decimals)
  {
    NoPoint(w);
    SplitWithoutPoint(w);
    assert w[0] != '.';
  }

  lemma PadOfZero(n: nat)
    requires n >= 1
    ensures PadRight("0", n) == Zeros(n)
  {
    ZeroPadded(n);
  }

  lemma WholeReads(w: string, decimals: nat)
    requires AllDigits(w) && w != "" && decimals >= 1
    ensures Plain(w) && Read(w, decimals) == Ok(Value(w + Zeros(decimals)))
  {
    ReadsWhole(w, decimals);
    PadOfZero(decimals);
    CombineDigits(w, "", decimals, Zeros(decimals));
  }

  lemma PartsDenote(v: nat, decimals: nat)
    requires decimals >= 1
    ensures Value(Dec(Units(v, decimals)) + Places(v, decimals)) == v
  {
    PlacesDenote(v, decimals);
    UnitsAndRest(v, decimals);
    ValueOfConcat(Dec(Units(v, decimals)), Places(v, decimals));
  }

  /** Reading what was printed, before any cut, gives the amount back. */
  lemma PrintReads(v: nat, decimals: nat)
    requires decimals >= 1
    ensures Plain(Print(v, decimals)) && Read(Print(v, decimals), decimals) == Ok(v)
  {
    PlacesDenote(v, decimals);
    PartsDenote(v, decimals);
    StrippedReads(Dec(Units(v, decimals)), Places(v, decimals), decimals);
  }

  lemma StrippedReads(w: string, p: string, decimals: nat)
    requires AllDigits(w) && w != "" && AllDigits(p) && |p| == decimals >= 1
    ensures var s := Joined(w, Strip(p)); Plain(s) && Read(s, decimals) == Ok(Value(w + p))
  {
    var f := Strip(p);
    StripIs(p, f);
    JoinedReads(w, f, decimals);
  }

  lemma JoinedReads(w: string, f: string, decimals: nat)
    requires AllDigits(w) && w != "" && AllDigits(f) && f != "" && |f| <= decimals
    ensures var s := Joined(w, f); Plain(s) && Read(s, decimals) == Ok(Value(w + (f + Zeros(decimals - |f|))))
  {
    if f == "0" {
      WholeReads(w, decimals);
      ZeroPadded(decimals);
    } else {
      ReadsFraction(w, f, decimals);
      CombineDenotes(w, f, decimals);
    }
  }

  lemma ZeroPadded(n: nat)
    requires n >= 1
    ensures "0" + Zeros(n - 1) == Zeros(n)
  {
  }

  /** The decimal numbers that are printed: no superfluous zero at either end. */
  ghost predicate Normalised(s: string, decimals: nat) {
    || Normal(s)
    || exists w, f :: s == w + "." + f && Normal(w) && IsFraction(f, decimals)
  }

  predicate IsFraction(f: string, decimals: nat) {
    f != "" && AllDigits(f) && |f| <= decimals && f[|f| - 1] != '0'
  }

  /** The amount a whole and a fraction of full width make, printed. */
  lemma PrintsParts(w: string, p: string, decimals: nat)
    requires AllDigits(w) && AllDigits(p) && |p| == decimals >= 1
    ensures var v := Value(w + p);
            && Places(v, decimals) == p
            && Print(v, decimals) == Joined(Dec(Value(w)), Strip(p))
  {
    CuttingCuts(w, p);
    PaddedDec(p);
  }

  /** Every normalised decimal number is read, and printing its amount gives it back. */
  lemma ReadPrints(s: string, decimals: nat)
    requires decimals >= 1 && Normalised(s, decimals)
    ensures Plain(s) && Read(s, decimals).Ok? && Print(Read(s, decimals).value, decimals) == s
  {
    if Normal(s) {
      JoinedRoundTrip(s, "0", decimals);
    } else {
      var w, f :| s == w + "." + f && Normal(w) && IsFraction(f, decimals);
      JoinedRoundTrip(w, f, decimals);
    }
  }

  lemma JoinedRoundTrip(w: string, f: string, decimals: nat)
    requires decimals >= 1 && Normal(w) && (f == "0" || IsFraction(f, decimals))
    ensures var s := Joined(w, f);
            Plain(s) && Read(s, decimals).Ok? && Print(Read(s, decimals).value, decimals) == s
  {
    JoinedReads(w, f, decimals);
    PrintsNormal(w, f, decimals);
  }

  lemma PrintsNormal(w: string, f: string, decimals: nat)
    requires decimals >= 1 && Normal(w) && (f == "0" || IsFraction(f, decimals))
    ensures Print(Value(w + (f + Zeros(decimals - |f|))), decimals) == Joined(w, f)
  {
    var p := f + Zeros(decimals - |f|);
    DecOfValue(w);
    PrintsParts(w, p, decimals);
    StripIs(p, f);
  }

  /** Printed numbers are normalised, so reading is a bijection between the normalised
      numbers and the amounts. */
  lemma PrintIsNormalised(v: nat, decimals: nat)
    requires decimals >= 1
    ensures Normalised(Print(v, decimals), decimals)
  {
    var w, p := Dec(Units(v, decimals)), Places(v, decimals);
    var f := Strip(p);
    PlacesDenote(v, decimals);
    StripIs(p, f);
    if f == "0" {
      assert Print(v, decimals) == w;
    } else {
      assert Print(v, decimals) == w + "." + f && IsFraction(f, decimals);
    }
  }

  lemma StripDrops(g: string, n: nat)
    requires AllDigits(g) && |g| + n >= 1 && Strip(g + Zeros(n)) != "0"
    ensures |Strip(g + Zeros(n))| <= |g|
  {
    var p := g + Zeros(n);
    var r := Strip(p);
    StripIs(p, r);
    assert p[|r| - 1] == r[|r| - 1] != '0';
    assert forall i :: |g| <= i < |p| ==> p[i] == '0';
  }

  /** Among the decimal numbers with a whole part that denote an amount, the printed one
      is the shortest. */
  lemma PrintIsShortest(t: string, decimals: nat)
    requires decimals >= 1 && Plain(t) && t != "" && t[0] != '.' && Read(t, decimals).Ok?
    ensures |Print(Read(t, decimals).value, decimals)| <= |t|
  {
    var comps := Split(t);
    SplitJoins(t);
    SplitDigits(t);
    var w, g := comps[0], if |comps| == 2 then comps[1] else "";
    assert Join(comps) == t && t[0] != '.';
    assert w != "" && AllDigits(w) && AllDigits(g);
    assert |t| == |w| + if |comps| == 2 then 1 + |g| else 0;
    PartsPrintShort(w, g, decimals);
  }

  lemma PartsPrintShort(w: string, g: string, decimals: nat)
    requires decimals >= 1 && w != "" && AllDigits(w) && AllDigits(g) && Combine(w, g, decimals).Ok?
    ensures |Print(Combine(w, g, decimals).value, decimals)| <= |w| + if g == "" then 0 else 1 + |g|
  {
    CombineDenotes(w, g, decimals);
    PrintsParts(w, g + Zeros(decimals - |g|), decimals);
    DecIsShort(w);
    StripIsShort(g, decimals);
  }

  lemma DecIsShort(w: string)
    requires w != ""
    ensures |Dec(Value(w))| <= |w|
  {
    ValueBelow(w);
    DecLength(Value(w), |w|);
  }

  lemma StripIsShort(g: string, n: nat)
    requires AllDigits(g) && |g| <= n && n >= 1
    ensures var f := Strip(g + Zeros(n - |g|)); f == "0" || (g != "" && |f| <= |g|)
  {
    if Strip(g + Zeros(n - |g|)) != "0" { StripDrops(g, n - |g|); }
  }

  lemma PrintStartsWithDigit(v: nat, decimals: nat)
    ensures Print(v, decimals) != "" && IsDigit(Print(v, decimals)[0])
  {
    var w := Dec(Units(v, decimals));
    assert Print(v, decimals)[0] == w[0];
    assert w[0] in w;
  }

  lemma CutRoundTripIff(n: nat, decimals: nat, k: nat)
    requires decimals >= 1 && (n > 0 || k > 0)
    ensures var t := Cut(Print(n, decimals), k);
            Plain(t) && (Read(t, decimals) == Ok(n) <==> |Print(n, decimals)| <= k)
  {
    PrintReads(n, decimals);
    PrintStartsWithDigit(n, decimals);
    var t := Cut(Print(n, decimals), k);
    if k == 0 {
      EmptyIsZero(decimals);
    } else if k < |Print(n, decimals)| && Read(t, decimals) == Ok(n) {
      PrintIsShortest(t, decimals);
      assert false;
    }
  }

  lemma EmptyIsZero(decimals: nat)
    requires decimals >= 1
    ensures Read("", decimals) == Ok(0)
  {
    SplitWithoutPoint("");
    WholeReads("0", decimals);
    ZeroAndZeros(decimals);
  }

  lemma ZeroAndZeros(n: nat)
    ensures Value("0" + Zeros(n)) == 0
  {
    ValueOfZeros(n + 1);
    assert "0" + Zeros(n) == Zeros(n + 1);
  }

  /** The round trip of `toDecimals` and `fromDecimals`: the amount comes back exactly
      when the cut removes nothing.  Zero stands for the defaults. */
  lemma DecimalRoundTripIff(v: nat, decimals: nat, fixed: nat, bn: BigNumbers)
    requires ParsesDigits(bn)
    ensures var d := if decimals == 0 then 18 else decimals;
            var limit := if fixed == 0 then 7 else fixed;
            From(To(v, decimals, fixed), d, bn) == Ok(v) <==> |Print(v, d)| <= limit
  {
    CutRoundTripIff(v, Or(decimals, 18), Or(fixed, 7));
    PlainReads(To(v, decimals, fixed), Or(decimals, 18), bn);
  }

  /** A negative amount is printed as a minus and its opposite, the cut counting the
      minus; reading it back multiplies what stands behind the minus by a boolean. */
  lemma NegativeRoundTripIff(n: nat, decimals: nat, fixed: nat, bn: BigNumbers)
    requires n > 0 && ParsesDigits(bn)
    ensures var d := if decimals == 0 then 18 else decimals;
            var limit := if fixed == 0 then 7 else fixed;
            var s := To(-(n as int), decimals, fixed);
            && Signed(s) && (FromUnsigned(s[1..], d, bn) == Ok(n) <==> |Print(n, d)| + 1 <= limit)
            && (|Print(n, d)| + 1 <= limit ==> From(s, d, bn) == bn.timesTrue(n))
  {
    var d, k := Or(decimals, 18), Or(fixed, 7);
    CutRoundTripIff(n, d, k - 1);
    MinusReads(Print(n, d), n, d, k);
    PlainReads(To(-(n as int), decimals, fixed)[1..], d, bn);
  }

  lemma MinusReads(p: string, n: nat, decimals: nat, k: nat)
    requires k >= 1
    requires Plain(Cut(p, k - 1)) && (Read(Cut(p, k - 1), decimals) == Ok(n) <==> |p| <= k - 1)
    ensures var s := Cut("-" + p, k);
            s != "" && s[0] == '-' && Plain(s[1..]) && (Read(s[1..], decimals) == Ok(n) <==> |p| + 1 <= k)
  {
    MinusCut(p, k);
  }

  lemma MinusCut(p: string, k: nat)
    requires k >= 1
    ensures var s := Cut("-" + p, k); s != "" && s[0] == '-' && s[1..] == Cut(p, k - 1)
  {
    var s := "-" + p;
    assert s[1..] == p;
    assert Cut(s, k)[1..] == Cut(p, k - 1);
  }

  /** The opposite round trip. */
  lemma NormalisedRoundTrip(s: string, decimals: nat, fixed: nat, bn: BigNumbers)
    requires decimals >= 1 && Normalised(s, decimals) && |s| <= Or(fixed, 7) && ParsesDigits(bn)
    ensures var r := From(s, decimals, bn); r.Ok? && To(r.value, decimals, fixed) == s
  {
    ReadPrints(s, decimals);
    PlainReads(s, decimals, bn);
  }

  /** What is read: at most one point, at most as many digits behind it as the base has
      zeros (one, when it has none), and something besides the point. */
  ghost predicate Readable(s: string, decimals: nat) {
    && s != "."
    && ('.' !in s || exists w, f :: s == w + "." + f && '.' !in w && FitsBehindPoint(f, decimals))
  }

  predicate FitsBehindPoint(f: string, decimals: nat) {
    '.' !in f && |f| <= BaseLength(decimals)
  }

  /** Which strings are accepted, whatever their characters. */
  lemma ReadsIff(s: string, decimals: nat, bn: BigNumbers)
    ensures FromUnsigned(s, decimals, bn).Ok? <==> Readable(s, decimals)
  {
    var comps := Split(s);
    SplitJoins(s);
    PiecesHaveNoPoint(s);
    assert |comps| == 1 ==> s == comps[0];
    if '.' !in s {
      SplitWithoutPoint(s);
    } else {
      if FromUnsigned(s, decimals, bn).Ok? {
        var w, f := comps[0], comps[1];
        assert s == w + "." + f && '.' !in w && FitsBehindPoint(f, decimals);
      }
      if Readable(s, decimals) {
        var w, f :| s == w + "." + f && '.' !in w && FitsBehindPoint(f, decimals);
        SplitAtPoint(w, f);
      }
    }
  }

  /** With no decimals a fractional digit is accepted and added as whole units. */
  lemma ZeroDecimalsAddFraction(w: string, c: char, bn: BigNumbers)
    requires AllDigits(w) && w != "" && IsDigit(c) && ParsesDigits(bn)
    ensures From(w + "." + [c], 0, bn) == Ok(Value(w) + DigitValue(c))
  {
    ReadsFraction(w, [c], 0);
    CombineWithoutDecimals(w, c);
    PlainReads(w + "." + [c], 0, bn);
  }

  lemma CombineWithoutDecimals(w: string, c: char)
    requires w != ""
    ensures Combine(w, [c], 0) == Ok(Value(w) + DigitValue(c))
  {
    ValueOfDigit(c);
  }

  lemma ValueOfDigit(c: char)
    ensures Value([c]) == DigitValue(c)
  {
    assert [c][..0] == "";
  }

  lemma {:induction false} PiecesArePoints(s: string)
    ensures |Split(s)| == multiset(s)['.'] + 1
  {
    if s == "" {
    } else {
      PiecesArePoints(s[1..]);
      assert s == [s[0]] + s[1..];
    }
  }

  /** A single point is an invalid value; two points or more are too many; else a string is
      refused only for the places behind its point. */
  lemma ErrorIs(s: string, decimals: nat, bn: BigNumbers)
    ensures var r := FromUnsigned(s, decimals, bn);
            && (r == Err(InvalidValue) <==> s == ".")
            && (r == Err(TooManyPoints) <==> multiset(s)['.'] >= 2)
            && (r == Err(TooManyPlaces) <==> s != "." && multiset(s)['.'] == 1 && !Readable(s, decimals))
  {
    PiecesArePoints(s);
    ReadsIff(s, decimals, bn);
    assert s == "." ==> multiset(s)['.'] == 1;
    assert '.' !in s <==> multiset(s)['.'] == 0 by { assert '.' in s <==> '.' in multiset(s); }
  }

  /** A string with a whole part, a fraction, or both, reads as the digits of both, the
      fraction filled up with zeros. */
  lemma ReadDenotes(w: string, f: string, decimals: nat)
    requires AllDigits(w) && AllDigits(f) && w + f != "" && |f| <= decimals && decimals >= 1
    ensures var s := w + "." + f; Plain(s) && Read(s, decimals) == Ok(Value(w + (f + Zeros(decimals - |f|))))
  {
    NoPoint(w);
    NoPoint(f);
    SplitAtPoint(w, f);
    var s := w + "." + f;
    forall i | 0 <= i < |s| ensures s[i] == '.' || IsDigit(s[i]) {
      if i < |w| { assert s[i] == w[i]; } else if i > |w| { assert s[i] == f[i - |w| - 1]; }
    }
    assert |s| == |w + f| + 1;
    CombineAny(w, f, decimals);
  }

  lemma CombineAny(w: string, f: string, decimals: nat)
    requires AllDigits(w) && AllDigits(f) && |f| <= decimals && decimals >= 1
    ensures Combine(w, f, decimals) == Ok(Value(w + (f + Zeros(decimals - |f|))))
  {
    if w != "" {
      CombineDenotes(w, f, decimals);
    } else {
      CombineDenotes("0", f, decimals);
      ZeroInFront(f + Zeros(decimals - |f|));
    }
  }

  lemma ZeroInFront(s: string)
    ensures Value("0" + s) == Value("" + s)
  {
    ValueOfConcat("0", s);
    ValueOfConcat("", s);
  }
}
