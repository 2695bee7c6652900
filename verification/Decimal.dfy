/** Decimal numerals: how integers are written into and read out of strings. */
module Decimal {
  import opened Prelude

  predicate AllDigits(s: string)
  {
    s == [] || (IsDigit(s[|s| - 1]) && AllDigits(s[..|s| - 1]))
  }

  lemma {:induction false} Everywhere(s: string)
    ensures AllDigits(s) <==> forall i | 0 <= i < |s| :: IsDigit(s[i])
  {
    if s != [] {
      Everywhere(s[..|s| - 1]);
      assert s == s[..|s| - 1] + [s[|s| - 1]];
    }
  }

  lemma SliceDigits(s: string, i: nat, j: nat)
    requires AllDigits(s) && i <= j <= |s|
    ensures AllDigits(s[i..j])
  {
    Everywhere(s);
    Everywhere(s[i..j]);
  }

  lemma ConcatDigits(a: string, b: string)
    requires AllDigits(a) && AllDigits(b)
    ensures AllDigits(a + b)
  {
    Everywhere(a);
    Everywhere(b);
    Everywhere(a + b);
  }

  function DigitOf(d: nat): (c: char)
    requires d < 10
    ensures IsDigit(c) && c as int - '0' as int == d
  {
    '0' + d as char
  }

  /** The number a string of digits denotes. */
  function Value(s: string): nat
    requires AllDigits(s)
  {
    if s == [] then 0 else 10 * Value(s[..|s| - 1]) + (s[|s| - 1] as int - '0' as int)
  }

  /** The shortest numeral of a number. */
  function Digits(n: nat): (s: string)
    ensures s != [] && AllDigits(s) && Value(s) == n
    ensures n < 10 ==> |s| == 1
  {
    var last := [DigitOf(n % 10)];
    if n < 10 then
      assert last[..0] == [] && last[0] == DigitOf(n % 10);
      last
    else
      var s := Digits(n / 10) + last;
      assert s[..|s| - 1] == Digits(n / 10);
      s
  }

  lemma DigitsInjective(m: nat, n: nat)
    requires Digits(m) == Digits(n)
    ensures m == n
  {
  }

  /** Leading zeros do not change the value. */
  lemma {:induction false} LeadingZeros(k: nat, s: string)
    requires AllDigits(s)
    ensures AllDigits(Repeat('0', k) + s) && Value(Repeat('0', k) + s) == Value(s)
    decreases |s|, k
  {
    var t := Repeat('0', k) + s;
    if s != [] {
      LeadingZeros(k, s[..|s| - 1]);
      assert t[..|t| - 1] == Repeat('0', k) + s[..|s| - 1];
    } else if k > 0 {
      LeadingZeros(k - 1, []);
      assert t[..k - 1] == Repeat('0', k - 1) + [];
    }
  }

  function Pow10(n: nat): Positive { if n == 0 then 1 else 10 * Pow10(n - 1) }

  /** How many digits the text starts with. */
  function DigitRun(s: string): (n: nat)
    ensures n <= |s| && AllDigits(s[..n]) && (n < |s| ==> !IsDigit(s[n]))
  {
    if s == [] || !IsDigit(s[0]) then 0 else
      var n := DigitRun(s[1..]);
      assert s[..n + 1] == [s[0]] + s[1..][..n];
      assert AllDigits([s[0]]) by { assert [s[0]][..0] == []; }
      ConcatDigits([s[0]], s[1..][..n]);
      n + 1
  }

  lemma {:induction false} DigitRunStops(digits: string, rest: string)
    requires AllDigits(digits) && rest != [] && !IsDigit(rest[0])
    ensures DigitRun(digits + rest) == |digits|
  {
    if digits == [] {
      assert digits + rest == rest;
    } else {
      Everywhere(digits);
      SliceDigits(digits, 1, |digits|);
      assert digits[1..] == digits[1..|digits|];
      assert (digits + rest)[1..] == digits[1..] + rest;
      DigitRunStops(digits[1..], rest);
    }
  }

  lemma {:induction false} AllDigitsRun(s: string)
    requires AllDigits(s)
    ensures DigitRun(s) == |s|
  {
    if s != [] {
      Everywhere(s);
      SliceDigits(s, 1, |s|);
      assert s[1..] == s[1..|s|];
      AllDigitsRun(s[1..]);
    }
  }
}
