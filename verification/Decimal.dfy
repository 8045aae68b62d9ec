/** Decimal numerals, as Python's `str` prints a natural number and `int` reads one back. */
module Decimal {

  predicate IsDigit(c: char) { '0' <= c <= '9' }

  /** `str.isdigit` on ASCII text. */
  predicate IsNumeral(s: string) {
    s != "" && forall k :: 0 <= k < |s| ==> IsDigit(s[k])
  }

  function DigitOf(d: nat): (c: char)
    requires d < 10
    ensures IsDigit(c) && c as int - '0' as int == d
  {
    '0' + d as char
  }

  function Print(n: nat): (s: string)
    ensures IsNumeral(s)
  {
    if n < 10 then [DigitOf(n)] else Print(n / 10) + [DigitOf(n % 10)]
  }

  function Value(s: string): nat
    requires IsNumeral(s)
  {
    var last := s[|s| - 1] as int - '0' as int;
    if |s| == 1 then last else 10 * Value(s[..|s| - 1]) + last
  }

  lemma {:induction false} ValueOfPrint(n: nat)
    ensures Value(Print(n)) == n
  {
    if n >= 10 {
      ValueOfPrint(n / 10);
      assert Print(n)[..|Print(n)| - 1] == Print(n / 10);
    }
  }

  /** Printing writes no leading zero. */
  lemma {:induction false} PrintIsCanonical(n: nat)
    ensures Print(n)[0] == '0' <==> n == 0
    ensures Print(n)[0] == '0' ==> Print(n) == "0"
  {
    if n >= 10 {
      PrintIsCanonical(n / 10);
      assert Print(n)[0] == Print(n / 10)[0];
    } else {
      assert Print(n) == [DigitOf(n)];
    }
  }

  function PowerOfTen(n: nat): nat {
    if n == 0 then 1 else 10 * PowerOfTen(n - 1)
  }

  /** Digits weigh ten times as much as those behind them. */
  lemma {:induction false} ValueOfConcat(a: string, b: string)
    requires IsNumeral(a) && IsNumeral(b)
    ensures IsNumeral(a + b) && Value(a + b) == Value(a) * PowerOfTen(|b|) + Value(b)
    decreases |b|
  {
    var n := |b| - 1;
    var s := a + b;
    assert s[..|s| - 1] == a + b[..n] && s[|s| - 1] == b[n];
    if n == 0 {
      assert b[..n] == [] && a + b[..n] == a && PowerOfTen(1) == 10;
    } else {
      ValueOfConcat(a, b[..n]);
      TenTimes(Value(a), PowerOfTen(n));
    }
  }

  lemma TenTimes(a: nat, p: nat)
    ensures 10 * (a * p) == a * (10 * p)
  {
  }

  /** The ten digits, in order. */
  lemma ValueOfDigit(d: nat)
    requires d < 10
    ensures IsNumeral(["0123456789"[d]]) && Value(["0123456789"[d]]) == d
  {
  }

  /** A numeral of zeros only denotes zero, and no other does. */
  lemma {:induction false} ZeroIsZeros(s: string)
    requires IsNumeral(s)
    ensures Value(s) == 0 <==> forall k :: 0 <= k < |s| ==> s[k] == '0'
  {
    if |s| > 1 {
      ZeroIsZeros(s[..|s| - 1]);
      assert forall k :: 0 <= k < |s| - 1 ==> s[..|s| - 1][k] == s[k];
    }
  }
}
