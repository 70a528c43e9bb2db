/** Decimal rendering of natural numbers and its reading. */
module Decimal {
  import opened Strings

  function Digits(n: nat): (t: Text)
    ensures |t| >= 1
    ensures forall i :: 0 <= i < |t| ==> IsDigit(t[i])
  {
    if n < 10 then [0x30 + n] else Digits(n / 10) + [0x30 + n % 10]
  }

  /** Value of a run of digits, most significant first. */
  function ValueOf(t: Text): nat
    requires forall i :: 0 <= i < |t| ==> IsDigit(t[i])
  {
    if t == [] then 0 else assert IsDigit(t[|t| - 1]); 10 * ValueOf(t[..|t| - 1]) + (t[|t| - 1] as int - 0x30)
  }

  lemma {:induction false} ValueOfDigits(n: nat)
    ensures ValueOf(Digits(n)) == n
  {
    if n >= 10 {
      ValueOfDigits(n / 10);
      assert Digits(n)[..|Digits(n)| - 1] == Digits(n / 10);
    }
  }

  /** A run of digits without a superfluous zero in front is the only one of its value. */
  lemma {:induction false} DigitsOfValue(t: Text)
    requires t != [] && forall i :: 0 <= i < |t| ==> IsDigit(t[i])
    requires t[0] == '0' as int ==> |t| == 1
    ensures Digits(ValueOf(t)) == t && (|t| > 1 ==> ValueOf(t) >= 10)
  {
    var n := |t| - 1;
    assert IsDigit(t[0]) && IsDigit(t[n]) && t == t[..n] + [t[n]];
    var v, d := ValueOf(t[..n]), t[n] as int - 0x30;
    assert ValueOf(t) == 10 * v + d;
    if n > 0 {
      DigitsOfValue(t[..n]);
      ValueOfOne(t[0]);
      assert n == 1 ==> t[..n] == [t[0]];
      hide ValueOf;
      assert (10 * v + d) / 10 == v && (10 * v + d) % 10 == d;
    }
  }

  lemma ValueOfOne(u: Unit)
    requires IsDigit(u)
    ensures ValueOf([u]) == u - 0x30
  {
  }

  /** Rendered numbers followed by a common non-digit can be told apart, whatever comes after. */
  lemma DigitsPrefixFree(m: nat, n: nat, stop: Unit, x: Text, y: Text)
    requires !IsDigit(stop)
    requires Digits(m) + [stop] + x == Digits(n) + [stop] + y
    ensures m == n && x == y
  {
    var a, b := Digits(m), Digits(n);
    var t := a + [stop] + x;
    assert t[|a|] == stop && t[|b|] == stop;
    assert |a| == |b|;
    assert a == t[..|a|] && b == t[..|b|];
    assert x == t[|a| + 1..] && y == t[|b| + 1..];
    ValueOfDigits(m);
    ValueOfDigits(n);
  }
}
