/** Powers and decimal numerals. */
module Decimal {

  function Pow(b: nat, e: nat): nat { if e == 0 then 1 else b * Pow(b, e - 1) }

  lemma MulAssociative(a: nat, b: nat, c: nat)
    ensures a * (b * c) == (a * b) * c
  {}

  lemma {:induction false} PowAdd(b: nat, x: nat, y: nat)
    ensures Pow(b, x + y) == Pow(b, x) * Pow(b, y)
  {
    if x > 0 {
      PowAdd(b, x - 1, y);
      MulAssociative(b, Pow(b, x - 1), Pow(b, y));
    }
  }

  lemma {:induction false} PowPositive(b: nat, e: nat)
    requires b > 0
    ensures Pow(b, e) > 0
  {
    if e > 0 { PowPositive(b, e - 1); }
  }

  lemma {:induction false} PowGrows(x: nat, y: nat)
    requires x <= y
    ensures Pow(10, x) <= Pow(10, y)
  {
    if x < y { PowGrows(x, y - 1); PowPositive(10, y - 1); }
  }

  predicate IsDigit(c: char) { '0' <= c <= '9' }

  predicate Digits(s: string) { forall i :: 0 <= i < |s| ==> IsDigit(s[i]) }

  function DigitValue(c: char): (d: nat)
    requires IsDigit(c)
    ensures d < 10
  {
    c as int - '0' as int
  }

  /** The number a run of digits denotes. */
  function Numeral(s: string): nat
    requires Digits(s)
  {
    if s == "" then 0 else Numeral(s[..|s| - 1]) * 10 + DigitValue(s[|s| - 1])
  }

  lemma ShiftDigit(x: nat, p: nat, y: nat)
    ensures (x * p + y) * 10 == x * (10 * p) + y * 10
  {}

  /** Place value: appending digits shifts what stands before them. */
  lemma {:induction false} NumeralAppend(a: string, b: string)
    requires Digits(a) && Digits(b)
    ensures Digits(a + b) && Numeral(a + b) == Numeral(a) * Pow(10, |b|) + Numeral(b)
    decreases |b|
  {
    if b == "" {
      assert a + b == a;
    } else {
      var c, d := b[..|b| - 1], DigitValue(b[|b| - 1]);
      var whole := a + b;
      assert whole[..|whole| - 1] == a + c && whole[|whole| - 1] == b[|b| - 1];
      NumeralAppend(a, c);
      ShiftDigit(Numeral(a), Pow(10, |c|), Numeral(c));
      assert Numeral(whole) == Numeral(a + c) * 10 + d;
    }
  }

  lemma AtLeastOnce(x: nat, p: nat)
    requires p > 0
    ensures x <= x * p
  {}

  lemma NumeralPrefix(a: string, b: string)
    requires Digits(a) && Digits(b)
    ensures Digits(a + b) && Numeral(a) <= Numeral(a + b)
  {
    hide Numeral, Pow;
    NumeralAppend(a, b);
    PowPositive(10, |b|);
    AtLeastOnce(Numeral(a), Pow(10, |b|));
  }

  /** Decimal rendering, as `{}` formats an unsigned integer. */
  function Render(n: nat): (s: string)
    ensures s != "" && Digits(s) && Numeral(s) == n && (s[0] == '0' <==> n == 0) && (n == 0 ==> |s| == 1)
  {
    var c := ('0' as int + n % 10) as char;
    if n < 10 then
      var s := [c];
      assert s[..0] == "";
      s
    else
      var s := Render(n / 10) + [c];
      assert s[..|s| - 1] == Render(n / 10);
      s
  }

  lemma RenderInjective(m: nat, n: nat)
    ensures Render(m) == Render(n) <==> m == n
  {
    assert Numeral(Render(m)) == m && Numeral(Render(n)) == n;
  }
}
