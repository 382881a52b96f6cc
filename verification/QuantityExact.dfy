/**
 Parsing is exact: an accepted quantity is its denoted rational, rounded up to a whole nanounit.
 Rationals are kept as numerator and positive denominator. What a quantity denotes is defined on its
 notation, from place values and the order of the suffix letters; the parser's tables are not used.
 */
module QuantityExact {
  import opened Common
  import opened Text
  import opened Decimal
  import opened Quantity

  /** `n` is the least natural number at or above `num / den`. */
  predicate IsCeil(n: nat, num: nat, den: nat) { num <= n * den < num + den }

  function Times(a: nat, b: nat): nat { a * b }

  // ---------------------------------------------------------------- what a quantity denotes

  /** Binary and metric suffixes by their place in the order of magnitudes, and decimal exponents. */
  datatype Suffix = Binary(k: nat) | Metric(k: nat) | Exponent(lead: char, sign: Option<char>, digits: string)

  datatype Notation = Notation(plus: bool, ip: string, point: bool, fp: string, suffix: Suffix)

  predicate ProperSuffix(s: Suffix) {
    match s
    case Binary(k) => k < |"KMGTPE"|
    case Metric(k) => k < |METRIC|
    case Exponent(lead, sign, digits) =>
      (lead == 'e' || lead == 'E') && ProperSign(sign) && digits != "" && Digits(digits)
  }

  predicate ProperSign(sign: Option<char>) { sign == None || sign == Some('+') || sign == Some('-') }

  /** A sign, if there is one, and digits. */
  function Signed(sign: Option<char>, digits: string): string {
    if sign.Some? then [sign.value] + digits else digits
  }

  /** From a billionth up, a thousand apart. */
  const METRIC: seq<string> := ["n", "u", "m", "", "k", "M", "G", "T", "P", "E"]

  function SpellSuffix(s: Suffix): string
    requires ProperSuffix(s)
  {
    match s
    case Binary(k) => ["KMGTPE"[k], 'i']
    case Metric(k) => METRIC[k]
    case Exponent(lead, sign, digits) => [lead] + Signed(sign, digits)
  }

  predicate Proper(n: Notation) {
    && Digits(n.ip) && Digits(n.fp) && (!n.point ==> n.fp == "") && n.ip + n.fp != "" && ProperSuffix(n.suffix)
  }

  function Written(n: Notation): string
    requires Proper(n)
  {
    (if n.plus then "+" else "") + n.ip + (if n.point then "." else "") + n.fp + SpellSuffix(n.suffix)
  }

  /** The power of ten a suffix stands for. */
  function Tens(s: Suffix): int
    requires ProperSuffix(s) && !s.Binary?
  {
    match s
    case Metric(k) => 3 * (k - 3)
    case Exponent(_, sign, digits) => SignedValue(sign, digits)
  }

  function SignedValue(sign: Option<char>, digits: string): int
    requires Digits(digits)
  {
    if sign == Some('-') then -(Numeral(digits) as int) else Numeral(digits)
  }

  function Factor(s: Suffix): nat
    requires ProperSuffix(s)
  {
    if s.Binary? then Pow(1024, s.k + 1) else if Tens(s) >= 0 then Pow(10, Tens(s)) else 1
  }

  function Divisor(s: Suffix): nat
    requires ProperSuffix(s)
  {
    if s.Binary? || Tens(s) >= 0 then 1 else Pow(10, -Tens(s))
  }

  /** The denoted value in whole units, as a fraction. */
  function Num(n: Notation): nat
    requires Proper(n)
  {
    Times(Times(Numeral(n.ip), Pow(10, |n.fp|)) + Numeral(n.fp), Factor(n.suffix))
  }

  function Den(n: Notation): nat
    requires Proper(n)
  {
    Times(Pow(10, |n.fp|), Divisor(n.suffix))
  }

  /** The denoted value is at most the largest signed 64-bit number. */
  predicate InRange(n: Notation)
    requires Proper(n)
  {
    Num(n) <= (Pow(2, 63) - 1) * Den(n)
  }

  /** The least whole number of billionths at or above the denoted value. */
  predicate RoundsTo(v: nat, n: Notation)
    requires Proper(n)
  {
    IsCeil(v, Times(Num(n), Pow(10, 9)), Den(n))
  }

  /** What 128-bit and 32-bit checked arithmetic can carry; everything else is refused. */
  predicate Carried(n: Notation)
    requires Proper(n)
  {
    NumeralAppend(n.ip, n.fp);
    var m, f := Numeral(n.ip + n.fp), |n.fp|;
    && m < Pow(2, 128)
    && if n.suffix.Binary?
       then m * Pow(1024, n.suffix.k + 1) * Pow(10, 9) < Pow(2, 128) && Pow(10, f) < Pow(2, 128)
       else
         var e := Tens(n.suffix);
         && 0 <= e + Pow(2, 31) && e + 9 < Pow(2, 31) && f < Pow(2, 31) && 0 <= e + 9 - f + Pow(2, 31)
         && (if e + 9 >= f then m > 0 || Pow(10, e + 9 - f) < Pow(2, 128) else Pow(10, f - e - 9) < Pow(2, 128))
  }

  lemma Limits()
    ensures U128 == Pow(2, 128) && U32 == Pow(2, 32) && I32_MAX == Pow(2, 31) - 1 && I32_MIN + Pow(2, 31) == 0
    ensures MAX_NANOS == (Pow(2, 63) - 1) * Pow(10, 9) && Pow(2, 63) > 1
  {
    NanoIsPow();
    PowersOfTwo();
    hide Pow;
  }

  lemma PowersOfTwo()
    ensures Pow(2, 31) == 0x8000_0000 && Pow(2, 32) == 0x1_0000_0000 && Pow(2, 63) == 0x8000_0000_0000_0000
    ensures Pow(2, 128) == 0x1_0000_0000_0000_0000_0000_0000_0000_0000
  {
    assert Pow(2, 4) == 16 by { assert Pow(2, 2) == 4; PowAdd(2, 2, 2); }
    PowAdd(2, 4, 4);
    PowAdd(2, 8, 8);
    PowAdd(2, 16, 16);
    PowAdd(2, 32, 32);
    PowAdd(2, 64, 64);
    assert Pow(2, 32) == 2 * Pow(2, 31) && Pow(2, 64) == 2 * Pow(2, 63);
  }

  // ---------------------------------------------------------------- what the parser makes of a split

  predicate WellSpelled(q: Spelling) {
    && Digits(q.ip) && Digits(q.fp) && (!q.point ==> q.fp == "") && q.ip + q.fp != ""
    && (BinaryPower(q.suffix).Some? || DecimalExponent(q.suffix).Some?)
  }

  function MultiplierNum(suffix: string): nat
    requires BinaryPower(suffix).Some? || DecimalExponent(suffix).Some?
  {
    if BinaryPower(suffix).Some? then Pow(1024, BinaryPower(suffix).value)
    else if DecimalExponent(suffix).value >= 0 then Pow(10, DecimalExponent(suffix).value) else 1
  }

  function MultiplierDen(suffix: string): nat
    requires BinaryPower(suffix).Some? || DecimalExponent(suffix).Some?
  {
    if BinaryPower(suffix).Some? || DecimalExponent(suffix).value >= 0 then 1
    else Pow(10, -DecimalExponent(suffix).value)
  }

  /** Denoted value in nanounits: (integer + fraction / 10^digits) * multiplier * 10^9. */
  function ExactNum(q: Spelling): nat
    requires WellSpelled(q)
  {
    Times(Times(Times(Numeral(q.ip), Pow(10, |q.fp|)) + Numeral(q.fp), NANO), MultiplierNum(q.suffix))
  }

  function ExactDen(q: Spelling): nat
    requires WellSpelled(q)
  {
    Times(Pow(10, |q.fp|), MultiplierDen(q.suffix))
  }

  predicate DecimalFits(m: nat, f: nat, e: int) {
    var scale := e + 9 - f;
    && e + 9 <= I32_MAX && f <= I32_MAX && I32_MIN <= scale
    && (if scale >= 0 then m > 0 || Pow(10, scale) < U128 else Pow(10, -scale) < U128)
  }

  /** What the checked arithmetic can carry; everything else is refused. */
  predicate Fits(q: Spelling)
    requires WellSpelled(q)
  {
    && Mantissa(q) < U128
    && if BinaryPower(q.suffix).Some?
       then Mantissa(q) * Pow(1024, BinaryPower(q.suffix).value) * NANO < U128 && Pow(10, |q.fp|) < U128
       else DecimalFits(Mantissa(q), |q.fp|, DecimalExponent(q.suffix).value)
  }

  // ---------------------------------------------------------------- ceilings

  lemma CeilDivIsCeil(n: nat, d: nat)
    requires d > 0
    ensures IsCeil(n / d + if n % d != 0 then 1 else 0, n, d)
  {
    assert n == (n / d) * d + n % d;
    assert (n / d + 1) * d == (n / d) * d + d;
  }

  lemma CeilScales(n: nat, num: nat, den: nat, c: nat)
    requires c > 0 && IsCeil(n, num, den)
    ensures IsCeil(n, num * c, den * c)
  {
    assert num * c <= (n * den) * c == n * (den * c);
    assert (n * den) * c < (num + den) * c == num * c + den * c;
  }

  lemma CancelFactor(a: int, b: int, c: int)
    requires c > 0
    ensures a * c <= b * c <==> a <= b
    ensures a * c < b * c <==> a < b
  {}

  /** Ceilings are monotone in the rational they round, hence unique. */
  lemma CeilMonotone(n: nat, num: nat, den: nat, n': nat, num': nat, den': nat)
    requires den > 0 && den' > 0 && IsCeil(n, num, den) && IsCeil(n', num', den')
    requires num * den' <= num' * den
    ensures n <= n'
  {
    CancelFactor(num', n' * den', den);
    assert (n' * den') * den == (n' * den) * den';
    CancelFactor(num, n' * den, den');
    assert (n' + 1) * den == n' * den + den;
    CancelFactor(n, n' + 1, den);
  }

  // ---------------------------------------------------------------- the two scaling paths

  lemma BinaryExact(m: nat, f: nat, power: nat)
    ensures BinaryNanos(m, f, power).Some? <==> m * Pow(1024, power) * NANO < U128 && Pow(10, f) < U128
    ensures BinaryNanos(m, f, power).Some? ==>
              IsCeil(BinaryNanos(m, f, power).value, m * NANO * Pow(1024, power), Pow(10, f))
  {
    PowPositive(10, f);
    var n, d := m * Pow(1024, power) * NANO, Pow(10, f);
    assert n == m * NANO * Pow(1024, power);
    assert m * Pow(1024, power) <= n;
    CeilDivIsCeil(n, d);
    CeilAtMost(n, d);
  }

  lemma CeilAtMost(n: nat, d: nat)
    requires d > 0
    ensures n / d + (if n % d != 0 then 1 else 0) <= n
  {
    var q, r := n / d, n % d;
    assert n == q * d + r;
    CancelFactor(1, d, q + 1);
    assert (q + 1) * d == q * d + d && (q + 1) * 1 == q + 1;
    QuotientAtMost(q, d);
  }

  lemma QuotientAtMost(q: nat, d: nat)
    requires d > 0
    ensures q <= q * d
  {
    if q > 0 { CancelFactor(1, d, q); }
  }

  /** The nanounit rational of mantissa `m`, `f` fraction digits and decimal exponent `e`. */
  function DecNum(m: nat, e: int): nat { m * NANO * (if e >= 0 then Pow(10, e) else 1) }
  function DecDen(f: nat, e: int): nat { Pow(10, f) * (if e >= 0 then 1 else Pow(10, -e)) }

  lemma NanoIsPow()
    ensures Pow(10, 9) == NANO
  {
    PowAdd(10, 4, 5);
    assert Pow(10, 4) == 10_000 by { assert Pow(10, 2) == 100; PowAdd(10, 2, 2); }
    assert Pow(10, 5) == 10 * Pow(10, 4);
  }

  lemma Regroup(m: nat, p: nat, f: nat, d: nat, n: nat, e: nat)
    requires p * f * d == n * e
    ensures m * p * (f * d) == m * n * e
  {
    assert m * p * (f * d) == m * (p * (f * d));
    assert p * (f * d) == p * f * d;
    assert m * (n * e) == m * n * e;
  }

  lemma ScaledUp(m: nat, f: nat, e: int)
    requires e + 9 - f >= 0
    ensures m * Pow(10, e + 9 - f) * DecDen(f, e) == DecNum(m, e)
  {
    var scale := e + 9 - f;
    NanoIsPow();
    PowAdd(10, scale, f);
    assert scale + f == e + 9;
    if e >= 0 {
      PowAdd(10, 9, e);
      assert 9 + e == e + 9;
      Regroup(m, Pow(10, scale), Pow(10, f), 1, NANO, Pow(10, e));
    } else {
      PowAdd(10, e + 9, -e);
      assert e + 9 + -e == 9;
      Regroup(m, Pow(10, scale), Pow(10, f), Pow(10, -e), NANO, 1);
    }
  }

  /** Rounding down-scaled mantissas loses nothing against the unreduced fraction. */
  lemma ScaledDown(n: nat, m: nat, f: nat, e: int)
    requires e + 9 - f < 0 && IsCeil(n, m, Pow(10, f - e - 9))
    ensures IsCeil(n, DecNum(m, e), DecDen(f, e))
  {
    var q := f - e - 9;
    NanoIsPow();
    if e >= 0 {
      PowAdd(10, 9, e);
      PowAdd(10, q, e + 9);
      PowPositive(10, e + 9);
      CeilScales(n, m, Pow(10, q), Pow(10, e + 9));
      assert DecNum(m, e) == m * NANO * Pow(10, e) == m * (NANO * Pow(10, e));
    } else {
      PowAdd(10, f, -e);
      PowAdd(10, q, 9);
      CeilScales(n, m, Pow(10, q), NANO);
      assert f + -e == q + 9;
    }
  }

  lemma DecimalExact(m: nat, f: nat, e: int)
    requires m < U128
    ensures DecimalNanos(m, f, e).Some? ==> IsCeil(DecimalNanos(m, f, e).value, DecNum(m, e), DecDen(f, e))
  {
    var scale := e + 9 - f;
    PowPositive(10, f);
    if e < 0 { PowPositive(10, -e); }
    assert DecDen(f, e) > 0;
    if DecimalNanos(m, f, e).Some? {
      if scale >= 0 {
        ScaledUp(m, f, e);
      } else {
        PowPositive(10, -scale);
        CeilDivIsCeil(m, Pow(10, -scale));
        ScaledDown(DecimalNanos(m, f, e).value, m, f, e);
      }
    }
  }

  // ---------------------------------------------------------------- exactly when a value is accepted

  lemma CeilBound(n: nat, num: nat, den: nat, bound: nat)
    requires den > 0 && IsCeil(n, num, den)
    ensures n <= bound <==> num <= bound * den
  {
    CancelFactor(n, bound, den);
    CancelFactor(n - 1, bound, den);
    assert (n - 1) * den == n * den - den;
    CancelFactor(bound, n - 1, den);
  }

  lemma DecDenPositive(f: nat, e: int)
    ensures DecDen(f, e) > 0
  {
    PowPositive(10, f);
    if e < 0 {
      PowPositive(10, -e);
      CancelFactor(0, Pow(10, f), Pow(10, -e));
    }
  }

  lemma DecimalAccepted(m: nat, f: nat, e: int)
    requires m < U128
    ensures DecimalNanos(m, f, e).Some? && DecimalNanos(m, f, e).value <= MAX_NANOS <==>
            DecimalFits(m, f, e) && DecNum(m, e) <= MAX_NANOS * DecDen(f, e)
  {
    var scale := e + 9 - f;
    DecDenPositive(f, e);
    DecimalExact(m, f, e);
    if DecimalNanos(m, f, e).Some? {
      CeilBound(DecimalNanos(m, f, e).value, DecNum(m, e), DecDen(f, e), MAX_NANOS);
    } else if DecimalFits(m, f, e) {
      if scale >= 0 {
        ScaledUp(m, f, e);
        CancelFactor(m * Pow(10, scale), MAX_NANOS, DecDen(f, e));
        PowPositive(10, scale);
        CancelFactor(1, m, Pow(10, scale));
      } else {
        PowPositive(10, -scale);
        CeilAtMost(m, Pow(10, -scale));
      }
    }
  }

  lemma CeilOfSome(r: Option<nat>, num: nat, den: nat)
    requires den > 0 && (r.Some? ==> IsCeil(r.value, num, den))
    ensures r.Some? ==> (r.value <= MAX_NANOS <==> num <= MAX_NANOS * den)
  {
    if r.Some? { CeilBound(r.value, num, den, MAX_NANOS); }
  }

  lemma BinaryAccepted(m: nat, f: nat, power: nat)
    ensures BinaryNanos(m, f, power).Some? && BinaryNanos(m, f, power).value <= MAX_NANOS <==>
            && m * Pow(1024, power) * NANO < U128 && Pow(10, f) < U128
            && m * NANO * Pow(1024, power) <= MAX_NANOS * Pow(10, f)
  {
    BinaryExact(m, f, power);
    PowPositive(10, f);
    CeilOfSome(BinaryNanos(m, f, power), m * NANO * Pow(1024, power), Pow(10, f));
    hide *;
  }

  lemma PowFitsShort(f: nat)
    requires Pow(10, f) < U128
    ensures f < U32
  {
    NanoIsPow();
    PowAdd(10, 9, 9);
    PowAdd(10, 18, 18);
    PowAdd(10, 36, 9);
    if f >= 45 { PowGrows(45, f); }
  }

  lemma BinarySplitExact(q: Spelling)
    requires WellSpelled(q) && BinaryPower(q.suffix).Some?
    ensures ExactDen(q) > 0
    ensures SplitNanos(q).Some? <==> Fits(q) && ExactNum(q) <= MAX_NANOS * ExactDen(q)
    ensures SplitNanos(q).Some? ==> IsCeil(SplitNanos(q).value, ExactNum(q), ExactDen(q))
  {
    var m, f, power := Mantissa(q), |q.fp|, BinaryPower(q.suffix).value;
    NumeralAppend(q.ip, q.fp);
    PowPositive(10, f);
    BinaryExact(m, f, power);
    BinaryAccepted(m, f, power);
    if Pow(10, f) < U128 { PowFitsShort(f); }
    hide Pow, Numeral, BinaryNanos, IsCeil, BinaryPower, DecimalExponent;
  }

  lemma DecimalSplitExact(q: Spelling)
    requires WellSpelled(q) && BinaryPower(q.suffix).None?
    ensures ExactDen(q) > 0
    ensures SplitNanos(q).Some? <==> Fits(q) && ExactNum(q) <= MAX_NANOS * ExactDen(q)
    ensures SplitNanos(q).Some? ==> IsCeil(SplitNanos(q).value, ExactNum(q), ExactDen(q))
  {
    var m, f, e := Mantissa(q), |q.fp|, DecimalExponent(q.suffix).value;
    NumeralAppend(q.ip, q.fp);
    DecDenPositive(f, e);
    if m < U128 {
      DecimalExact(m, f, e);
      DecimalAccepted(m, f, e);
    }
    assert ExactNum(q) == DecNum(m, e) && ExactDen(q) == DecDen(f, e);
    hide Pow, Numeral, DecimalNanos, IsCeil, BinaryPower, DecimalExponent, DecNum, DecDen, ExactNum, ExactDen;
  }

  /** The heart of the matter, on the split form. */
  lemma SplitExact(q: Spelling)
    requires WellSpelled(q)
    ensures ExactDen(q) > 0
    ensures SplitNanos(q).Some? <==> Fits(q) && ExactNum(q) <= MAX_NANOS * ExactDen(q)
    ensures SplitNanos(q).Some? ==> IsCeil(SplitNanos(q).value, ExactNum(q), ExactDen(q))
  {
    hide *;
    if BinaryPower(q.suffix).Some? { BinarySplitExact(q); } else { DecimalSplitExact(q); }
  }

  // ---------------------------------------------------------------- suffixes

  /** The parser's tables read every suffix as it is meant. */
  lemma SuffixReads(s: Suffix)
    requires ProperSuffix(s)
    ensures s.Binary? ==> BinaryPower(SpellSuffix(s)) == Some(s.k + 1)
    ensures !s.Binary? ==> BinaryPower(SpellSuffix(s)) == None
    ensures !s.Binary? ==>
              DecimalExponent(SpellSuffix(s)) == if I32_MIN <= Tens(s) <= I32_MAX then Some(Tens(s)) else None
  {
    match s
    case Binary(k) => BinaryReads(k);
    case Metric(k) => MetricReads(k);
    case Exponent(lead, sign, digits) => ExponentReads(lead, sign, digits);
  }

  lemma BinaryReads(k: nat)
    requires k < |"KMGTPE"|
    ensures BinaryPower(["KMGTPE"[k], 'i']) == Some(k + 1)
  {
    var letters := "KMGTPE";
    assert letters[0] == 'K' && letters[1] == 'M' && letters[2] == 'G' && letters[3] == 'T' && letters[4] == 'P'
        && letters[5] == 'E';
  }

  lemma MetricReads(k: nat)
    requires k < |METRIC|
    ensures BinaryPower(METRIC[k]) == None && DecimalExponent(METRIC[k]) == Some(3 * (k - 3))
  {}

  lemma ExponentReads(lead: char, sign: Option<char>, digits: string)
    requires ProperSuffix(Exponent(lead, sign, digits))
    ensures var suffix, e := SpellSuffix(Exponent(lead, sign, digits)), Tens(Exponent(lead, sign, digits));
            && BinaryPower(suffix) == None
            && DecimalExponent(suffix) == if I32_MIN <= e <= I32_MAX then Some(e) else None
  {
    var body := Signed(sign, digits);
    var suffix := [lead] + body;
    assert body != "" && body[0] != 'i';
    SignedReads(sign, digits);
    assert suffix[0] == lead && suffix[1] == body[0] && suffix[1..] == body;
    hide Numeral, ParseI32, Signed, SignedValue;
  }

  lemma SignedReads(sign: Option<char>, digits: string)
    requires ProperSign(sign) && digits != "" && Digits(digits)
    ensures ParseI32(Signed(sign, digits)) ==
            var n := SignedValue(sign, digits); if I32_MIN <= n <= I32_MAX then Some(n) else None
  {
    hide Numeral;
    if sign.Some? {
      assert ([sign.value] + digits)[1..] == digits;
    }
  }

  /** And they read nothing else. */
  lemma ReadSuffixIsProper(suffix: string) returns (s: Suffix)
    requires BinaryPower(suffix).Some? || DecimalExponent(suffix).Some?
    ensures ProperSuffix(s) && SpellSuffix(s) == suffix
  {
    if BinaryPower(suffix).Some? {
      s := Binary(BinaryPower(suffix).value - 1);
      BinaryIsProper(suffix);
    } else if suffix in METRIC {
      var k :| 0 <= k < |METRIC| && METRIC[k] == suffix;
      s := Metric(k);
    } else {
      NotMetric(suffix);
      var body := suffix[1..];
      var sign := if body[0] == '-' || body[0] == '+' then Some(body[0]) else None;
      s := Exponent(suffix[0], sign, if sign.Some? then body[1..] else body);
      assert body == Signed(sign, s.digits) && suffix == [suffix[0]] + body;
    }
  }

  lemma BinaryIsProper(suffix: string)
    requires BinaryPower(suffix).Some?
    ensures 0 <= BinaryPower(suffix).value - 1 < |"KMGTPE"|
    ensures suffix == ["KMGTPE"[BinaryPower(suffix).value - 1], 'i']
  {
    var letters := "KMGTPE";
    assert letters[0] == 'K' && letters[1] == 'M' && letters[2] == 'G' && letters[3] == 'T' && letters[4] == 'P'
        && letters[5] == 'E';
  }

  lemma NotMetric(suffix: string)
    requires DecimalExponent(suffix).Some? && suffix !in METRIC
    ensures suffix != "" && (suffix[0] == 'e' || suffix[0] == 'E') && ParseI32(suffix[1..]).Some?
  {
    assert METRIC[0] == "n" && METRIC[1] == "u" && METRIC[2] == "m" && METRIC[3] == "" && METRIC[4] == "k"
        && METRIC[5] == "M" && METRIC[6] == "G" && METRIC[7] == "T" && METRIC[8] == "P" && METRIC[9] == "E";
  }

  // ---------------------------------------------------------------- from spellings to strings

  function Spelled(plus: bool, q: Spelling): string { (if plus then "+" else "") + Spell(q) }

  lemma SuffixEdges(s: Suffix)
    requires ProperSuffix(s) && SpellSuffix(s) != ""
    ensures var suffix := SpellSuffix(s);
            !IsDigit(suffix[0]) && suffix[0] != '.' && !IsWhite(suffix[|suffix| - 1])
  {
    match s
    case Binary(k) =>
      BinaryReads(k);
      BinaryIsProper(SpellSuffix(s));
    case Metric(k) =>
    case Exponent(lead, sign, digits) =>
      var suffix := SpellSuffix(s);
      assert suffix[|suffix| - 1] == digits[|digits| - 1];
  }

  lemma {:induction false} DigitRunOf(digits: string, rest: string)
    requires Digits(digits) && (rest != "" ==> !IsDigit(rest[0]))
    ensures DigitRun(digits + rest) == |digits|
    decreases |digits|
  {
    if digits == "" {
      assert digits + rest == rest;
    } else {
      assert (digits + rest)[1..] == digits[1..] + rest;
      DigitRunOf(digits[1..], rest);
    }
  }

  /** Splitting recovers how a string was spelled, so no string has two readings. */
  lemma SplitUnique(q: Spelling, v: string)
    requires Splits(q, v)
    ensures Split(v) == q
  {
    if q.point {
      var t := q.fp + q.suffix;
      assert v == q.ip + ("." + t) == (q.ip + ".") + t;
      assert v[|q.ip + "."|..] == t;
      DigitRunOf(q.ip, "." + t);
      DigitRunOf(q.fp, q.suffix);
      hide DigitRun;
    } else {
      assert v == q.ip + q.suffix;
      DigitRunOf(q.ip, q.suffix);
    }
  }

  lemma SpellEdges(q: Spelling)
    requires Splits(q, Spell(q)) && q.ip + q.fp != ""
    requires q.suffix != "" ==> !IsWhite(q.suffix[|q.suffix| - 1])
    ensures var s := Spell(q); s != "" && (IsDigit(s[0]) || s[0] == '.') && !IsWhite(s[|s| - 1])
  {
    var s := Spell(q);
    assert s[0] == (if q.ip != "" then q.ip[0] else '.');
    var num := q.ip + (if q.point then "." else "") + q.fp;
    assert s == num + q.suffix;
    assert IsDigit(num[|num| - 1]) || num[|num| - 1] == '.';
  }

  lemma SpelledEdges(plus: bool, s: string)
    requires s != "" && (IsDigit(s[0]) || s[0] == '.') && !IsWhite(s[|s| - 1])
    ensures var w := (if plus then "+" else "") + s; Trimmed(w) && StripPlus(w) == s
  {
    var w := (if plus then "+" else "") + s;
    assert w == if plus then "+" + s else s;
    assert w[|w| - 1] == s[|s| - 1];
  }

  lemma PlusRestored(value: string)
    ensures value == (if value != "" && value[0] == '+' then "+" else "") + StripPlus(value)
  {}

  lemma AcceptedSuffix(q: Spelling)
    requires Digits(q.ip) && Digits(q.fp) && SplitNanos(q).Some?
    ensures q.ip + q.fp != "" && (BinaryPower(q.suffix).Some? || DecimalExponent(q.suffix).Some?)
  {}

  lemma CompareCeils(n: nat, num: nat, den: nat, n': nat, num': nat, den': nat)
    requires den > 0 && den' > 0 && IsCeil(n, num, den) && IsCeil(n', num', den')
    ensures num * den' <= num' * den ==> n <= n'
    ensures num * den' == num' * den ==> n == n'
  {
    if num * den' <= num' * den { CeilMonotone(n, num, den, n', num', den'); }
    if num' * den <= num * den' { CeilMonotone(n', num', den', n, num, den); }
  }

  // ---------------------------------------------------------------- the theorems

  function Parts(n: Notation): Spelling
    requires Proper(n)
  {
    Spelling(n.ip, n.point, n.fp, SpellSuffix(n.suffix))
  }

  lemma WrittenIsSpelled(n: Notation)
    requires Proper(n)
    ensures Written(n) == Spelled(n.plus, Parts(n))
  {
    hide SpellSuffix;
    var plus, point := if n.plus then "+" else "", if n.point then "." else "";
    assert plus + (n.ip + point + n.fp + SpellSuffix(n.suffix)) == plus + n.ip + point + n.fp + SpellSuffix(n.suffix);
  }

  lemma WrittenParses(n: Notation)
    requires Proper(n)
    ensures QuantityNanos(Written(n)) == SplitNanos(Parts(n))
  {
    var q := Parts(n);
    if SpellSuffix(n.suffix) != "" { SuffixEdges(n.suffix); }
    WrittenIsSpelled(n);
    hide SpellSuffix, ProperSuffix, Written, SplitNanos;
    SpellEdges(q);
    SpelledEdges(n.plus, Spell(q));
    SplitUnique(q, Spell(q));
  }

  lemma Reorder(a: nat, b: nat, c: nat)
    ensures a * b * c == a * c * b
  {}

  /** The parser's own fraction of nanounits is the denoted one. */
  lemma SameFraction(n: Notation)
    requires Proper(n) && WellSpelled(Parts(n))
    ensures ExactNum(Parts(n)) == Times(Num(n), Pow(10, 9)) && ExactDen(Parts(n)) == Den(n)
  {
    hide Pow, Numeral, BinaryPower, DecimalExponent, SpellSuffix, Tens;
    SuffixReads(n.suffix);
    NanoIsPow();
    var m := Times(Numeral(n.ip), Pow(10, |n.fp|)) + Numeral(n.fp);
    hide NANO;
    Reorder(m, NANO, Factor(n.suffix));
  }

  lemma SameLimits(n: Notation)
    requires Proper(n) && WellSpelled(Parts(n))
    ensures Fits(Parts(n)) <==> Carried(n)
  {
    hide Pow, Numeral, BinaryPower, DecimalExponent, SpellSuffix, Tens;
    SuffixReads(n.suffix);
    Limits();
    NanoIsPow();
    NumeralAppend(n.ip, n.fp);
  }

  lemma RangeInUnits(num: nat, den: nat)
    ensures Times(num, Pow(10, 9)) <= MAX_NANOS * den <==> num <= (Pow(2, 63) - 1) * den
  {
    hide Pow;
    Limits();
    NanoIsPow();
    var most, nano := Pow(2, 63) - 1, Pow(10, 9);
    Reorder(most, nano, den);
    CancelFactor(num, most * den, nano);
  }

  /** A suffix the parser cannot read is an exponent beyond 32 bits, which nothing carries. */
  lemma UnreadIsNotCarried(n: Notation)
    requires Proper(n) && !WellSpelled(Parts(n))
    ensures SplitNanos(Parts(n)) == None && !Carried(n)
  {
    SuffixReads(n.suffix);
    Limits();
    hide Pow, Numeral, BinaryPower, DecimalExponent, SpellSuffix, Tens;
  }

  /** Parsing is exact on every notation: accepted precisely when the checked arithmetic carries it and
      the denoted value is at most the largest signed 64-bit number, and then the least whole number of
      billionths at or above it. */
  lemma QuantityIsExact(n: Notation)
    requires Proper(n)
    ensures Den(n) > 0
    ensures QuantityNanos(Written(n)).Some? <==> Carried(n) && InRange(n)
    ensures QuantityNanos(Written(n)).Some? ==> RoundsTo(QuantityNanos(Written(n)).value, n)
  {
    hide *;
    WrittenParses(n);
    DenPositive(n);
    if WellSpelled(Parts(n)) { ReadIsExact(n); } else { UnreadIsNotCarried(n); }
  }

  lemma ReadIsExact(n: Notation)
    requires Proper(n) && WellSpelled(Parts(n))
    ensures SplitNanos(Parts(n)).Some? <==> Carried(n) && InRange(n)
    ensures SplitNanos(Parts(n)).Some? ==> RoundsTo(SplitNanos(Parts(n)).value, n)
  {
    hide Pow, Num, Den, Carried, Parts, SplitNanos, WellSpelled, Fits, ExactNum, ExactDen, IsCeil, Times, MAX_NANOS;
    SplitExact(Parts(n));
    SameFraction(n);
    SameLimits(n);
    RangeInUnits(Num(n), Den(n));
  }

  lemma DenPositive(n: Notation)
    requires Proper(n)
    ensures Den(n) > 0
  {
    hide Tens, Pow;
    PowPositive(10, |n.fp|);
    if !n.suffix.Binary? && Tens(n.suffix) < 0 { PowPositive(10, -Tens(n.suffix)); }
    CancelFactor(0, Pow(10, |n.fp|), Divisor(n.suffix));
  }

  /** Nothing else is accepted. */
  lemma AcceptedIsWritten(value: string) returns (n: Notation)
    requires QuantityNanos(value).Some?
    ensures Proper(n) && value == Written(n)
  {
    var v := StripPlus(value);
    var plus := value != "" && value[0] == '+';
    PlusRestored(value);
    var q := Split(v);
    AcceptedSuffix(q);
    var s := ReadSuffixIsProper(q.suffix);
    hide SpellSuffix, ProperSuffix, SplitNanos;
    n := Notation(plus, q.ip, q.point, q.fp, s);
    WrittenIsSpelled(n);
  }

  /** Two accepted strings compare as the rationals they denote: equal values give equal numbers,
      larger values never smaller ones. */
  lemma SpellingsAgree(a: Notation, b: Notation)
    requires Proper(a) && Proper(b) && QuantityNanos(Written(a)).Some? && QuantityNanos(Written(b)).Some?
    ensures Num(a) * Den(b) <= Num(b) * Den(a) ==> QuantityNanos(Written(a)).value <= QuantityNanos(Written(b)).value
    ensures Num(a) * Den(b) == Num(b) * Den(a) ==> QuantityNanos(Written(a)) == QuantityNanos(Written(b))
  {
    hide Num, Den, Written, QuantityNanos, IsCeil, Pow, Carried, Proper;
    QuantityIsExact(a);
    QuantityIsExact(b);
    PowPositive(10, 9);
    var nano := Pow(10, 9);
    Reorder(Num(a), nano, Den(b));
    Reorder(Num(b), nano, Den(a));
    CancelFactor(Num(a) * Den(b), Num(b) * Den(a), nano);
    CompareCeils(QuantityNanos(Written(a)).value, Times(Num(a), nano), Den(a),
                 QuantityNanos(Written(b)).value, Times(Num(b), nano), Den(b));
  }
}
