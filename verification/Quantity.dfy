/**
 Kubernetes resource quantities, parsed into nanounits with 128-bit checked arithmetic.
 */
module Quantity {
  import opened Common
  import opened Text
  import opened Decimal

  const U128: nat := 0x1_0000_0000_0000_0000_0000_0000_0000_0000
  const U32: nat := 0x1_0000_0000
  const I32_MAX: int := 0x7FFF_FFFF
  const I32_MIN: int := -0x8000_0000
  const NANO: nat := 1_000_000_000
  const MAX_NANOS: nat := 0x7FFF_FFFF_FFFF_FFFF * NANO

  function Checked(n: nat): Option<nat> { if n < U128 then Some(n) else None }

  function CeilDiv(n: nat, d: nat): Option<nat> {
    if d == 0 then None else Checked(n / d + if n % d != 0 then 1 else 0)
  }

  // ---------------------------------------------------------------- suffixes

  function BinaryPower(suffix: string): Option<nat> {
    if suffix == "Ki" then Some(1) else if suffix == "Mi" then Some(2) else if suffix == "Gi" then Some(3)
    else if suffix == "Ti" then Some(4) else if suffix == "Pi" then Some(5) else if suffix == "Ei" then Some(6)
    else None
  }

  /** Rust's `str::parse::<i32>`. */
  function ParseI32(s: string): Option<int> {
    var negative := s != "" && s[0] == '-';
    var body := if s != "" && (s[0] == '-' || s[0] == '+') then s[1..] else s;
    if body == "" || !Digits(body) then None
    else
      var n: int := if negative then -(Numeral(body) as int) else Numeral(body);
      if I32_MIN <= n <= I32_MAX then Some(n) else None
  }

  function DecimalExponent(suffix: string): Option<int> {
    if suffix == "" then Some(0) else if suffix == "n" then Some(-9) else if suffix == "u" then Some(-6)
    else if suffix == "m" then Some(-3) else if suffix == "k" then Some(3) else if suffix == "M" then Some(6)
    else if suffix == "G" then Some(9) else if suffix == "T" then Some(12) else if suffix == "P" then Some(15)
    else if suffix == "E" then Some(18)
    else if suffix[0] == 'e' || (suffix[0] == 'E' && |suffix| > 1) then ParseI32(suffix[1..])
    else None
  }

  // ---------------------------------------------------------------- scaling

  function BinaryNanos(m: nat, f: nat, power: nat): Option<nat> {
    var n := m * Pow(1024, power);
    if n >= U128 || n * NANO >= U128 || Pow(10, f) >= U128 then None else CeilDiv(n * NANO, Pow(10, f))
  }

  function DecimalNanos(m: nat, f: nat, e: int): Option<nat> {
    if e + 9 > I32_MAX || f > I32_MAX || e + 9 - f < I32_MIN then None
    else
      var scale := e + 9 - f;
      if scale >= 0 then
        if Pow(10, scale) >= U128 then None else Checked(m * Pow(10, scale))
      else
        if Pow(10, -scale) >= U128 then None else CeilDiv(m, Pow(10, -scale))
  }

  function ScaleToNanos(m: nat, f: nat, suffix: string): Option<nat> {
    var nanos := match BinaryPower(suffix)
      case Some(power) => BinaryNanos(m, f, power)
      case None =>
        match DecimalExponent(suffix)
        case Some(e) => DecimalNanos(m, f, e)
        case None => None;
    if nanos.Some? && nanos.value <= MAX_NANOS then nanos else None
  }

  // ---------------------------------------------------------------- the parser

  function StripPlus(s: string): string { if s != "" && s[0] == '+' then s[1..] else s }

  function DigitRun(s: string): (n: nat)
    ensures n <= |s| && Digits(s[..n])
    ensures n < |s| ==> !IsDigit(s[n])
  {
    if s == "" || !IsDigit(s[0]) then 0 else 1 + DigitRun(s[1..])
  }

  /** A quantity without its sign: integer digits, perhaps a point and fraction digits, a suffix. */
  datatype Spelling = Spelling(ip: string, point: bool, fp: string, suffix: string)

  function Spell(q: Spelling): string { q.ip + (if q.point then "." else "") + q.fp + q.suffix }

  /** Digits as far as they go, then a point and digits as far as they go. */
  predicate Splits(q: Spelling, v: string) {
    && Digits(q.ip) && Digits(q.fp) && (!q.point ==> q.fp == "")
    && (q.suffix != "" ==> !IsDigit(q.suffix[0]) && (q.suffix[0] == '.' ==> q.point))
    && v == Spell(q)
  }

  function Split(v: string): (q: Spelling)
    ensures Splits(q, v)
  {
    var a := DigitRun(v);
    if a < |v| && v[a] == '.' then
      var t := v[a + 1..];
      assert v == v[..a] + "." + t;
      Spelling(v[..a], true, t[..DigitRun(t)], t[DigitRun(t)..])
    else Spelling(v[..a], false, "", v[a..])
  }

  /** All digits read as one number, the point ignored. */
  function Mantissa(q: Spelling): nat
    requires Digits(q.ip) && Digits(q.fp)
  {
    NumeralAppend(q.ip, q.fp);
    Numeral(q.ip + q.fp)
  }

  function SplitNanos(q: Spelling): Option<nat>
    requires Digits(q.ip) && Digits(q.fp)
  {
    if q.ip + q.fp == "" || Mantissa(q) >= U128 || |q.fp| >= U32 then None
    else ScaleToNanos(Mantissa(q), |q.fp|, q.suffix)
  }

  /** What the parser returns for a string. */
  function QuantityNanos(value: string): (r: Option<nat>)
    ensures r.Some? ==> r.value <= MAX_NANOS
  {
    var v := StripPlus(value);
    if !Trimmed(value) || v == "" || v[0] == '-' then None else SplitNanos(Split(v))
  }

  /** The loop's state: the digits up to `index` read as one number. */
  ghost predicate Reading(q: Spelling, index: int, mantissa: int, fractionalDigits: int, sawDigit: bool,
      sawDecimal: bool)
    requires Digits(q.ip) && Digits(q.fp)
  {
    && 0 <= index && Progress(q, index, sawDecimal)
    && mantissa == Numeral(Consumed(q, index, sawDecimal)) < U128
    && (sawDigit <==> Consumed(q, index, sawDecimal) != "")
    && fractionalDigits == (if sawDecimal then index - |q.ip| - 1 else 0) < U32
  }

  predicate TooLong(q: Spelling)
    requires Digits(q.ip) && Digits(q.fp)
  {
    Mantissa(q) >= U128 || |q.fp| >= U32
  }

  /** The parser's loop over mantissa digits, as the operator runs it; `fits` is false when a checked
      128-bit or 32-bit operation gives up. */
  method ScanMantissa(v: string) returns (fits: bool, index: int, mantissa: int, fractionalDigits: int, sawDigit: bool)
    ensures fits <==> !TooLong(Split(v))
    ensures fits ==> mantissa == Mantissa(Split(v)) && fractionalDigits == |Split(v).fp|
    ensures fits ==> 0 <= index <= |v| && v[index..] == Split(v).suffix
    ensures fits ==> (sawDigit <==> Split(v).ip + Split(v).fp != "")
  {
    ghost var q := Split(v);
    index, mantissa, fractionalDigits, sawDigit, fits := 0, 0, 0, false, true;
    var sawDecimal := false;
    while index < |v|
      invariant index <= |v| && fits && Reading(q, index, mantissa, fractionalDigits, sawDigit, sawDecimal)
    {
      if IsDigit(v[index]) {
        ReadDigit(q, v, index, mantissa, fractionalDigits, sawDigit, sawDecimal);
        sawDigit := true;
        mantissa := mantissa * 10 + DigitValue(v[index]);
        fractionalDigits := if sawDecimal then fractionalDigits + 1 else fractionalDigits;
        if mantissa >= U128 || fractionalDigits >= U32 {
          fits := false;
          return;
        }
      } else if v[index] == '.' && !sawDecimal {
        ReadPoint(q, v, index, mantissa, fractionalDigits, sawDigit);
        sawDecimal := true;
      } else {
        break;
      }
      index := index + 1;
    }
    ReadAll(q, v, index, mantissa, fractionalDigits, sawDigit, sawDecimal);
  }

  method ParseQuantityNanos(value: string) returns (r: Option<nat>)
    ensures r == QuantityNanos(value)
  {
    if !Trimmed(value) { return None; }
    var v := StripPlus(value);
    if v == "" || v[0] == '-' { return None; }
    var fits, index, mantissa, fractionalDigits, sawDigit := ScanMantissa(v);
    if !fits || !sawDigit { return None; }
    r := ScaleToNanos(mantissa, fractionalDigits, v[index..]);
  }

  /** The loop is inside the numeral: before the point, or between the point and the suffix. */
  predicate Progress(q: Spelling, index: nat, sawDecimal: bool) {
    if sawDecimal then q.point && |q.ip| + 1 <= index <= |q.ip| + 1 + |q.fp| else index <= |q.ip|
  }

  /** The mantissa digits read so far. */
  function Consumed(q: Spelling, index: nat, sawDecimal: bool): (s: string)
    requires Digits(q.ip) && Digits(q.fp) && Progress(q, index, sawDecimal)
    ensures Digits(s)
  {
    if sawDecimal then q.ip + q.fp[..index - |q.ip| - 1] else q.ip[..index]
  }

  lemma ConsumeDigit(q: Spelling, v: string, index: nat, sawDecimal: bool)
    requires Splits(q, v) && index < |v| && IsDigit(v[index]) && Progress(q, index, sawDecimal)
    ensures Progress(q, index + 1, sawDecimal)
    ensures Consumed(q, index + 1, sawDecimal) == Consumed(q, index, sawDecimal) + [v[index]]
  {
    if sawDecimal {
      assert v == (q.ip + ".") + (q.fp + q.suffix);
      assert v[index] == (q.fp + q.suffix)[index - |q.ip| - 1];
    } else {
      assert index < |q.ip| && v[index] == q.ip[index];
    }
  }

  lemma NumeralPush(s: string, c: char)
    requires Digits(s) && IsDigit(c)
    ensures Digits(s + [c]) && Numeral(s + [c]) == Numeral(s) * 10 + DigitValue(c)
  {
    assert (s + [c])[..|s|] == s;
  }

  lemma ReadDigit(q: Spelling, v: string, index: int, mantissa: int, fractionalDigits: int, sawDigit: bool,
      sawDecimal: bool)
    requires Splits(q, v) && Reading(q, index, mantissa, fractionalDigits, sawDigit, sawDecimal)
    requires index < |v| && IsDigit(v[index])
    ensures var m := mantissa * 10 + DigitValue(v[index]);
            var f := if sawDecimal then fractionalDigits + 1 else fractionalDigits;
            if m >= U128 || f >= U32 then TooLong(q) else Reading(q, index + 1, m, f, true, sawDecimal)
  {
    ConsumeDigit(q, v, index, sawDecimal);
    NumeralPush(Consumed(q, index, sawDecimal), v[index]);
    MantissaOnlyGrows(q, index + 1, sawDecimal);
  }

  lemma ReadPoint(q: Spelling, v: string, index: int, mantissa: int, fractionalDigits: int, sawDigit: bool)
    requires Splits(q, v) && Reading(q, index, mantissa, fractionalDigits, sawDigit, false)
    requires index < |v| && v[index] == '.'
    ensures Reading(q, index + 1, mantissa, fractionalDigits, sawDigit, true)
  {
    assert forall i :: 0 <= i < |q.ip| ==> v[i] == q.ip[i];
    assert !q.point ==> v == q.ip + q.suffix;
    assert Consumed(q, index + 1, true) == Consumed(q, index, false);
  }

  lemma ReadAll(q: Spelling, v: string, index: int, mantissa: int, fractionalDigits: int, sawDigit: bool,
      sawDecimal: bool)
    requires Splits(q, v) && Reading(q, index, mantissa, fractionalDigits, sawDigit, sawDecimal) && index <= |v|
    requires index < |v| ==> !IsDigit(v[index]) && (v[index] == '.' ==> sawDecimal)
    ensures mantissa == Mantissa(q) && fractionalDigits == |q.fp| && !TooLong(q)
    ensures v[index..] == q.suffix
    ensures sawDigit <==> q.ip + q.fp != ""
  {
    ReadToTheEnd(q, v, index, sawDecimal);
    assert Consumed(q, index, sawDecimal) == q.ip + q.fp;
  }

  lemma ReadToTheEnd(q: Spelling, v: string, index: nat, sawDecimal: bool)
    requires Splits(q, v) && Progress(q, index, sawDecimal) && index <= |v|
    requires index < |v| ==> !IsDigit(v[index]) && (v[index] == '.' ==> sawDecimal)
    ensures sawDecimal == q.point && index == |v| - |q.suffix| && v[index..] == q.suffix
  {
    if sawDecimal {
      var tail := q.fp + q.suffix;
      assert v == (q.ip + ".") + tail;
      assert forall i :: |q.ip| + 1 <= i < |v| ==> v[i] == tail[i - |q.ip| - 1];
    } else {
      assert forall i :: 0 <= i < |q.ip| ==> v[i] == q.ip[i];
      assert q.point ==> v == (q.ip + ".") + (q.fp + q.suffix);
    }
  }

  lemma MantissaOnlyGrows(q: Spelling, index: nat, sawDecimal: bool)
    requires Digits(q.ip) && Digits(q.fp) && Progress(q, index, sawDecimal)
    ensures Numeral(Consumed(q, index, sawDecimal)) <= Mantissa(q)
  {
    var s := Consumed(q, index, sawDecimal);
    var whole := q.ip + q.fp;
    assert whole == s + whole[|s|..];
    NumeralPrefix(s, whole[|s|..]);
  }
}
