/** Exact decimal charges: a reported number as a plain decimal, and as whole
    micro-dollars rounded up. */
module Decimals {
  import opened Common
  import opened Digits

  // ----- JSON numbers -------------------------------------------------------

  /** Digits before and after the point, and a power of ten. */
  datatype Parts = Parts(whole: string, fraction: string, exponent: int) {
    ghost predicate Valid() {
      AllDigits(whole) && AllDigits(fraction) && whole + fraction != ""
    }

    ghost function Value(): real
      requires Valid()
    {
      Scaled(NatOf(whole + fraction), exponent - |fraction|)
    }
  }

  datatype Sign = Unsigned | Plus | Minus {
    function Text(): string {
      match this
      case Unsigned => ""
      case Plus => "+"
      case Minus => "-"
    }
  }

  datatype Exponent = Exponent(upper: bool, sign: Sign, digits: string) {
    function Text(): string {
      (if upper then "E" else "e") + sign.Text() + digits
    }

    ghost predicate Valid() {
      digits != "" && AllDigits(digits)
    }

    ghost function Value(): int
      requires Valid()
    {
      if sign == Minus then 0 - NatOf(digits) as int else NatOf(digits)
    }
  }

  /** A non-negative JSON number (section 6 of RFC 8259). */
  datatype JsonNumber = JsonNumber(whole: string, fraction: Option<string>, exponent: Option<Exponent>) {
    ghost predicate Valid() {
      && whole != "" && AllDigits(whole) && (whole[0] == '0' ==> whole == "0")
      && (fraction.Some? ==> fraction.value != "" && AllDigits(fraction.value))
      && (exponent.Some? ==> exponent.value.Valid())
    }

    /** What the conversions read: leading zeros, and a point with digits on one side only, are taken too. */
    ghost predicate Numeral() {
      && AllDigits(whole) && AllDigits(FractionDigits()) && whole + FractionDigits() != ""
      && (exponent.Some? ==> exponent.value.Valid())
    }

    function Mantissa(): string {
      if fraction.Some? then whole + "." + fraction.value else whole
    }

    function Text(): string {
      if exponent.Some? then Mantissa() + exponent.value.Text() else Mantissa()
    }

    function FractionDigits(): string {
      if fraction.Some? then fraction.value else ""
    }

    ghost function ExponentValue(): int
      requires Numeral()
    {
      if exponent == None then 0 else exponent.value.Value()
    }

    ghost function AsParts(): (p: Parts)
      requires Numeral()
      ensures p.Valid()
    {
      Parts(whole, FractionDigits(), ExponentValue())
    }

    ghost function Value(): real
      requires Numeral()
    {
      AsParts().Value()
    }
  }

  /** `n` times ten to the power `s`. */
  ghost function Scaled(n: nat, s: int): real
    decreases if s < 0 then -s else s
  {
    if s == 0 then n as real else if s > 0 then 10.0 * Scaled(n, s - 1) else Scaled(n, s + 1) / 10.0
  }

  lemma {:induction false} ScaledTen(n: nat, s: int)
    ensures Scaled(10 * n, s) == 10.0 * Scaled(n, s) == Scaled(n, s + 1)
    decreases if s < 0 then -s else s
  {
    if s > 0 {
      ScaledTen(n, s - 1);
    } else if s < 0 {
      ScaledTen(n, s + 1);
    }
  }

  /** Appending `k` zeros and moving the point by `k` changes nothing. */
  lemma {:induction false} Rescale(n: nat, s: int, k: nat)
    ensures Scaled(n * Pow10(k), s - k) == Scaled(n, s)
  {
    if k == 0 {
      assert n * Pow10(0) == n;
    } else {
      Rescale(n, s, k - 1);
      assert n * Pow10(k) == 10 * (n * Pow10(k - 1));
      ScaledTen(n * Pow10(k - 1), s - k);
    }
  }

  lemma {:induction false} ScaledMonotone(n: nat, n': nat, s: int)
    requires n < n'
    ensures Scaled(n, s) < Scaled(n', s)
    decreases if s < 0 then -s else s
  {
    if s > 0 {
      ScaledMonotone(n, n', s - 1);
    } else if s < 0 {
      ScaledMonotone(n, n', s + 1);
    }
  }

  /** Comparing two scaled numbers is comparing integers at the finer scale. */
  lemma CompareScaled(n: nat, s: int, n': nat, s': int)
    requires s >= s'
    ensures Scaled(n, s) == Scaled(n', s') <==> n * Pow10(s - s') == n'
    ensures Scaled(n, s) < Scaled(n', s') <==> n * Pow10(s - s') < n'
  {
    Rescale(n, s, s - s');
    var fine := n * Pow10(s - s');
    if fine < n' {
      ScaledMonotone(fine, n', s');
    } else if n' < fine {
      ScaledMonotone(n', fine, s');
    }
  }

  // ----- text ---------------------------------------------------------------

  /** The White_Space characters that `trim` removes. */
  predicate IsSpace(c: char) {
    || '\t' <= c <= '\r' || c == ' ' || c == '\U{85}' || c == '\U{A0}' || c == '\U{1680}'
    || '\U{2000}' <= c <= '\U{200A}' || c == '\U{2028}' || c == '\U{2029}' || c == '\U{202F}'
    || c == '\U{205F}' || c == '\U{3000}'
  }

  function Trim(s: string): string {
    if s == "" then s
    else if IsSpace(s[0]) then Trim(s[1..])
    else if IsSpace(s[|s| - 1]) then Trim(s[..|s| - 1])
    else s
  }

  /** Where the first exponent marker stands, or the length. */
  function MarkerAt(s: string): (i: nat)
    ensures i <= |s|
  {
    if s == "" || s[0] == 'e' || s[0] == 'E' then 0 else 1 + MarkerAt(s[1..])
  }

  function PointAt(s: string): (i: nat)
    ensures i <= |s|
  {
    if s == "" || s[0] == '.' then 0 else 1 + PointAt(s[1..])
  }

  /** A signed integer within `low..=high`. */
  function ParseInt(s: string, low: int, high: int): Option<int> {
    if s == "" then None
    else
      var negative := s[0] == '-';
      var digits := if negative || s[0] == '+' then s[1..] else s;
      if digits == "" || !AllDigits(digits) then None
      else
        var n := if negative then 0 - NatOf(digits) as int else NatOf(digits);
        if low <= n <= high then Some(n) else None
  }

  function TrimZerosLeft(s: string): (r: string)
    ensures |r| <= |s|
  {
    if s != "" && s[0] == '0' then TrimZerosLeft(s[1..]) else s
  }

  function TrimZerosRight(s: string): (r: string)
    ensures |r| <= |s|
  {
    if s != "" && s[|s| - 1] == '0' then TrimZerosRight(s[..|s| - 1]) else s
  }

  function Zeros(n: nat): (s: string)
    ensures |s| == n && forall i :: 0 <= i < n ==> s[i] == '0'
  {
    if n == 0 then "" else Zeros(n - 1) + "0"
  }

  /** Mantissa digits before and after the point, and the exponent. */
  function Split(text: string, low: int, high: int): Option<Parts> {
    var at := MarkerAt(text);
    var exponent := if at < |text| then ParseInt(text[at + 1..], low, high) else Some(0);
    if exponent == None then None
    else
      var mantissa := text[..at];
      var point := PointAt(mantissa);
      var fraction := if point < |mantissa| then mantissa[point + 1..] else "";
      Some(Parts(mantissa[..point], fraction, exponent.value))
  }

  // ----- the two conversions ------------------------------------------------

  const MAX_EXPONENT := 64
  const MAX_WHOLE := 20
  const MAX_FRACTION := 30

  /** Digits before and after the point once the exponent is applied. */
  function Shift(p: Parts): (string, string) {
    var digits := p.whole + p.fraction;
    var point := |p.whole| + p.exponent;
    if point <= 0 then ("0", Zeros(-point) + digits)
    else if point >= |digits| then (digits + Zeros(point - |digits|), "")
    else (digits[..point], digits[point..])
  }

  function PlainDecimal(text: string): Option<string> {
    var split := Split(Trim(text), I64_MIN, I64_MAX);
    if split == None then None
    else
      var p := split.value;
      if p.whole == "" || !AllDigits(p.whole) || !AllDigits(p.fraction)
         || p.exponent > MAX_EXPONENT || p.exponent < -MAX_EXPONENT then None
      else PlainOf(p)
  }

  /** The absolute value of the least 64-bit exponent overflows, so on this text there is no answer at all. */
  predicate PlainDecimalPanics(text: string) {
    var split := Split(Trim(text), I64_MIN, I64_MAX);
    split.Some? && split.value.whole != "" && AllDigits(split.value.whole) && AllDigits(split.value.fraction)
    && split.value.exponent == I64_MIN
  }

  function PlainOf(p: Parts): Option<string> {
    var (integer, fraction) := Shift(p);
    var integer' := if TrimZerosLeft(integer) == "" then "0" else TrimZerosLeft(integer);
    var fraction' := TrimZerosRight(fraction);
    if |integer'| > MAX_WHOLE || |fraction'| > MAX_FRACTION then None
    else if fraction' == "" then Some(integer')
    else Some(integer' + "." + fraction')
  }

  function MicroUsdCeiling(text: string): Option<nat> {
    var trimmed := Trim(text);
    if trimmed == "" || trimmed[0] == '-' then None
    else
      var split := Split(trimmed, I32_MIN, I32_MAX);
      if split == None then None
      else
        var p := split.value;
        if (p.whole == "" && p.fraction == "") || !AllDigits(p.whole) || !AllDigits(p.fraction) then None
        else MicroOf(p)
  }

  function MicroOf(p: Parts): Option<nat>
    requires AllDigits(p.whole) && AllDigits(p.fraction)
  {
    TrimmedDigits(p.whole + p.fraction);
    MicroOfDigits(TrimZerosLeft(p.whole + p.fraction), p.exponent - |p.fraction| + 6)
  }

  /** `digits` times ten to the power `shift`, rounded up. */
  function MicroOfDigits(digits: string, shift: int): Option<nat>
    requires AllDigits(digits)
  {
    if digits == "" then Some(0)
    else if shift >= 0 then
      if |digits| + shift > 18 then None else Checked(NatOf(digits) * Pow10(shift))
    else if -shift >= |digits| then Some(1)
    else
      var cut := |digits| + shift;
      if cut > 18 then None else Checked(NatOf(digits[..cut]) + if SomeNonzero(digits[cut..]) then 1 else 0)
  }

  predicate SomeNonzero(s: string) {
    exists i :: 0 <= i < |s| && s[i] != '0'
  }

  /** The checked `u64` result. */
  function Checked(n: nat): Option<nat> {
    if n <= U64_MAX then Some(n) else None
  }

  /** Dropping leading zeros leaves the number, and no leading zero. */
  lemma {:induction false} TrimmedDigits(s: string)
    requires AllDigits(s)
    ensures AllDigits(TrimZerosLeft(s)) && NatOf(TrimZerosLeft(s)) == NatOf(s)
    ensures TrimZerosLeft(s) == "" || TrimZerosLeft(s)[0] != '0'
  {
    if s != "" && s[0] == '0' {
      TrimmedDigits(s[1..]);
      assert s == "0" + s[1..] && NatOf("0") == 0 by {
        assert "0"[..0] == "";
      }
      NatOfAppend("0", s[1..]);
    }
  }
}
