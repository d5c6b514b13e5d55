/** What the decimal conversions preserve. */
module DecimalLaws {
  import opened Common
  import opened Digits
  import opened Decimals

  // ----- reading a JSON number ----------------------------------------------

  lemma {:induction false} TrimKeeps(s: string)
    requires s != "" && !IsSpace(s[0]) && !IsSpace(s[|s| - 1])
    ensures Trim(s) == s
  {
  }

  lemma TextEnds(j: JsonNumber)
    requires j.Numeral()
    ensures var t := j.Text(); t != "" && (IsDigit(t[0]) || t[0] == '.') && (IsDigit(t[|t| - 1]) || t[|t| - 1] == '.')
  {
    var m := j.Mantissa();
    assert m[0] == if j.whole != "" then j.whole[0] else '.';
    if j.exponent.Some? {
      var x := j.exponent.value;
      var t := j.Text();
      assert t[|t| - 1] == x.digits[|x.digits| - 1];
    }
  }

  lemma TextTrimmed(j: JsonNumber)
    requires j.Numeral()
    ensures Trim(j.Text()) == j.Text() && j.Text() != "" && j.Text()[0] != '-'
  {
    TextEnds(j);
    TrimKeeps(j.Text());
  }

  lemma {:induction false} MarkerFound(s: string, i: nat)
    requires i <= |s| && (forall k :: 0 <= k < i ==> s[k] != 'e' && s[k] != 'E')
    requires i == |s| || s[i] == 'e' || s[i] == 'E'
    ensures MarkerAt(s) == i
  {
    if i > 0 {
      MarkerFound(s[1..], i - 1);
    }
  }

  lemma {:induction false} PointFound(s: string, i: nat)
    requires i <= |s| && (forall k :: 0 <= k < i ==> s[k] != '.') && (i == |s| || s[i] == '.')
    ensures PointAt(s) == i
  {
    if i > 0 {
      PointFound(s[1..], i - 1);
    }
  }

  lemma SignedRead(sign: Sign, digits: string, low: int, high: int)
    requires digits != "" && AllDigits(digits)
    ensures var n := if sign == Minus then 0 - NatOf(digits) as int else NatOf(digits);
      ParseInt(sign.Text() + digits, low, high) == if low <= n <= high then Some(n) else None
  {
    var s := sign.Text() + digits;
    if sign == Unsigned {
      assert s == digits && IsDigit(s[0]);
    } else {
      assert s[1..] == digits;
    }
  }

  lemma ExponentRead(x: Exponent, low: int, high: int)
    requires x.Valid()
    ensures x.Text() != "" && (x.Text()[0] == 'e' || x.Text()[0] == 'E')
    ensures ParseInt(x.Text()[1..], low, high) == if low <= x.Value() <= high then Some(x.Value()) else None
  {
    assert x.Text()[1..] == x.sign.Text() + x.digits;
    SignedRead(x.sign, x.digits, low, high);
  }

  lemma MantissaSplits(j: JsonNumber)
    requires j.Numeral()
    ensures var m := j.Mantissa();
      && PointAt(m) == |j.whole| && m[..|j.whole|] == j.whole
      && (if |j.whole| < |m| then m[|j.whole| + 1..] else "") == j.FractionDigits()
      && forall k :: 0 <= k < |m| ==> m[k] != 'e' && m[k] != 'E'
  {
    PointFound(j.Mantissa(), |j.whole|);
  }

  lemma TextSplits(m: string, rest: string)
    requires forall k :: 0 <= k < |m| ==> m[k] != 'e' && m[k] != 'E'
    requires rest == "" || rest[0] == 'e' || rest[0] == 'E'
    ensures MarkerAt(m + rest) == |m| && (m + rest)[..|m|] == m
    ensures rest != "" ==> (m + rest)[|m| + 1..] == rest[1..]
  {
    MarkerFound(m + rest, |m|);
  }

  lemma SplitFrom(t: string, m: string, w: string, f: string, low: int, high: int)
    requires MarkerAt(t) == |m| <= |t| && t[..|m|] == m && PointAt(m) == |w| <= |m| && m[..|w|] == w
    requires (if |w| < |m| then m[|w| + 1..] else "") == f
    ensures Split(t, low, high) ==
      var e := if |m| < |t| then ParseInt(t[|m| + 1..], low, high) else Some(0);
      if e == None then None else Some(Parts(w, f, e.value))
  {
  }

  lemma SplitJoined(m: string, rest: string, w: string, f: string, low: int, high: int)
    requires forall k :: 0 <= k < |m| ==> m[k] != 'e' && m[k] != 'E'
    requires rest == "" || rest[0] == 'e' || rest[0] == 'E'
    requires PointAt(m) == |w| <= |m| && m[..|w|] == w && (if |w| < |m| then m[|w| + 1..] else "") == f
    ensures Split(m + rest, low, high) ==
      var e := if rest != "" then ParseInt(rest[1..], low, high) else Some(0);
      if e == None then None else Some(Parts(w, f, e.value))
  {
    TextSplits(m, rest);
    SplitFrom(m + rest, m, w, f, low, high);
  }

  function RestOf(j: JsonNumber): string {
    if j.exponent.Some? then j.exponent.value.Text() else ""
  }

  lemma RestRead(j: JsonNumber, low: int, high: int)
    requires j.Numeral() && low <= 0 <= high
    ensures RestOf(j) == "" || RestOf(j)[0] == 'e' || RestOf(j)[0] == 'E'
    ensures (if RestOf(j) != "" then ParseInt(RestOf(j)[1..], low, high) else Some(0)) ==
      if low <= j.ExponentValue() <= high then Some(j.ExponentValue()) else None
  {
    if j.exponent.Some? {
      ExponentRead(j.exponent.value, low, high);
    }
  }

  /** Splitting a JSON number's text finds its parts, and refuses exactly an
      exponent outside the range. */
  lemma SplitReads(j: JsonNumber, low: int, high: int)
    requires j.Numeral() && low <= 0 <= high
    ensures Split(j.Text(), low, high) ==
      if low <= j.ExponentValue() <= high then Some(j.AsParts()) else None
  {
    MantissaSplits(j);
    RestRead(j, low, high);
    TextOf(j);
    SplitJoined(j.Mantissa(), RestOf(j), j.whole, j.FractionDigits(), low, high);
  }

  lemma TextOf(j: JsonNumber)
    ensures j.Text() == j.Mantissa() + RestOf(j)
  {
  }

  lemma PlainDecimalOfText(j: JsonNumber)
    requires j.Numeral()
    ensures PlainDecimal(j.Text()) ==
      if j.whole != "" && -MAX_EXPONENT <= j.ExponentValue() <= MAX_EXPONENT then PlainOf(j.AsParts()) else None
  {
    TextTrimmed(j);
    SplitReads(j, I64_MIN, I64_MAX);
  }

  /** The conversion fails outright on exactly one exponent; everywhere else it answers. */
  lemma PlainDecimalPanicsIff(j: JsonNumber)
    requires j.Numeral()
    ensures PlainDecimalPanics(j.Text()) <==> j.whole != "" && j.ExponentValue() == I64_MIN
  {
    TextTrimmed(j);
    SplitReads(j, I64_MIN, I64_MAX);
  }

  lemma MicroOfText(j: JsonNumber)
    requires j.Numeral()
    ensures MicroUsdCeiling(j.Text()) == if I32_MIN <= j.ExponentValue() <= I32_MAX then MicroOf(j.AsParts()) else None
  {
    TextTrimmed(j);
    SplitReads(j, I32_MIN, I32_MAX);
  }

  // ----- any text ---------------------------------------------------------------

  predicate AllSpace(s: string) {
    forall i :: 0 <= i < |s| ==> IsSpace(s[i])
  }

  lemma {:induction false} TrimPadded(a: string, t: string, b: string)
    requires AllSpace(a) && AllSpace(b) && t != "" && !IsSpace(t[0]) && !IsSpace(t[|t| - 1])
    ensures Trim(a + t + b) == t
    decreases |a| + |b|
  {
    var s := a + t + b;
    if a != "" {
      assert s[0] == a[0] && s[1..] == a[1..] + t + b;
      TrimPadded(a[1..], t, b);
    } else if b != "" {
      assert s[0] == t[0] && s[|s| - 1] == b[|b| - 1] && s[..|s| - 1] == a + t + b[..|b| - 1];
      TrimPadded(a, t, b[..|b| - 1]);
    } else {
      assert s == t;
    }
  }

  lemma PadLeft(s: string, a: string, t: string, b: string)
    requires s != "" && s[1..] == a + t + b
    ensures s == [s[0]] + a + t + b
  {
  }

  lemma PadRight(s: string, a: string, t: string, b: string)
    requires s != "" && s[..|s| - 1] == a + t + b
    ensures s == a + t + (b + [s[|s| - 1]])
  {
  }

  lemma {:induction false} TrimCuts(s: string) returns (a: string, b: string)
    ensures AllSpace(a) && AllSpace(b) && s == a + Trim(s) + b
  {
    a, b := "", "";
    if s != "" && IsSpace(s[0]) {
      a, b := TrimCuts(s[1..]);
      PadLeft(s, a, Trim(s), b);
      a := [s[0]] + a;
    } else if s != "" && IsSpace(s[|s| - 1]) {
      a, b := TrimCuts(s[..|s| - 1]);
      PadRight(s, a, Trim(s), b);
      b := b + [s[|s| - 1]];
    } else {
      assert s == a + s + b;
    }
  }

  /** The text of a numeral, with white space around it. */
  ghost predicate Spells(text: string, a: string, j: JsonNumber, b: string) {
    AllSpace(a) && AllSpace(b) && j.Numeral() && text == a + j.Text() + b
  }

  /** White space around a number changes neither conversion. */
  lemma PaddingIgnored(text: string, a: string, j: JsonNumber, b: string)
    requires Spells(text, a, j, b)
    ensures PlainDecimal(text) == PlainDecimal(j.Text()) && MicroUsdCeiling(text) == MicroUsdCeiling(j.Text())
  {
    TextEnds(j);
    TextTrimmed(j);
    TrimPadded(a, j.Text(), b);
  }

  lemma {:induction false} MarkerFirst(s: string)
    ensures MarkerAt(s) < |s| ==> s[MarkerAt(s)] == 'e' || s[MarkerAt(s)] == 'E'
  {
    if s != "" {
      MarkerFirst(s[1..]);
    }
  }

  lemma {:induction false} PointFirst(s: string)
    ensures PointAt(s) < |s| ==> s[PointAt(s)] == '.'
  {
    if s != "" {
      PointFirst(s[1..]);
    }
  }

  /** An integer that was read is a sign and digits. */
  lemma IntegerText(s: string, low: int, high: int) returns (sign: Sign, digits: string)
    requires ParseInt(s, low, high).Some?
    ensures s == sign.Text() + digits && digits != "" && AllDigits(digits)
  {
    if s[0] == '-' {
      sign, digits := Minus, s[1..];
    } else if s[0] == '+' {
      sign, digits := Plus, s[1..];
    } else {
      sign, digits := Unsigned, s;
    }
  }

  lemma SpelledExponent(t: string, x: Exponent)
    requires t != "" && t[0] == (if x.upper then 'E' else 'e') && t[1..] == x.sign.Text() + x.digits
    ensures x.Text() == t
  {
    assert t == [t[0]] + t[1..];
    JoinAssociates([t[0]], x.sign.Text(), x.digits);
  }

  lemma ExponentText(t: string, low: int, high: int) returns (x: Exponent)
    requires t != "" && (t[0] == 'e' || t[0] == 'E') && ParseInt(t[1..], low, high).Some?
    ensures x.Valid() && x.Text() == t
  {
    var sign, digits := IntegerText(t[1..], low, high);
    x := Exponent(t[0] == 'E', sign, digits);
    SpelledExponent(t, x);
  }

  /** Up to the marker, text that splits is the digits of its parts. */
  lemma MantissaText(t: string, low: int, high: int, p: Parts) returns (fraction: Option<string>)
    requires Split(t, low, high) == Some(p)
    ensures p.fraction == if fraction.Some? then fraction.value else ""
    ensures t[..MarkerAt(t)] == if fraction.Some? then p.whole + "." + fraction.value else p.whole
  {
    var m := t[..MarkerAt(t)];
    var i := PointAt(m);
    PointFirst(m);
    fraction := if i < |m| then Some(m[i + 1..]) else None;
    assert i < |m| ==> m == m[..i] + [m[i]] + m[i + 1..];
  }

  /** From the marker on, text that splits is an exponent. */
  lemma RestText(t: string, low: int, high: int) returns (exponent: Option<Exponent>)
    requires Split(t, low, high).Some?
    ensures exponent.Some? ==> exponent.value.Valid()
    ensures t[MarkerAt(t)..] == if exponent.Some? then exponent.value.Text() else ""
  {
    var at := MarkerAt(t);
    exponent := None;
    if at < |t| {
      MarkerFirst(t);
      assert t[at..][1..] == t[at + 1..];
      var x := ExponentText(t[at..], low, high);
      exponent := Some(x);
    }
  }

  lemma FromParts(t: string, at: nat, p: Parts, fraction: Option<string>, exponent: Option<Exponent>)
    requires p.Valid() && p.fraction == (if fraction.Some? then fraction.value else "") && at <= |t|
    requires t[..at] == if fraction.Some? then p.whole + "." + fraction.value else p.whole
    requires t[at..] == if exponent.Some? then exponent.value.Text() else ""
    requires exponent.Some? ==> exponent.value.Valid()
    ensures var j := JsonNumber(p.whole, fraction, exponent); j.Numeral() && j.Text() == t
  {
    TextOf(JsonNumber(p.whole, fraction, exponent));
    assert t == t[..at] + t[at..];
  }

  /** Text that splits into digits is the text of a numeral. */
  lemma SplitText(t: string, low: int, high: int, p: Parts) returns (j: JsonNumber)
    requires Split(t, low, high) == Some(p) && p.Valid()
    ensures j.Numeral() && j.Text() == t
  {
    var fraction := MantissaText(t, low, high, p);
    var exponent := RestText(t, low, high);
    FromParts(t, MarkerAt(t), p, fraction, exponent);
    j := JsonNumber(p.whole, fraction, exponent);
  }

  /** Either conversion answers only for the text of a numeral. */
  lemma OnlyNumerals(text: string) returns (a: string, j: JsonNumber, b: string)
    requires PlainDecimal(text).Some? || MicroUsdCeiling(text).Some?
    ensures Spells(text, a, j, b)
  {
    a, b := TrimCuts(text);
    if PlainDecimal(text).Some? {
      j := SplitText(Trim(text), I64_MIN, I64_MAX, Split(Trim(text), I64_MIN, I64_MAX).value);
    } else {
      j := SplitText(Trim(text), I32_MIN, I32_MAX, Split(Trim(text), I32_MIN, I32_MAX).value);
    }
  }

  // ----- applying the exponent and trimming ----------------------------------

  lemma {:induction false} ZerosAreZero(n: nat)
    ensures AllDigits(Zeros(n)) && NatOf(Zeros(n)) == 0
  {
    if n > 0 {
      ZerosAreZero(n - 1);
      assert Zeros(n)[..n - 1] == Zeros(n - 1);
    }
  }

  lemma ZerosInFront(n: nat, digits: string)
    requires AllDigits(digits)
    ensures AllDigits(Zeros(n) + digits) && NatOf(Zeros(n) + digits) == NatOf(digits)
  {
    ZerosAreZero(n);
    NatOfAppend(Zeros(n), digits);
  }

  lemma {:induction false} ZeroFirst(n: nat)
    ensures "0" + Zeros(n) == Zeros(n + 1)
  {
    if n > 0 {
      ZeroFirst(n - 1);
    }
  }

  lemma ZerosBehind(digits: string, n: nat)
    requires AllDigits(digits)
    ensures AllDigits(digits + Zeros(n)) && NatOf(digits + Zeros(n)) == NatOf(digits) * Pow10(n)
    ensures Scaled(NatOf(digits + Zeros(n)), 0) == Scaled(NatOf(digits), n)
  {
    ZerosAreZero(n);
    NatOfAppend(digits, Zeros(n));
    Rescale(NatOf(digits), n, n);
  }

  /** Applying the exponent keeps the value. */
  lemma ShiftKeepsValue(p: Parts)
    requires p.Valid()
    ensures
      var (i, f) := Shift(p);
      i != "" && AllDigits(i) && AllDigits(f) && Parts(i, f, 0).Value() == p.Value()
  {
    var digits := p.whole + p.fraction;
    var point := |p.whole| + p.exponent;
    if point <= 0 {
      PointInFront(digits, -point);
    } else if point >= |digits| {
      PointBehind(digits, point - |digits|);
    } else {
      PointInside(digits, point);
    }
  }

  lemma PointInside(digits: string, point: nat)
    requires AllDigits(digits) && 0 < point < |digits|
    ensures AllDigits(digits[..point]) && AllDigits(digits[point..])
    ensures Parts(digits[..point], digits[point..], 0).Value() == Scaled(NatOf(digits), point - |digits|)
  {
    assert digits[..point] + digits[point..] == digits;
  }

  lemma ZeroInFront(z: string, f: string)
    requires z == "0" && AllDigits(f)
    ensures AllDigits(z + f) && NatOf(z + f) == NatOf(f)
  {
    assert AllDigits(z) && z[..0] == "" && NatOf(z) == 0;
    NatOfAppend(z, f);
  }

  lemma ValueInFront(z: string, f: string, k: nat)
    requires z == "0" && AllDigits(f) && k == |f|
    ensures Parts(z, f, 0).Value() == Scaled(NatOf(f), 0 - k)
  {
    ZeroInFront(z, f);
  }

  lemma {:induction false} PointInFront(digits: string, n: nat)
    requires AllDigits(digits)
    ensures AllDigits(Zeros(n) + digits) && Parts("0", Zeros(n) + digits, 0).Value() == Scaled(NatOf(digits), 0 - n - |digits|)
  {
    ZerosInFront(n, digits);
    ValueInFront("0", Zeros(n) + digits, n + |digits|);
  }

  lemma PointBehind(digits: string, n: nat)
    requires digits != "" && AllDigits(digits)
    ensures AllDigits(digits + Zeros(n)) && Parts(digits + Zeros(n), "", 0).Value() == Scaled(NatOf(digits), n)
  {
    ZerosBehind(digits, n);
    assert digits + Zeros(n) + "" == digits + Zeros(n);
  }

  /** Dropping trailing fraction zeros keeps the value, and leaves none. */
  lemma {:induction false} TrimRightKeepsValue(i: string, f: string)
    requires Parts(i, f, 0).Valid() && i != ""
    ensures
      var f' := TrimZerosRight(f);
      AllDigits(f') && (f' == "" || f'[|f'| - 1] != '0') && Parts(i, f', 0).Value() == Parts(i, f, 0).Value()
    decreases |f|
  {
    assert AllDigits(i + f);
    if f != "" && f[|f| - 1] == '0' {
      var g := f[..|f| - 1];
      TrimRightKeepsValue(i, g);
      assert (i + f)[..|i + f| - 1] == i + g;
      ScaledTen(NatOf(i + g), -|f|);
    }
  }

  /** Dropping leading zeros (keeping one digit) keeps the value. */
  lemma TrimLeftKeepsValue(i: string, f: string)
    requires Parts(i, f, 0).Valid() && i != ""
    ensures
      var i' := if TrimZerosLeft(i) == "" then "0" else TrimZerosLeft(i);
      AllDigits(i') && i' != "" && (i'[0] == '0' ==> i' == "0") && Parts(i', f, 0).Value() == Parts(i, f, 0).Value()
  {
    TrimmedDigits(i);
    var i' := if TrimZerosLeft(i) == "" then "0" else TrimZerosLeft(i);
    assert NatOf("0") == 0 by {
      assert "0"[..0] == "";
    }
    NatOfAppend(i, f);
    NatOfAppend(i', f);
  }

  // ----- the plain decimal -----------------------------------------------------

  /** No exponent, no leading zero beyond a single one, no trailing fraction zero. */
  ghost predicate Plain(j: JsonNumber) {
    && j.Valid() && j.exponent == None
    && (j.fraction.Some? ==> j.fraction.value[|j.fraction.value| - 1] != '0')
  }

  lemma PlainOfParts(p: Parts) returns (k: JsonNumber)
    requires p.Valid()
    ensures Plain(k) && k.Value() == p.Value()
    ensures PlainOf(p) ==
      if |k.whole| <= MAX_WHOLE && |k.FractionDigits()| <= MAX_FRACTION then Some(k.Text()) else None
  {
    ShiftKeepsValue(p);
    var (i, f) := Shift(p);
    var i' := if TrimZerosLeft(i) == "" then "0" else TrimZerosLeft(i);
    var f' := TrimZerosRight(f);
    TrimRightKeepsValue(i, f);
    TrimLeftKeepsValue(i, f');
    k := JsonNumber(i', if f' == "" then None else Some(f'), None);
    assert k.AsParts() == Parts(i', f', 0);
  }

  /** An accepted plain decimal is the text of a plain number of exactly the
      same value. */
  lemma PlainDecimalExact(j: JsonNumber, s: string)
    requires j.Numeral() && PlainDecimal(j.Text()) == Some(s)
    ensures exists k: JsonNumber :: Plain(k) && k.Text() == s && k.Value() == j.Value()
  {
    PlainDecimalOfText(j);
    var k := PlainOfParts(j.AsParts());
  }

  /** A number has one shortest digit string. */
  lemma ShortestUnique(a: string, b: string)
    requires a != "" && b != "" && AllDigits(a) && AllDigits(b) && NatOf(a) == NatOf(b)
    requires (a[0] == '0' ==> a == "0") && (b[0] == '0' ==> b == "0")
    ensures a == b
  {
    LongerIsLarger(a, b);
    LongerIsLarger(b, a);
    NatOfInjective(a, b);
  }

  lemma LongerIsLarger(a: string, b: string)
    requires AllDigits(a) && AllDigits(b)
    ensures |a| < |b| && b[0] != '0' ==> NatOf(a) < NatOf(b)
  {
    if |a| < |b| && b[0] != '0' {
      NatOfBelow(a);
      LeadingDigit(b);
      Pow10Monotone(|a|, |b| - 1);
    }
  }

  lemma LastDigitNonzero(s: string)
    requires s != "" && AllDigits(s) && s[|s| - 1] != '0'
    ensures NatOf(s) % 10 != 0
  {
  }

  lemma MultipleOfTen(n: nat, k: nat)
    requires k > 0
    ensures n * Pow10(k) % 10 == 0
  {
    assert n * Pow10(k) == 10 * (n * Pow10(k - 1));
  }

  /** A plain number with more fraction digits than another has another value. */
  lemma FractionLengthDetermined(j: JsonNumber, n: nat, s: nat)
    requires Plain(j) && s < |j.FractionDigits()|
    ensures j.Value() != Scaled(n, 0 - s)
  {
    var f := j.FractionDigits();
    var digits := j.whole + f;
    CompareScaled(n, 0 - s, NatOf(digits), -|f|);
    MultipleOfTen(n, |f| - s);
    assert digits[|digits| - 1] == f[|f| - 1];
    LastDigitNonzero(digits);
  }

  lemma {:induction false} OneStepApart(x: nat, y: nat, p: nat)
    requires x < y
    ensures y * p >= x * p + p
  {
    OneMoreTimes(y - 1, p);
    if x < y - 1 {
      OneStepApart(x, y - 1, p);
    }
  }

  lemma SplitEqual(x: nat, y: nat, x': nat, y': nat, p: nat)
    requires y < p && y' < p && x * p + y == x' * p + y'
    ensures x == x' && y == y'
  {
    if x < x' {
      OneStepApart(x, x', p);
    } else if x' < x {
      OneStepApart(x', x, p);
    }
  }

  /** Plain numbers of equal value are the same text. */
  lemma PlainUnique(j: JsonNumber, k: JsonNumber)
    requires Plain(j) && Plain(k) && j.Value() == k.Value()
    ensures j == k
  {
    var f, g := j.FractionDigits(), k.FractionDigits();
    if |f| < |g| {
      FractionLengthDetermined(k, NatOf(j.whole + f), |f|);
    } else if |g| < |f| {
      FractionLengthDetermined(j, NatOf(k.whole + g), |g|);
    } else {
      CompareScaled(NatOf(j.whole + f), -|f|, NatOf(k.whole + g), -|f|);
      assert NatOf(j.whole + f) * Pow10(0) == NatOf(j.whole + f);
      NatOfAppend(j.whole, f);
      NatOfAppend(k.whole, g);
      NatOfBelow(f);
      NatOfBelow(g);
      SplitEqual(NatOf(j.whole), NatOf(f), NatOf(k.whole), NatOf(g), Pow10(|f|));
      NatOfInjective(f, g);
      ShortestUnique(j.whole, k.whole);
    }
  }

  /** The plain decimal is canonical: two accepted numbers are equal exactly
      when their plain decimals are the same string. */
  lemma PlainDecimalCanonical(j: JsonNumber, k: JsonNumber, s: string, t: string)
    requires j.Numeral() && k.Numeral() && PlainDecimal(j.Text()) == Some(s) && PlainDecimal(k.Text()) == Some(t)
    ensures s == t <==> j.Value() == k.Value()
  {
    PlainDecimalExact(j, s);
    PlainDecimalExact(k, t);
    var j' :| Plain(j') && j'.Text() == s && j'.Value() == j.Value();
    var k' :| Plain(k') && k'.Text() == t && k'.Value() == k.Value();
    if s == t {
      SplitReads(j', 0, 0);
      SplitReads(k', 0, 0);
    }
    if j.Value() == k.Value() {
      PlainUnique(j', k');
    }
  }

  /** The integer part is short exactly when the value is small. */
  lemma WholeLength(k: JsonNumber, n: nat)
    requires Plain(k) && n > 0
    ensures |k.whole| <= n <==> k.Value() < Scaled(1, n)
  {
    var f := k.FractionDigits();
    var digits := k.whole + f;
    CompareScaled(1, n, NatOf(digits), -|f|);
    assert 1 * Pow10(n + |f|) == Pow10(n + |f|);
    if k.whole == "0" {
      ZeroFirst(0);
      ZerosInFront(1, f);
      assert digits == Zeros(1) + f;
      NatOfBelow(f);
      Pow10Monotone(|f|, n + |f|);
    } else {
      LengthBound(digits, n + |f|);
    }
  }

  ghost predicate IsScaled(x: real, m: nat, s: int) {
    x == Scaled(m, s)
  }

  /** `x` is a whole multiple of ten to the power `s`. */
  ghost predicate MultipleOfPower(x: real, s: int) {
    exists m: nat :: IsScaled(x, m, s)
  }

  /** The fraction is short exactly when the value is a multiple of that power of ten. */
  lemma FractionLength(k: JsonNumber, n: nat)
    requires Plain(k)
    ensures |k.FractionDigits()| <= n <==> MultipleOfPower(k.Value(), 0 - n)
  {
    var f, x, s := k.FractionDigits(), k.Value(), 0 - n;
    if |f| <= n {
      Rescale(NatOf(k.whole + f), -|f|, n - |f|);
      assert IsScaled(x, NatOf(k.whole + f) * Pow10(n - |f|), s);
    } else if m: nat :| IsScaled(x, m, s) {
      FractionLengthDetermined(k, m, n);
    }
  }

  /** Accepted exactly: a small exponent, a value below ten to the twentieth,
      and no more than thirty decimals. */
  lemma PlainDecimalAccepts(j: JsonNumber, plain: Option<string>)
    requires j.Numeral() && plain == PlainDecimal(j.Text())
    ensures plain.Some? <==>
      && j.whole != "" && -MAX_EXPONENT <= j.ExponentValue() <= MAX_EXPONENT
      && j.Value() < Scaled(1, MAX_WHOLE) && MultipleOfPower(j.Value(), -MAX_FRACTION)
  {
    PlainDecimalOfText(j);
    PlainOfAccepts(j.AsParts());
  }

  lemma PlainOfAccepts(p: Parts)
    requires p.Valid()
    ensures PlainOf(p).Some? <==> p.Value() < Scaled(1, MAX_WHOLE) && MultipleOfPower(p.Value(), -MAX_FRACTION)
  {
    var k := PlainOfParts(p);
    WholeLength(k, MAX_WHOLE);
    FractionLength(k, MAX_FRACTION);
  }

  lemma SplitKeepsSign(t: string, low: int, high: int)
    requires t != "" && t[0] == '-'
    ensures Split(t, low, high).Some? ==> Split(t, low, high).value.whole != "" && Split(t, low, high).value.whole[0] == '-'
  {
  }

  /** A negative number has neither form. */
  lemma NegativeRefused(j: JsonNumber)
    requires j.Numeral()
    ensures PlainDecimal("-" + j.Text()) == None && MicroUsdCeiling("-" + j.Text()) == None
  {
    var t := "-" + j.Text();
    TextEnds(j);
    TrimKeeps(t);
    SplitKeepsSign(t, I64_MIN, I64_MAX);
  }

  // ----- micro-dollars ------------------------------------------------------------

  ghost predicate IsCeiling(m: nat, x: real) {
    x <= m as real < x + 1.0
  }

  lemma MillionTimes(n: nat, s: int)
    ensures Scaled(n, s + 6) == 1000000.0 * Scaled(n, s)
  {
    ScaledTen(n, s);
    ScaledTen(n, s + 1);
    ScaledTen(n, s + 2);
    ScaledTen(n, s + 3);
    ScaledTen(n, s + 4);
    ScaledTen(n, s + 5);
  }

  lemma {:induction false} NonzeroDigits(s: string)
    requires AllDigits(s)
    ensures SomeNonzero(s) <==> NatOf(s) > 0
  {
    if s != "" {
      NonzeroDigits(s[..|s| - 1]);
      if i :| 0 <= i < |s| && s[i] != '0' {
        assert i < |s| - 1 ==> s[..|s| - 1][i] != '0';
      }
    }
  }

  /** The rounded digits are the ceiling of the scaled number, accepted exactly
      below ten to the eighteenth. */
  lemma MicroDigits(digits: string, shift: int)
    requires AllDigits(digits) && (digits == "" || digits[0] != '0')
    ensures MicroOfDigits(digits, shift).Some? <==> Scaled(NatOf(digits), shift) < Scaled(1, 18)
    ensures MicroOfDigits(digits, shift).Some? ==>
      IsCeiling(MicroOfDigits(digits, shift).value, Scaled(NatOf(digits), shift))
  {
    if digits == "" {
      ScaledZero(shift);
      ScaledMonotone(0, 1, 18);
      ScaledZero(18);
    } else if shift >= 0 {
      MicroUp(digits, shift);
    } else {
      MicroDown(digits, shift);
    }
  }

  lemma {:induction false} ScaledZero(s: int)
    ensures Scaled(0, s) == 0.0
    decreases if s < 0 then -s else s
  {
    if s > 0 {
      ScaledZero(s - 1);
    } else if s < 0 {
      ScaledZero(s + 1);
    }
  }

  /** A number with a nonzero leading digit is below a power of ten exactly
      when it has no more digits. */
  lemma LengthBound(digits: string, n: nat)
    requires digits != "" && AllDigits(digits) && digits[0] != '0'
    ensures NatOf(digits) < Pow10(n) <==> |digits| <= n
  {
    NatOfBelow(digits);
    LeadingDigit(digits);
    if |digits| <= n {
      Pow10Monotone(|digits|, n);
    } else {
      Pow10Monotone(n, |digits| - 1);
    }
  }

  lemma Pow18()
    ensures Pow10(18) == 1_000_000_000_000_000_000
  {
    assert Pow10(6) == 1_000_000;
    Pow10Add(6, 6);
    Pow10Add(12, 6);
  }

  /** Whole numbers below ten to the eighteenth, as scaled numbers. */
  lemma BelowLimit(n: nat)
    ensures Scaled(n, 0) < Scaled(1, 18) <==> n < Pow10(18)
    ensures n < Pow10(18) ==> n + 1 <= U64_MAX
  {
    Pow18();
    Rescale(1, 18, 18);
    assert 1 * Pow10(18) == Pow10(18);
  }

  lemma {:induction false} MicroUp(digits: string, shift: nat)
    requires digits != "" && AllDigits(digits) && digits[0] != '0'
    ensures MicroOfDigits(digits, shift).Some? <==> Scaled(NatOf(digits), shift) < Scaled(1, 18)
    ensures MicroOfDigits(digits, shift).Some? ==>
      IsCeiling(MicroOfDigits(digits, shift).value, Scaled(NatOf(digits), shift))
  {
    ZerosBehind(digits, shift);
    LengthBound(digits + Zeros(shift), 18);
    BelowLimit(NatOf(digits + Zeros(shift)));
  }

  lemma {:induction false} MicroDown(digits: string, shift: int)
    requires digits != "" && AllDigits(digits) && digits[0] != '0' && shift < 0
    ensures MicroOfDigits(digits, shift).Some? <==> Scaled(NatOf(digits), shift) < Scaled(1, 18)
    ensures MicroOfDigits(digits, shift).Some? ==>
      IsCeiling(MicroOfDigits(digits, shift).value, Scaled(NatOf(digits), shift))
  {
    var n, cut := NatOf(digits), -shift;
    BelowScaledLimit(digits, shift);
    if cut >= |digits| {
      LengthBound(digits, cut);
      LeadingDigit(digits);
      CeilingOfQuotient(n, 0, n, cut);
    } else {
      var at := |digits| - cut;
      var kept, dropped := digits[..at], digits[at..];
      assert digits == kept + dropped;
      NatOfAppend(kept, dropped);
      NatOfBelow(dropped);
      NonzeroDigits(dropped);
      CeilingOfQuotient(n, NatOf(kept), NatOf(dropped), cut);
      if at <= 18 {
        LengthBound(kept, 18);
        BelowLimit(NatOf(kept));
      }
    }
  }

  lemma BelowScaledLimit(digits: string, shift: int)
    requires digits != "" && AllDigits(digits) && digits[0] != '0' && shift < 0
    ensures Scaled(NatOf(digits), shift) < Scaled(1, 18) <==> |digits| + shift <= 18
  {
    var n := NatOf(digits);
    CompareScaled(1, 18, n, shift);
    assert 1 * Pow10(18 - shift) == Pow10(18 - shift);
    LengthBound(digits, 18 - shift);
  }

  /** Rounding up a quotient by a power of ten. */
  lemma CeilingOfQuotient(n: nat, q: nat, r: nat, cut: nat)
    requires n == q * Pow10(cut) + r && r < Pow10(cut)
    ensures IsCeiling(q + if r > 0 then 1 else 0, Scaled(n, 0 - cut))
  {
    CompareScaled(q, 0, n, 0 - cut);
    CompareScaled(q + 1, 0, n, 0 - cut);
    OneMoreTimes(q, Pow10(cut));
  }

  lemma MicroBounded(digits: string, shift: int, micro: Option<nat>)
    requires AllDigits(digits) && micro == MicroOfDigits(digits, shift)
    ensures micro.Some? ==> micro.value <= U64_MAX
  {
  }

  lemma MicroMeans(digits: string, shift: int, micro: Option<nat>, x: real)
    requires AllDigits(digits) && (digits == "" || digits[0] != '0')
    requires micro == MicroOfDigits(digits, shift) && x == Scaled(NatOf(digits), shift)
    ensures micro.Some? <==> x < Scaled(1, 18)
    ensures micro.Some? ==> micro.value <= U64_MAX && IsCeiling(micro.value, x)
  {
    MicroBounded(digits, shift, micro);
    MicroDigits(digits, shift);
  }

  lemma MicroParts(p: Parts)
    requires p.Valid()
    ensures var x := 1000000.0 * p.Value();
      && (MicroOf(p).Some? <==> x < Scaled(1, 18))
      && (MicroOf(p).Some? ==> MicroOf(p).value <= U64_MAX && IsCeiling(MicroOf(p).value, x))
  {
    var digits, s := p.whole + p.fraction, p.exponent - |p.fraction|;
    MillionTimes(NatOf(digits), s);
    TrimmedDigits(digits);
    MicroMeans(TrimZerosLeft(digits), s + 6, MicroOf(p), 1000000.0 * p.Value());
  }

  /** Micro-dollars are the exact ceiling of a million times the value; they
      are refused exactly at a million million dollars and above, or for an
      exponent outside 32 bits. */
  lemma MicroUsdCeilingExact(j: JsonNumber, micro: Option<nat>)
    requires j.Numeral() && micro == MicroUsdCeiling(j.Text())
    ensures micro.Some? <==> I32_MIN <= j.ExponentValue() <= I32_MAX && 1000000.0 * j.Value() < Scaled(1, 18)
    ensures micro.Some? ==> micro.value <= U64_MAX && IsCeiling(micro.value, 1000000.0 * j.Value())
  {
    MicroOfText(j);
    MicroParts(j.AsParts());
  }

  // ----- the charge a call reports ----------------------------------------------------

  /** The charge checked against the ceiling, and the charge passed on. */
  function CostMicroUsd(reported: Option<string>): Option<nat> {
    if reported == None || PlainDecimal(reported.value) == None then None
    else MicroUsdCeiling(PlainDecimal(reported.value).value)
  }

  function CostUsd(reported: Option<string>): Option<string> {
    if reported == None then None
    else
      var plain := PlainDecimal(reported.value);
      if plain.Some? && MicroUsdCeiling(plain.value).Some? then plain else None
  }

  /** Both charges are present or neither; the checked one is the ceiling, in
      micro-dollars, of the exact reported charge, which is the one passed on. */
  lemma ChargesAgree(j: JsonNumber)
    requires j.Numeral()
    ensures var r := Some(j.Text());
      && (CostMicroUsd(r).Some? <==> CostUsd(r).Some?)
      && (CostUsd(r).Some? ==>
            && IsCeiling(CostMicroUsd(r).value, 1000000.0 * j.Value())
            && exists k: JsonNumber :: Plain(k) && k.Text() == CostUsd(r).value && k.Value() == j.Value())
  {
    var r := Some(j.Text());
    if CostUsd(r).Some? {
      PlainDecimalExact(j, CostUsd(r).value);
      var k :| Plain(k) && k.Text() == CostUsd(r).value && k.Value() == j.Value();
      MicroUsdCeilingExact(k, CostMicroUsd(r));
    }
  }
}
