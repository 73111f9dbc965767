/**
  Exact decimal numbers as `java.math.BigDecimal` represents them: an
  unbounded unscaled integer and a 32-bit scale, standing for
  `unscaled * 10^(-scale)`. Only the operations the ledger uses are here:
  parsing from text (the `BigDecimal(String)` constructor), addition and
  subtraction, numeric comparison, and `intValue()`.
*/
module Decimals {
  import opened Wrappers

  const INT32_MIN: int := -0x8000_0000
  const INT32_MAX: int := 0x7FFF_FFFF

  predicate InInt32(n: int) {
    INT32_MIN <= n <= INT32_MAX
  }

  /** `unscaled * 10^(-scale)`; two values with different scales may be numerically equal. */
  datatype Dec = Dec(unscaled: int, scale: int)

  function Pow10(n: nat): (p: nat)
    ensures p >= 1
  {
    if n == 0 then 1 else 10 * Pow10(n - 1)
  }

  /** `x * 10^k`, by repeated multiplication or division by ten. */
  function Shift(x: real, k: int): real
    decreases if k >= 0 then k else -k
  {
    if k == 0 then x else if k > 0 then 10.0 * Shift(x, k - 1) else Shift(x, k + 1) / 10.0
  }

  /** The number a decimal stands for. */
  function Value(d: Dec): real {
    Shift(d.unscaled as real, -d.scale)
  }

  // ---------------------------------------------------------------------------
  // Arithmetic

  /** `BigDecimal.add`: the operands are brought to the larger scale and their unscaled values added. */
  function Add(a: Dec, b: Dec): (r: Dec)
    ensures r.scale == if a.scale >= b.scale then a.scale else b.scale
    ensures Value(r) == Value(a) + Value(b)
  {
    if a.scale >= b.scale then
      var b' := Align(b, a.scale);
      ShiftAdd(a.unscaled as real, b'.unscaled as real, -a.scale);
      Dec(a.unscaled + b'.unscaled, a.scale)
    else
      var a' := Align(a, b.scale);
      ShiftAdd(a'.unscaled as real, b.unscaled as real, -b.scale);
      Dec(a'.unscaled + b.unscaled, b.scale)
  }

  /** `d` rewritten at a scale `s` at least its own: more trailing zeros, the same number. */
  function Align(d: Dec, s: int): (r: Dec)
    requires s >= d.scale
    ensures r.scale == s && Value(r) == Value(d)
  {
    var k := s - d.scale;
    ShiftInt(d.unscaled, k);
    ShiftCompose(d.unscaled as real, k, -s);
    Dec(d.unscaled * Pow10(k), s)
  }

  function Negate(a: Dec): (r: Dec)
    ensures r.scale == a.scale && Value(r) == -Value(a)
  {
    ShiftNeg(a.unscaled as real, -a.scale);
    Dec(-a.unscaled, a.scale)
  }

  /** `BigDecimal.subtract`: the larger scale of the two, and the exact difference. */
  function Sub(a: Dec, b: Dec): (r: Dec)
    ensures r.scale == if a.scale >= b.scale then a.scale else b.scale
    ensures Value(r) == Value(a) - Value(b)
  {
    Add(a, Negate(b))
  }

  lemma {:induction false} ShiftStep(x: real, k: int)
    ensures Shift(x, k + 1) == 10.0 * Shift(x, k)
  {
    if k < 0 {
      assert Shift(x, k) == Shift(x, k + 1) / 10.0;
    }
  }

  lemma {:induction false} ShiftAdd(x: real, y: real, k: int)
    ensures Shift(x + y, k) == Shift(x, k) + Shift(y, k)
    decreases if k >= 0 then k else -k
  {
    if k > 0 { ShiftAdd(x, y, k - 1); } else if k < 0 { ShiftAdd(x, y, k + 1); }
  }

  lemma {:induction false} ShiftNeg(x: real, k: int)
    ensures Shift(-x, k) == -Shift(x, k)
    decreases if k >= 0 then k else -k
  {
    if k > 0 { ShiftNeg(x, k - 1); } else if k < 0 { ShiftNeg(x, k + 1); }
  }

  lemma {:induction false} ShiftMonotone(x: real, y: real, k: int)
    requires x <= y
    ensures Shift(x, k) <= Shift(y, k)
    ensures x < y ==> Shift(x, k) < Shift(y, k)
    decreases if k >= 0 then k else -k
  {
    if k > 0 { ShiftMonotone(x, y, k - 1); } else if k < 0 { ShiftMonotone(x, y, k + 1); }
  }

  lemma {:induction false} ShiftCompose(x: real, i: int, j: int)
    ensures Shift(Shift(x, i), j) == Shift(x, i + j)
    decreases if j >= 0 then j else -j
  {
    if j > 0 {
      ShiftCompose(x, i, j - 1);
      ShiftStep(x, i + j - 1);
    } else if j < 0 {
      ShiftCompose(x, i, j + 1);
      ShiftStep(x, i + j);
    }
  }

  /** Shifting an integer left by `k` places is multiplying it by `10^k`. */
  lemma {:induction false} ShiftInt(u: int, k: nat)
    ensures Shift(u as real, k) == (u * Pow10(k)) as real
  {
    if k > 0 {
      ShiftInt(u, k - 1);
      assert u * Pow10(k) == 10 * (u * Pow10(k - 1));
    }
  }

  // ---------------------------------------------------------------------------
  // intValue()

  /** `BigDecimal.toBigInteger`: the integer part, truncating toward zero. */
  function Trunc(d: Dec): (r: int)
    ensures d.scale <= 0 ==> r as real == Value(d)
  {
    if d.scale <= 0 then ShiftInt(d.unscaled, -d.scale); d.unscaled * Pow10(-d.scale)
    else if d.unscaled >= 0 then d.unscaled / Pow10(d.scale)
    else -((-d.unscaled) / Pow10(d.scale))
  }

  /** The low-order 32 bits of `n`, read as a two's-complement `int`. */
  function Int32Wrap(n: int): (r: int)
    ensures InInt32(r)
    ensures (r - n) % 0x1_0000_0000 == 0
    ensures InInt32(n) ==> r == n
  {
    var m := n % 0x1_0000_0000;
    if m > INT32_MAX then m - 0x1_0000_0000 else m
  }

  /** `BigDecimal.intValue()`: truncate toward zero, then keep the low 32 bits. */
  function IntValue(d: Dec): (r: int)
    ensures InInt32(r)
    ensures InInt32(Trunc(d)) ==> r == Trunc(d)
  {
    Int32Wrap(Trunc(d))
  }

  /** Truncation toward zero: the integer part has the sign of the value and lies within one of it. */
  lemma {:induction false} TruncTowardZero(d: Dec)
    ensures Value(d) >= 0.0 ==> (Trunc(d) as real) <= Value(d) < (Trunc(d) as real) + 1.0
    ensures Value(d) <= 0.0 ==> (Trunc(d) as real) - 1.0 < Value(d) <= (Trunc(d) as real)
  {
    if d.scale <= 0 {
      ShiftInt(d.unscaled, -d.scale);
      assert Value(d) == Trunc(d) as real;
    } else if d.unscaled >= 0 {
      TruncOfFraction(d);
    } else {
      TruncOfNegativeFraction(d);
    }
  }

  lemma {:induction false} TruncOfFraction(d: Dec)
    requires d.scale > 0 && d.unscaled >= 0
    ensures 0.0 <= Value(d)
    ensures (Trunc(d) as real) <= Value(d) < (Trunc(d) as real) + 1.0
  {
    QuotientBounds(d.unscaled, d.scale);
    ShiftNeg(0.0, -d.scale);
    ShiftMonotone(0.0, d.unscaled as real, -d.scale);
  }

  lemma {:induction false} TruncOfNegativeFraction(d: Dec)
    requires d.scale > 0 && d.unscaled < 0
    ensures Value(d) <= 0.0
    ensures (Trunc(d) as real) - 1.0 < Value(d) <= (Trunc(d) as real)
  {
    var w := -d.unscaled;
    QuotientBounds(w, d.scale);
    ShiftNeg(0.0, -d.scale);
    ShiftMonotone(0.0, w as real, -d.scale);
    ShiftNeg(w as real, -d.scale);
    assert Value(d) == -Shift(w as real, -d.scale);
  }

  /** `w / 10^s` is the whole part of `w` shifted right by `s` places. */
  lemma {:induction false} QuotientBounds(w: nat, s: nat)
    ensures var q := w / Pow10(s);
            (q as real) <= Shift(w as real, -(s as int)) < (q as real) + 1.0
  {
    var p := Pow10(s);
    var q := w / p;
    DivisionBounds(w, p);
    ShiftBack(q, s);
    ShiftBack(q + 1, s);
    ShiftMonotone((q * p) as real, w as real, -(s as int));
    ShiftMonotone(w as real, ((q + 1) * p) as real, -(s as int));
  }

  lemma {:induction false} DivisionBounds(w: nat, p: nat)
    requires p >= 1
    ensures (w / p) * p <= w < (w / p + 1) * p
  {
    var q, r := w / p, w % p;
    assert w == q * p + r && 0 <= r < p;
    assert (q + 1) * p == q * p + p;
  }

  /** Shifting `q * 10^s` right by `s` places gives back `q`. */
  lemma {:induction false} ShiftBack(q: int, s: nat)
    ensures Shift((q * Pow10(s)) as real, -(s as int)) == q as real
  {
    ShiftInt(q, s);
    ShiftCompose(q as real, s, -(s as int));
  }

  /** The check `intValue() < 0`, for values whose integer part fits an `int`, rejects exactly those at or below -1. */
  lemma {:induction false} IntValueNegativeIff(d: Dec)
    requires InInt32(Trunc(d))
    ensures IntValue(d) < 0 <==> Value(d) <= -1.0
  {
    TruncTowardZero(d);
  }

  // ---------------------------------------------------------------------------
  // Parsing: the grammar of the BigDecimal(String) constructor

  predicate IsDigit(c: char) {
    '0' <= c <= '9'
  }

  predicate AllDigits(s: string) {
    forall i | 0 <= i < |s| :: IsDigit(s[i])
  }

  predicate IsExponentMark(c: char) {
    c == 'e' || c == 'E'
  }

  /** The characters any text accepted by `Parse` is made of. */
  predicate IsNumeralChar(c: char) {
    IsDigit(c) || c == '+' || c == '-' || c == '.' || IsExponentMark(c)
  }

  /** The number written by a string of decimal digits, most significant first. */
  function DigitsValue(s: string): nat
    requires AllDigits(s)
  {
    if s == [] then 0 else 10 * DigitsValue(s[..|s| - 1]) + (s[|s| - 1] as int - '0' as int)
  }

  /** Index of the first exponent mark in `s`, or `|s|` when there is none. */
  function FindExponentMark(s: string): (k: nat)
    ensures k <= |s|
    ensures forall j | 0 <= j < k :: !IsExponentMark(s[j])
    ensures k < |s| ==> IsExponentMark(s[k])
  {
    if s == [] || IsExponentMark(s[0]) then 0 else 1 + FindExponentMark(s[1..])
  }

  /** Index of the first decimal point in `s`, or `|s|` when there is none. */
  function FindPoint(s: string): (k: nat)
    ensures k <= |s|
    ensures forall j | 0 <= j < k :: s[j] != '.'
    ensures k < |s| ==> s[k] == '.'
  {
    if s == [] || s[0] == '.' then 0 else 1 + FindPoint(s[1..])
  }

  /**
    A signed integer exponent: an optional sign and at least one digit. An
    exponent outside the `int` range is an error of its own ("Exponent
    overflow"), whatever scale it would have produced.
  */
  function ParseExponent(t: string): (r: Option<int>)
    ensures r.Some? ==> InInt32(r.value)
  {
    var negative := |t| > 0 && t[0] == '-';
    var digits := if |t| > 0 && (t[0] == '-' || t[0] == '+') then t[1..] else t;
    if digits == [] || !AllDigits(digits) then None
    else
      var e := Signed(negative, DigitsValue(digits));
      if InInt32(e) then Some(e) else None
  }

  /** An optional leading sign, split off: whether it was a minus, and the rest of the text. */
  function SplitSign(s: string): (bool, string) {
    if |s| > 0 && (s[0] == '-' || s[0] == '+') then (s[0] == '-', s[1..]) else (false, s)
  }

  /** The digits of a significand, read as one integer, and how many of them follow the point. */
  datatype Significand = Significand(magnitude: nat, fractionDigits: nat)

  /** Digits with at most one decimal point and at least one digit. */
  function ParseSignificand(t: string): Option<Significand> {
    var p := FindPoint(t);
    var intPart := t[..p];
    var fracPart := if p < |t| then t[p + 1..] else "";
    if !AllDigits(intPart) || !AllDigits(fracPart) || |intPart| + |fracPart| == 0 then None
    else Some(Significand(DigitsValue(intPart + fracPart), |fracPart|))
  }

  /**
    `new BigDecimal(s)`: an optional sign, a significand, and an optional
    exponent mark followed by a signed integer. The scale is the number of
    fraction digits minus the exponent, and must fit an `int`. `None` stands
    for the `NumberFormatException` the constructor throws otherwise.
  */
  function Parse(s: string): (r: Option<Dec>)
    ensures r.Some? ==> InInt32(r.value.scale)
    ensures s == [] ==> r == None
  {
    var (negative, body) := SplitSign(s);
    var e := FindExponentMark(body);
    Assemble(negative, ParseSignificand(body[..e]),
             if e < |body| then ParseExponent(body[e + 1..]) else Some(0))
  }

  /** The number from its parsed parts, if both parts parsed and the scale fits an `int`. */
  function Assemble(negative: bool, significand: Option<Significand>, exponent: Option<int>): Option<Dec> {
    if significand.None? || exponent.None? then None
    else
      var scale := significand.value.fractionDigits - exponent.value;
      if InInt32(scale) then Some(Dec(Signed(negative, significand.value.magnitude), scale)) else None
  }

  /** A magnitude with its sign applied. */
  function Signed(negative: bool, m: nat): (r: int)
    ensures negative ==> r == -(m as int)
    ensures !negative ==> r == m
  {
    if negative then -(m as int) else m
  }

  function SignText(negative: bool): string {
    if negative then "-" else ""
  }

  lemma {:induction false} SplitSignText(negative: bool, body: string)
    requires |body| > 0 ==> body[0] != '-' && body[0] != '+'
    ensures SplitSign(SignText(negative) + body) == (negative, body)
  {
    if negative {
      assert (SignText(negative) + body)[1..] == body;
    } else {
      assert SignText(negative) + body == body;
    }
  }

  /** Text that starts with no sign and holds no exponent mark. */
  predicate Unsigned(body: string) {
    && (|body| > 0 ==> body[0] != '-' && body[0] != '+')
    && forall j | 0 <= j < |body| :: !IsExponentMark(body[j])
  }

  /** Text without an exponent mark is all significand, with exponent zero. */
  lemma {:induction false} ParseWithoutExponent(negative: bool, body: string)
    requires Unsigned(body)
    ensures Parse(SignText(negative) + body) == Assemble(negative, ParseSignificand(body), Some(0))
  {
    SplitSignText(negative, body);
    var e := FindExponentMark(body);
    assert e == |body|;
    assert body[..e] == body;
  }

  lemma {:induction false} SignificandWithPoint(intPart: string, fracPart: string)
    requires AllDigits(intPart) && AllDigits(fracPart) && |intPart| + |fracPart| > 0
    ensures AllDigits(intPart + fracPart)
    ensures ParseSignificand(intPart + "." + fracPart)
         == Some(Significand(DigitsValue(intPart + fracPart), |fracPart|))
  {
    var t := intPart + "." + fracPart;
    var all := intPart + fracPart;
    forall i | 0 <= i < |all| ensures IsDigit(all[i]) {
      if i >= |intPart| { assert all[i] == fracPart[i - |intPart|]; }
    }
    assert t[|intPart|] == '.';
    assert forall j | 0 <= j < |intPart| :: t[j] == intPart[j];
    var p := FindPoint(t);
    assert p == |intPart|;
    assert t[..p] == intPart;
    assert t[p + 1..] == fracPart;
  }

  lemma {:induction false} SignificandWithoutPoint(digits: string)
    requires AllDigits(digits) && |digits| > 0
    ensures ParseSignificand(digits) == Some(Significand(DigitsValue(digits), 0))
  {
    var p := FindPoint(digits);
    assert p == |digits|;
    assert digits[..p] == digits;
    assert digits + "" == digits;
  }

  /**
    Plain decimal text (an optional minus, digits, a point, digits) parses to
    exactly the number it writes, with one unit of scale per fraction digit.
  */
  lemma {:induction false} ParsePlain(negative: bool, intPart: string, fracPart: string)
    requires AllDigits(intPart) && AllDigits(fracPart) && |intPart| + |fracPart| > 0
    requires |fracPart| <= INT32_MAX
    ensures AllDigits(intPart + fracPart)
    ensures Parse(SignText(negative) + (intPart + "." + fracPart))
              == Some(Dec(Signed(negative, DigitsValue(intPart + fracPart)), |fracPart|))
  {
    var body := intPart + "." + fracPart;
    SignificandWithPoint(intPart, fracPart);
    PlainBody(intPart, fracPart);
    ParseUnsignedBody(negative, body, Significand(DigitsValue(intPart + fracPart), |fracPart|));
  }

  /** Text with no sign in front and no exponent mark has the value and scale of its significand. */
  lemma {:induction false} ParseUnsignedBody(negative: bool, body: string, significand: Significand)
    requires Unsigned(body)
    requires ParseSignificand(body) == Some(significand) && significand.fractionDigits <= INT32_MAX
    ensures Parse(SignText(negative) + body) == Some(Dec(Signed(negative, significand.magnitude), significand.fractionDigits))
  {
    ParseWithoutExponent(negative, body);
  }

  /** Digits, a point and digits: no sign in front and no exponent mark anywhere. */
  lemma {:induction false} PlainBody(intPart: string, fracPart: string)
    requires AllDigits(intPart) && AllDigits(fracPart)
    ensures Unsigned(intPart + "." + fracPart)
  {
    var body := intPart + "." + fracPart;
    forall j | 0 <= j < |body| ensures !IsExponentMark(body[j]) && body[j] != '-' && body[j] != '+' {
      if j < |intPart| {
        assert body[j] == intPart[j];
      } else if j > |intPart| {
        assert body[j] == fracPart[j - |intPart| - 1];
      }
    }
  }

  /** Plain integer text (an optional minus and digits) parses to that integer at scale 0. */
  lemma {:induction false} ParseInteger(negative: bool, digits: string)
    requires AllDigits(digits) && |digits| > 0
    ensures Parse(SignText(negative) + digits) == Some(Dec(Signed(negative, DigitsValue(digits)), 0))
  {
    SignificandWithoutPoint(digits);
    ParseWithoutExponent(negative, digits);
  }

  /**
    An exponent that does not fit an `int` is refused even where the scale
    it yields would fit: `"1e2147483648"` does not parse.
  */
  lemma {:induction false} ParseRejectsExponentOverflow(negative: bool, significand: string, mark: char,
                                                        expNegative: bool, expDigits: string)
    requires Unsigned(significand) && IsExponentMark(mark)
    requires AllDigits(expDigits) && |expDigits| > 0
    requires !InInt32(Signed(expNegative, DigitsValue(expDigits)))
    ensures Parse(SignText(negative) + (significand + [mark] + (SignText(expNegative) + expDigits))) == None
  {
    var exponent := SignText(expNegative) + expDigits;
    var body := significand + [mark] + exponent;
    SplitAtMark(body, significand, mark, exponent);
    SplitSignText(negative, body);
    ExponentOverflow(expNegative, expDigits);
  }

  /**
    With an exponent that fits an `int`, the scale is the number of fraction
    digits minus the exponent, provided that too fits: `"1e3"` is 1 at
    scale -3, and `"1.5E-2"` is 15 at scale 3.
  */
  lemma {:induction false} ParseWithExponent(negative: bool, body: string, significand: string, mark: char,
                                             expNegative: bool, expDigits: string, parsed: Significand, e: int)
    requires Unsigned(significand) && IsExponentMark(mark)
    requires body == significand + [mark] + (SignText(expNegative) + expDigits)
    requires ParseSignificand(significand) == Some(parsed)
    requires AllDigits(expDigits) && |expDigits| > 0 && e == Signed(expNegative, DigitsValue(expDigits))
    requires InInt32(e) && InInt32(parsed.fractionDigits - e)
    ensures Parse(SignText(negative) + body) == Some(Dec(Signed(negative, parsed.magnitude), parsed.fractionDigits - e))
  {
    var exponent := SignText(expNegative) + expDigits;
    ExponentInRange(expNegative, expDigits);
    ParseParts(negative, body, significand, mark, exponent, Some(parsed), Some(e));
    AssembleInRange(negative, parsed, e);
  }

  /** `ParseMarked`, with the two parts already parsed. */
  lemma {:induction false} ParseParts(negative: bool, body: string, significand: string, mark: char, exponent: string,
                                      parsedSignificand: Option<Significand>, parsedExponent: Option<int>)
    requires Unsigned(significand) && IsExponentMark(mark)
    requires body == significand + [mark] + exponent
    requires ParseSignificand(significand) == parsedSignificand && ParseExponent(exponent) == parsedExponent
    ensures Parse(SignText(negative) + body) == Assemble(negative, parsedSignificand, parsedExponent)
  {
    ParseMarked(negative, body, significand, mark, exponent);
  }

  /** Both parts parsed, and the scale fits: the number is assembled from them. */
  lemma {:induction false} AssembleInRange(negative: bool, parsed: Significand, e: int)
    requires InInt32(parsed.fractionDigits - e)
    ensures Assemble(negative, Some(parsed), Some(e)) == Some(Dec(Signed(negative, parsed.magnitude), parsed.fractionDigits - e))
  {
  }

  /** Text with an exponent mark splits there into the significand and the exponent. */
  lemma {:induction false} ParseMarked(negative: bool, body: string, significand: string, mark: char, exponent: string)
    requires Unsigned(significand) && IsExponentMark(mark)
    requires body == significand + [mark] + exponent
    ensures Parse(SignText(negative) + body) == Assemble(negative, ParseSignificand(significand), ParseExponent(exponent))
  {
    assert SplitSign(SignText(negative) + body) == (negative, body) by {
      SplitAtMark(body, significand, mark, exponent);
      SplitSignText(negative, body);
    }
    var e := FindExponentMark(body);
    assert e == |significand| < |body| && body[..e] == significand && body[e + 1..] == exponent by {
      SplitAtMark(body, significand, mark, exponent);
    }
  }

  /** A signed exponent that fits an `int` parses to its value. */
  lemma {:induction false} ExponentInRange(negative: bool, digits: string)
    requires AllDigits(digits) && |digits| > 0
    requires InInt32(Signed(negative, DigitsValue(digits)))
    ensures ParseExponent(SignText(negative) + digits) == Some(Signed(negative, DigitsValue(digits)))
  {
    if negative {
      assert (SignText(negative) + digits)[1..] == digits;
    } else {
      assert SignText(negative) + digits == digits;
    }
  }

  /** The first exponent mark of `significand + [mark] + exponent` is `mark` itself. */
  lemma {:induction false} SplitAtMark(body: string, significand: string, mark: char, exponent: string)
    requires Unsigned(significand) && IsExponentMark(mark)
    requires body == significand + [mark] + exponent
    ensures |body| > 0 ==> body[0] != '-' && body[0] != '+'
    ensures FindExponentMark(body) == |significand|
    ensures body[..|significand|] == significand
    ensures body[|significand| + 1..] == exponent
  {
    assert body[|significand|] == mark;
    assert forall j | 0 <= j < |significand| :: body[j] == significand[j];
  }

  /** A signed exponent whose value does not fit an `int` does not parse. */
  lemma {:induction false} ExponentOverflow(negative: bool, digits: string)
    requires AllDigits(digits) && |digits| > 0
    requires !InInt32(Signed(negative, DigitsValue(digits)))
    ensures ParseExponent(SignText(negative) + digits) == None
  {
    if negative {
      assert (SignText(negative) + digits)[1..] == digits;
    } else {
      assert SignText(negative) + digits == digits;
    }
  }

  /**
    Text holding any character other than a digit, a sign, a decimal point or
    an exponent mark is rejected: grouping separators such as `,`, spaces and
    locale-specific marks never reach the ledger as numbers.
  */
  lemma {:induction false} ParseRejectsForeignChar(s: string, i: nat)
    requires i < |s| && !IsNumeralChar(s[i])
    ensures Parse(s) == None
  {
    var body := SplitSign(s).1;
    var off := |s| - |body|;
    assert off == 0 || off == 1;
    assert i >= off;
    var j := i - off;
    assert body[j] == s[i];
    var e := FindExponentMark(body);
    if j < e {
      SignificandRejectsForeignChar(body[..e], j);
    } else {
      assert j != e;
      ExponentRejectsForeignChar(body[e + 1..], j - e - 1);
    }
  }

  lemma {:induction false} SignificandRejectsForeignChar(t: string, j: nat)
    requires j < |t| && !IsNumeralChar(t[j])
    ensures ParseSignificand(t) == None
  {
    var p := FindPoint(t);
    if j < p {
      assert t[..p][j] == t[j];
    } else {
      assert j != p;
      assert t[p + 1..][j - p - 1] == t[j];
    }
  }

  lemma {:induction false} ExponentRejectsForeignChar(t: string, k: nat)
    requires k < |t| && !IsNumeralChar(t[k])
    ensures ParseExponent(t) == None
  {
    if |t| > 0 && (t[0] == '-' || t[0] == '+') {
      assert k != 0;
      assert t[1..][k - 1] == t[k];
    }
  }
}
