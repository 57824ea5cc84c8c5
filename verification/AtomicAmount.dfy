// src/lib/atomic-amount.ts: the exponent of a printed number, expanded on its
// digits instead of through binary floating point.
module AtomicAmount {
  import opened Positional
  import opened Text
  import opened Decimal

  predicate IsExponentMark(c: char) { c == 'e' || c == 'E' }

  // `search(/[eE]/)`.
  function ExponentIndex(s: string, from: nat := 0): (k: int)
    requires from <= |s|
    ensures k == -1 || (from <= k < |s| && IsExponentMark(s[k]))
    decreases |s| - from
  {
    if from == |s| then -1 else if IsExponentMark(s[from]) then from else ExponentIndex(s, from + 1)
  }

  // An optional sign and at least one digit.
  predicate IsSigned(s: string) {
    |s| > 0 && var body := if s[0] == '+' || s[0] == '-' then s[1..] else s; |body| > 0 && AllDigits(body)
  }

  // `Number.parseInt(s, 10)` of such a text.
  function SignedNumber(s: string): int
    requires IsSigned(s)
  {
    if s[0] == '-' then -(Number(s[1..]) as int) else if s[0] == '+' then Number(s[1..]) else Number(s)
  }

  // `<int>[.<frac>]e<exp>`, the exponent form `String(number)` prints.
  predicate IsScientific(s: string) {
    var e := ExponentIndex(s);
    e >= 0 && IsPlain(s[..e]) && IsSigned(s[e + 1..])
  }

  function Mantissa(s: string): string
    requires IsScientific(s)
  {
    s[..ExponentIndex(s)]
  }

  function Exponent(s: string): int
    requires IsScientific(s)
  {
    SignedNumber(s[ExponentIndex(s) + 1..])
  }

  // The digits of intPart.fracPart with the point moved by the exponent.
  function MovePoint(intPart: string, fracPart: string, exponent: int): string {
    var digits := intPart + fracPart;
    var pointPos := |intPart| + exponent;
    if pointPos <= 0 then "0." + Repeat('0', -pointPos) + digits
    else if pointPos >= |digits| then digits + Repeat('0', pointPos - |digits|)
    else digits[..pointPos] + "." + digits[pointPos..]
  }

  function ExpandExponent(s: string): string
    requires IsScientific(s)
  {
    MovePoint(WholePart(Mantissa(s)), FracPart(Mantissa(s)), Exponent(s))
  }

  // What is printed in the exponent form: a plain mantissa, the mark, a sign or none, and
  // digits.
  lemma ScientificForm(mantissa: string, mark: char, sign: string, digits: string)
    requires IsPlain(mantissa) && mark in {'e', 'E'} && sign in {"", "+", "-"} && digits != "" && AllDigits(digits)
    ensures var s := mantissa + [mark] + (sign + digits);
            && IsScientific(s) && Mantissa(s) == mantissa
            && Exponent(s) == (if sign == "-" then -1 else 1) * Number(digits)
  {
    hide IsPlain, Number;
    var s, n := mantissa + [mark] + (sign + digits), |mantissa|;
    PlainHasNoExponent(mantissa);
    FirstMark(s, 0, n);
    assert s[..n] == mantissa && s[n + 1..] == sign + digits;
    assert sign != "" ==> (sign + digits)[1..] == digits;
    assert sign == "" ==> sign + digits == digits && IsDigit(digits[0]);
  }

  lemma {:induction false} FirstMark(s: string, from: nat, at: nat)
    requires from <= at < |s| && IsExponentMark(s[at])
    requires forall i :: from <= i < at ==> !IsExponentMark(s[i])
    ensures ExponentIndex(s, from) == at
    decreases at - from
  {
    if from < at { FirstMark(s, from + 1, at); }
  }

  // ---- the three positions of the point ----

  lemma PointBefore(digits: string, zeros: nat)
    requires |digits| > 0 && AllDigits(digits)
    ensures var out := "0." + Repeat('0', zeros) + digits;
            IsPlain(out) && PlainValue(out) == Scaled(Number(digits), -(zeros + |digits|))
  {
    var frac := Repeat('0', zeros) + digits;
    assert "0." + Repeat('0', zeros) + digits == "0" + "." + frac;
    PlainOfParts("0", frac);
    assert Number("0" + frac) == Number(digits) by {
      assert "0" + frac == Repeat('0', zeros + 1) + digits;
      NumberWithLeadingZeros(zeros + 1, digits);
    }
  }

  lemma PointAfter(digits: string, zeros: nat)
    requires |digits| > 0 && AllDigits(digits)
    ensures var out := digits + Repeat('0', zeros);
            IsPlain(out) && PlainValue(out) == Scaled(Number(digits) * Pow(10, zeros), 0)
  {
    var out := digits + Repeat('0', zeros);
    NumberOfZeros(zeros);
    NumberOfConcat(digits, Repeat('0', zeros));
    PlainOfWhole(out);
    assert out + "" == out;
  }

  lemma PointInside(digits: string, at: nat)
    requires 0 < at < |digits| && AllDigits(digits)
    ensures var out := digits[..at] + "." + digits[at..];
            IsPlain(out) && PlainValue(out) == Scaled(Number(digits), at - |digits|)
  {
    PlainOfParts(digits[..at], digits[at..]);
    assert digits[..at] + digits[at..] == digits;
  }

  lemma PowZero()
    ensures Pow(10, 0) == 1
  {
  }

  lemma Reflexive(x: Scaled)
    ensures SameValue(x, x)
  {
    hide Units;
  }

  // A whole number written out is the one with the exponent.
  lemma WrittenOut(n: int, e: nat)
    ensures SameValue(Scaled(n * Pow(10, e), 0), Scaled(n, e))
  {
    hide Pow;
    PowZero();
    var whole, shifted, p := Scaled(n * Pow(10, e), 0), Scaled(n, e), Pow(10, e);
    assert Units(shifted, 0) == n * p && Units(whole, 0) == n * p * 1;
  }

  lemma MovePointIsExact(intPart: string, fracPart: string, exponent: int)
    requires |intPart| > 0 && AllDigits(intPart) && AllDigits(fracPart)
    ensures var out := MovePoint(intPart, fracPart, exponent);
            IsPlain(out) && SameValue(PlainValue(out), Shift(PartsValue(intPart, fracPart), exponent))
  {
    hide IsPlain, PlainValue, SameValue, Number, Repeat, AllDigits;
    var digits, pointPos := intPart + fracPart, |intPart| + exponent;
    assert AllDigits(digits) by { DigitsTogether(intPart, fracPart); }
    Reflexive(Scaled(Number(digits), exponent - |fracPart|));
    assert Shift(PartsValue(intPart, fracPart), exponent) == Scaled(Number(digits), exponent - |fracPart|);
    if pointPos <= 0 {
      PointBefore(digits, -pointPos);
    } else if pointPos >= |digits| {
      PointAfter(digits, pointPos - |digits|);
      WrittenOut(Number(digits), pointPos - |digits|);
    } else {
      PointInside(digits, pointPos);
    }
  }

  lemma DigitsTogether(a: string, b: string)
    requires AllDigits(a) && AllDigits(b)
    ensures AllDigits(a + b)
  {
  }

  // Expansion is exact: a plain decimal with the value mantissa * 10^exponent,
  // wherever the point lands and whatever the exponent's sign.
  lemma ExpandExponentIsExact(s: string)
    requires IsScientific(s)
    ensures IsPlain(ExpandExponent(s))
    ensures SameValue(PlainValue(ExpandExponent(s)), Shift(PlainValue(Mantissa(s)), Exponent(s)))
  {
    MovePointIsExact(WholePart(Mantissa(s)), FracPart(Mantissa(s)), Exponent(s));
  }

  // ---- the signed entry point ----

  function Unsigned(s: string): string {
    if |s| > 0 && s[0] == '-' then s[1..] else s
  }

  predicate IsFinite(s: string) { IsPlain(Unsigned(s)) || IsScientific(Unsigned(s)) }

  // What `String(number)` can print: a plain decimal or the exponent form, with
  // an optional minus, or one of the words for the non-finite numbers.
  predicate IsNumberText(s: string) {
    s in ["NaN", "Infinity", "-Infinity"] || IsFinite(s)
  }

  function ToPlainDecimalString(s: string): string
    requires IsNumberText(s)
  {
    if ExponentIndex(s) == -1 then s
    else
      ExponentMeansScientific(s);
      (if s[0] == '-' then "-" else "") + ExpandExponent(Unsigned(s))
  }

  function Negate(x: Scaled): Scaled { Scaled(-x.coefficient, x.exponent) }

  // The exact number a finite text denotes.
  function NumberValue(s: string): Scaled
    requires IsFinite(s)
  {
    var u := Unsigned(s);
    var magnitude := if IsPlain(u) then PlainValue(u) else Shift(PlainValue(Mantissa(u)), Exponent(u));
    if |s| > 0 && s[0] == '-' then Negate(magnitude) else magnitude
  }

  lemma {:induction false} ExponentIndexMeaning(s: string, from: nat)
    requires from <= |s|
    ensures ExponentIndex(s, from) == -1 <==> forall i :: from <= i < |s| ==> !IsExponentMark(s[i])
    decreases |s| - from
  {
    if from < |s| { ExponentIndexMeaning(s, from + 1); }
  }

  lemma PlainHasNoExponent(s: string)
    requires IsPlain(s)
    ensures forall i :: 0 <= i < |s| ==> !IsExponentMark(s[i]) && s[i] != '-'
  {
    var dot := IndexOf(s, '.');
    forall i | 0 <= i < |s| ensures !IsExponentMark(s[i]) && s[i] != '-' {
      if 0 <= dot < i { assert IsDigit(s[dot + 1..][i - dot - 1]); }
      else if i < dot { assert IsDigit(s[..dot][i]); }
    }
  }

  lemma MinusIsNoMark(s: string)
    ensures ExponentIndex(s) == -1 <==> ExponentIndex(Unsigned(s)) == -1
  {
    var u := Unsigned(s);
    ExponentIndexMeaning(s, 0);
    ExponentIndexMeaning(u, 0);
    var k := |s| - |u|;
    assert forall i :: 0 <= i < |u| ==> u[i] == s[k + i];
    assert forall i :: k <= i < |s| ==> s[i] == u[i - k];
  }

  lemma NonFiniteWords()
    ensures ExponentIndex("NaN") == -1 && ExponentIndex("Infinity") == -1
  {
    ExponentIndexMeaning("NaN", 0);
    ExponentIndexMeaning("Infinity", 0);
  }

  // Exactly the exponent form carries an exponent mark, with or without a minus.
  lemma ExponentMeansScientific(s: string)
    requires IsNumberText(s)
    ensures ExponentIndex(s) != -1 <==> IsScientific(Unsigned(s))
    ensures IsPlain(Unsigned(s)) ==> !IsScientific(Unsigned(s))
  {
    MinusIsNoMark(s);
    if IsPlain(Unsigned(s)) {
      PlainHasNoExponent(Unsigned(s));
      ExponentIndexMeaning(Unsigned(s), 0);
    } else if !IsScientific(Unsigned(s)) {
      NonFiniteWords();
      assert Unsigned("-Infinity") == "Infinity";
    }
  }

  lemma NegateSameValue(x: Scaled, y: Scaled)
    ensures SameValue(x, y) ==> SameValue(Negate(x), Negate(y))
  {
    var g := Finer(x, y);
    assert Units(Negate(x), g) == -Units(x, g);
    assert Units(Negate(y), g) == -Units(y, g);
  }

  lemma ScientificIsNotEmpty(s: string)
    requires IsScientific(Unsigned(s))
    ensures |s| > 0 && |Unsigned(s)| > 0 && IsNumberText(s)
  {
  }

  lemma PlainIsNotEmpty(s: string)
    requires IsPlain(s)
    ensures |s| > 0
  {
  }

  lemma ExpandedText(s: string) returns (out: string)
    requires IsScientific(Unsigned(s))
    ensures out == ToPlainDecimalString(s)
    ensures Unsigned(out) == ExpandExponent(Unsigned(s)) && |out| > 0 && |s| > 0
    ensures IsPlain(Unsigned(out)) && (out[0] == '-' <==> s[0] == '-')
  {
    hide IsPlain, IsScientific, ExpandExponent, ExponentIndex, SameValue;
    ScientificIsNotEmpty(s);
    ExponentMeansScientific(s);
    ExpandExponentIsExact(Unsigned(s));
    PlainHasNoExponent(ExpandExponent(Unsigned(s)));
    PlainIsNotEmpty(ExpandExponent(Unsigned(s)));
    out := ToPlainDecimalString(s);
  }

  // For every finite number the text handed on is plain, keeps the sign, and
  // denotes exactly the number that was printed; the non-finite words pass through.
  lemma ToPlainDecimalStringIsExact(s: string)
    requires IsNumberText(s)
    ensures IsFinite(s) ==>
              var out := ToPlainDecimalString(s);
              && IsPlain(Unsigned(out))
              && SameValue(NumberValue(out), NumberValue(s))
              && (out[0] == '-' <==> s[0] == '-')
    ensures !IsFinite(s) ==> ToPlainDecimalString(s) == s
  {
    ExponentMeansScientific(s);
    if IsScientific(Unsigned(s)) {
      var u := Unsigned(s);
      var out := ExpandedText(s);
      ExpandExponentIsExact(u);
      NegateSameValue(PlainValue(Unsigned(out)), Shift(PlainValue(Mantissa(u)), Exponent(u)));
    }
  }
}
