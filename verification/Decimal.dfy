// Decimal texts: unsigned digit strings, plain decimals and their exact value.
module Decimal {
  import opened Positional
  import opened Text

  predicate IsDigit(c: char) { '0' <= c <= '9' }

  predicate AllDigits(s: string) { forall i :: 0 <= i < |s| ==> IsDigit(s[i]) }

  function DigitVals(s: string): (d: seq<int>)
    requires AllDigits(s)
    ensures |d| == |s| && Digits(d, 10)
  {
    seq(|s|, i requires 0 <= i < |s| => s[i] as int - 48)
  }

  function DigitChars(d: seq<int>): (s: string)
    requires Digits(d, 10)
    ensures |s| == |d| && AllDigits(s) && DigitVals(s) == d
  {
    seq(|d|, i requires 0 <= i < |d| => (d[i] + 48) as char)
  }

  // The number a digit string denotes (0 for the empty one).
  function Number(s: string): (n: nat)
    requires AllDigits(s)
  {
    ValueBounds(DigitVals(s), 10);
    Value(DigitVals(s), 10)
  }

  // `String(n)` of a non-negative integer.
  function NumberText(n: nat): (s: string)
    ensures |s| > 0 && AllDigits(s) && Number(s) == n
    ensures s[0] == '0' ==> s == "0"
  {
    if n == 0 then
      assert DigitVals("0")[..0] == [];
      "0"
    else DigitChars(ToDigits(n, 10))
  }

  function Repeat(c: char, n: nat): (s: string)
    ensures |s| == n && forall i :: 0 <= i < n ==> s[i] == c
  {
    seq(n, _ => c)
  }

  lemma DigitValsOfConcat(a: string, b: string)
    requires AllDigits(a) && AllDigits(b)
    ensures AllDigits(a + b) && DigitVals(a + b) == DigitVals(a) + DigitVals(b)
  {
  }

  lemma NumberOfConcat(a: string, b: string)
    requires AllDigits(a) && AllDigits(b)
    ensures AllDigits(a + b) && Number(a + b) == Number(a) * Pow(10, |b|) + Number(b)
  {
    DigitValsOfConcat(a, b);
    ValueOfConcat(DigitVals(a), DigitVals(b), 10);
  }

  lemma NumberOfZeros(n: nat)
    ensures Number(Repeat('0', n)) == 0
  {
    assert DigitVals(Repeat('0', n)) == Zeros(n);
    ValueOfZeros(n, 10);
  }

  lemma NumberWithLeadingZeros(n: nat, s: string)
    requires AllDigits(s)
    ensures Number(Repeat('0', n) + s) == Number(s)
  {
    NumberOfZeros(n);
    NumberOfConcat(Repeat('0', n), s);
  }

  // ---- exact decimal values ----

  // coefficient * 10^exponent, exactly.
  datatype Scaled = Scaled(coefficient: int, exponent: int)

  // The value counted in units of 10^grid.
  function Units(x: Scaled, grid: int): int
    requires grid <= x.exponent
  {
    x.coefficient * Pow(10, x.exponent - grid)
  }

  function Finer(x: Scaled, y: Scaled): (g: int)
    ensures g <= x.exponent && g <= y.exponent
  {
    if x.exponent <= y.exponent then x.exponent else y.exponent
  }

  predicate SameValue(x: Scaled, y: Scaled) { Units(x, Finer(x, y)) == Units(y, Finer(x, y)) }

  predicate AtMost(x: Scaled, y: Scaled) { Units(x, Finer(x, y)) <= Units(y, Finer(x, y)) }

  // x * 10^n.
  function Shift(x: Scaled, n: int): Scaled { Scaled(x.coefficient, x.exponent + n) }

  lemma {:induction false} PowAdd(base: int, m: nat, n: nat)
    ensures Pow(base, m + n) == Pow(base, m) * Pow(base, n)
  {
    if m == 0 {
    } else {
      PowAdd(base, m - 1, n);
      Associate(base, Pow(base, m - 1), Pow(base, n));
    }
  }

  lemma Associate(a: int, b: int, c: int)
    ensures a * (b * c) == (a * b) * c
  {
  }

  lemma {:induction false} PowPositive(n: nat)
    ensures Pow(10, n) > 0
  {
    if n == 0 {
    } else {
      PowPositive(n - 1);
    }
  }

  lemma UnitsOnFinerGrid(x: Scaled, grid: int, n: nat)
    requires grid <= x.exponent
    ensures Units(x, grid - n) == Units(x, grid) * Pow(10, n)
  {
    PowAdd(10, x.exponent - grid, n);
    Associate(x.coefficient, Pow(10, x.exponent - grid), Pow(10, n));
  }

  lemma ScaledOrder(a: int, b: int, p: int)
    requires p > 0
    ensures a * p <= b * p <==> a <= b
    ensures a * p == b * p <==> a == b
  {
    if a < b { assert (b - a) * p > 0; }
    if a > b { assert (a - b) * p > 0; }
  }

  // Comparison does not depend on the grid it is made on.
  lemma ComparedOnAnyGrid(x: Scaled, y: Scaled, grid: int)
    requires grid <= x.exponent && grid <= y.exponent
    ensures AtMost(x, y) <==> Units(x, grid) <= Units(y, grid)
    ensures SameValue(x, y) <==> Units(x, grid) == Units(y, grid)
  {
    var g := Finer(x, y);
    UnitsOnFinerGrid(x, g, g - grid);
    UnitsOnFinerGrid(y, g, g - grid);
    PowPositive(g - grid);
    ScaledOrder(Units(x, g), Units(y, g), Pow(10, g - grid));
  }

  lemma AtMostIsTransitive(x: Scaled, y: Scaled, z: Scaled)
    requires AtMost(x, y) && AtMost(y, z)
    ensures AtMost(x, z)
  {
    var g := Finer(x, Scaled(0, Finer(y, z)));
    ComparedOnAnyGrid(x, y, g);
    ComparedOnAnyGrid(y, z, g);
    ComparedOnAnyGrid(x, z, g);
  }

  lemma {:induction false} PowIncreases(m: nat, n: nat)
    requires m <= n
    ensures Pow(10, m) <= Pow(10, n)
  {
    PowPositive(m);
    if m < n { PowIncreases(m, n - 1); }
  }

  // A number below 10^k prints in at most k digits.
  lemma NumberTextLength(n: nat, k: nat)
    requires n < Pow(10, k) && k > 0
    ensures |NumberText(n)| <= k
  {
    if n > 0 {
      var d := ToDigits(n, 10);
      if |d| > k {
        ValueAtLeastPow(d, 10);
        PowIncreases(k, |d| - 1);
      }
    }
  }

  // ---- plain decimals: /^\d+(?:\.\d+)?$/ ----

  predicate IsPlain(s: string) {
    var dot := IndexOf(s, '.');
    if dot == -1 then |s| > 0 && AllDigits(s)
    else 0 < dot < |s| - 1 && AllDigits(s[..dot]) && AllDigits(s[dot + 1..])
  }

  function WholePart(s: string): (w: string)
    requires IsPlain(s)
    ensures |w| > 0 && AllDigits(w)
  {
    var dot := IndexOf(s, '.');
    if dot == -1 then s else s[..dot]
  }

  function FracPart(s: string): (f: string)
    requires IsPlain(s)
    ensures AllDigits(f)
  {
    var dot := IndexOf(s, '.');
    if dot == -1 then "" else s[dot + 1..]
  }

  // The exact number `whole.frac` denotes.
  function PartsValue(whole: string, frac: string): Scaled
    requires AllDigits(whole) && AllDigits(frac)
  {
    Scaled(Number(whole + frac), -|frac|)
  }

  function PlainValue(s: string): Scaled
    requires IsPlain(s)
  {
    PartsValue(WholePart(s), FracPart(s))
  }

  // Writing the two parts with a dot between them gives a plain decimal with
  // exactly those parts; so does an integer part alone.
  lemma PlainOfParts(whole: string, frac: string)
    requires |whole| > 0 && AllDigits(whole) && |frac| > 0 && AllDigits(frac)
    ensures IsPlain(whole + "." + frac)
    ensures WholePart(whole + "." + frac) == whole && FracPart(whole + "." + frac) == frac
  {
    var s := whole + "." + frac;
    IndexFromIsFirst(s, '.', 0);
    assert s[|whole|] == '.';
    forall i | 0 <= i < |whole| ensures s[i] != '.' { assert s[i] == whole[i]; }
    assert IndexOf(s, '.') == |whole|;
  }

  lemma PlainOfWhole(whole: string)
    requires |whole| > 0 && AllDigits(whole)
    ensures IsPlain(whole) && WholePart(whole) == whole && FracPart(whole) == ""
  {
    assert '.' !in whole;
  }
}
