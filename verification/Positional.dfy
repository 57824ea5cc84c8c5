// Positional number systems: digit sequences, most significant digit first.
module Positional {

  predicate Digits(d: seq<int>, base: int) {
    forall i :: 0 <= i < |d| ==> 0 <= d[i] < base
  }

  // The number a digit sequence stands for.
  function Value(d: seq<int>, base: int): int {
    if |d| == 0 then 0 else base * Value(d[..|d| - 1], base) + d[|d| - 1]
  }

  function LeadingZeros(d: seq<int>): (z: nat)
    ensures z <= |d|
    ensures forall i :: 0 <= i < z ==> d[i] == 0
    ensures z < |d| ==> d[z] != 0
  {
    if |d| > 0 && d[0] == 0 then 1 + LeadingZeros(d[1..]) else 0
  }

  function Zeros(n: nat): (z: seq<int>)
    ensures |z| == n && forall i :: 0 <= i < n ==> z[i] == 0
  {
    seq(n, _ => 0)
  }

  // The shortest representation of n: no leading zero, and nothing at all for 0.
  function ToDigits(n: nat, base: int): (d: seq<int>)
    requires base >= 2
    ensures Digits(d, base)
    ensures Value(d, base) == n
    ensures |d| > 0 ==> d[0] != 0
    decreases n
  {
    if n == 0 then []
    else
      DivideShrinks(n, base);
      var d := ToDigits(n / base, base) + [n % base];
      assert d[..|d| - 1] == ToDigits(n / base, base);
      d
  }

  // Rewrites d from one base to another, keeping its leading zeros one for one.
  function Convert(d: seq<int>, source: int, target: int): (r: seq<int>)
    requires target >= 2 && source >= 2 && Digits(d, source)
    ensures Digits(r, target)
  {
    ValueBounds(d, source);
    Zeros(LeadingZeros(d)) + ToDigits(Value(d, source), target)
  }

  lemma DivideShrinks(n: nat, base: int)
    requires base >= 2 && n > 0
    ensures 0 <= n / base < n && 0 <= n % base < base
    ensures n == base * (n / base) + n % base
  {
    var q := n / base;
    assert n == base * q + n % base;
    assert q >= n ==> base * q >= base * n;
    assert q < 0 ==> base * q <= base * -1;
  }

  lemma {:induction false} ValueBounds(d: seq<int>, base: int)
    requires base >= 2 && Digits(d, base)
    ensures Value(d, base) >= 0
    ensures |d| > 0 && d[0] != 0 ==> Value(d, base) > 0
  {
    if |d| == 0 {
    } else {
      var p := d[..|d| - 1];
      ValueBounds(p, base);
      assert base * Value(p, base) >= 0;
      if |d| > 1 && d[0] != 0 {
        assert p[0] == d[0];
        assert base * Value(p, base) >= base;
      }
    }
  }

  lemma {:induction false} LeadingZerosAreFree(z: nat, d: seq<int>, base: int)
    ensures Value(Zeros(z) + d, base) == Value(d, base)
  {
    var w := Zeros(z) + d;
    if |d| > 0 {
      assert w[..|w| - 1] == Zeros(z) + d[..|d| - 1];
      LeadingZerosAreFree(z, d[..|d| - 1], base);
    } else if z > 0 {
      assert w[..|w| - 1] == Zeros(z - 1) + d;
      LeadingZerosAreFree(z - 1, d, base);
    }
  }

  lemma MultipleInsideGap(gap: int, base: int)
    requires -base < base * gap < base
    ensures gap == 0
  {
    assert gap >= 1 ==> base * gap >= base;
    assert gap <= -1 ==> base * gap <= -base;
  }

  lemma QuotientAndRemainderAgree(q1: int, r1: int, q2: int, r2: int, base: int)
    requires 0 <= r1 < base && 0 <= r2 < base
    requires base * q1 + r1 == base * q2 + r2
    ensures q1 == q2 && r1 == r2
  {
    var gap := q2 - q1;
    assert base * gap == base * q2 - base * q1;
    MultipleInsideGap(gap, base);
  }

  // Two representations without leading zeros that stand for the same number
  // are the same digits.
  lemma {:induction false} ShortestIsUnique(a: seq<int>, b: seq<int>, base: int)
    requires base >= 2 && Digits(a, base) && Digits(b, base)
    requires |a| > 0 ==> a[0] != 0
    requires |b| > 0 ==> b[0] != 0
    requires Value(a, base) == Value(b, base)
    ensures a == b
  {
    ValueBounds(a, base);
    ValueBounds(b, base);
    if |a| > 0 && |b| > 0 {
      var p, q := a[..|a| - 1], b[..|b| - 1];
      QuotientAndRemainderAgree(Value(p, base), a[|a| - 1], Value(q, base), b[|b| - 1], base);
      ShortestIsUnique(p, q, base);
      assert a == p + [a[|a| - 1]] && b == q + [b[|b| - 1]];
    }
  }

  lemma Stripped(d: seq<int>, base: int) returns (x: seq<int>)
    requires Digits(d, base)
    ensures d == Zeros(LeadingZeros(d)) + x
    ensures Digits(x, base) && (|x| > 0 ==> x[0] != 0)
    ensures Value(x, base) == Value(d, base)
  {
    var z := LeadingZeros(d);
    x := d[z..];
    assert d == Zeros(z) + x;
    LeadingZerosAreFree(z, x, base);
  }

  // A digit sequence is determined by its value and its count of leading zeros.
  lemma ValueAndZerosDetermine(a: seq<int>, b: seq<int>, base: int)
    requires base >= 2 && Digits(a, base) && Digits(b, base)
    requires Value(a, base) == Value(b, base)
    requires LeadingZeros(a) == LeadingZeros(b)
    ensures a == b
  {
    var x := Stripped(a, base);
    var y := Stripped(b, base);
    ShortestIsUnique(x, y, base);
  }

  lemma {:induction false} CountLeadingZeros(z: nat, d: seq<int>)
    requires |d| > 0 ==> d[0] != 0
    ensures LeadingZeros(Zeros(z) + d) == z
  {
    var w := Zeros(z) + d;
    if z == 0 {
    } else {
      assert w[1..] == Zeros(z - 1) + d;
      CountLeadingZeros(z - 1, d);
    }
  }

  // Conversion keeps the value and the leading zeros ...
  lemma ConvertMeaning(d: seq<int>, source: int, target: int)
    requires target >= 2 && source >= 2 && Digits(d, source)
    ensures Value(Convert(d, source, target), target) == Value(d, source)
    ensures LeadingZeros(Convert(d, source, target)) == LeadingZeros(d)
  {
    ValueBounds(d, source);
    var t := ToDigits(Value(d, source), target);
    LeadingZerosAreFree(LeadingZeros(d), t, target);
    CountLeadingZeros(LeadingZeros(d), t);
  }

  // ... so converting there and back is the identity: conversion is a bijection
  // between the digit sequences of the two bases.
  lemma ConvertRoundTrip(d: seq<int>, source: int, target: int)
    requires target >= 2 && source >= 2 && Digits(d, source)
    ensures Convert(Convert(d, source, target), target, source) == d
  {
    var there := Convert(d, source, target);
    ConvertMeaning(d, source, target);
    ConvertMeaning(there, target, source);
    ValueAndZerosDetermine(Convert(there, target, source), d, source);
  }

  // ---- concatenation ----

  function Pow(base: int, n: nat): int {
    if n == 0 then 1 else base * Pow(base, n - 1)
  }

  lemma Distribute(b: int, x: int, p: int, y: int)
    ensures b * (x * p + y) == x * (b * p) + b * y
  {
  }

  lemma {:induction false} ValueOfConcat(a: seq<int>, b: seq<int>, base: int)
    ensures Value(a + b, base) == Value(a, base) * Pow(base, |b|) + Value(b, base)
  {
    if |b| == 0 {
      assert a + b == a;
    } else {
      var c, last := b[..|b| - 1], b[|b| - 1];
      assert (a + b)[..|a + b| - 1] == a + c;
      ValueOfConcat(a, c, base);
      var x, p, y := Value(a, base), Pow(base, |c|), Value(c, base);
      Distribute(base, x, p, y);
    }
  }

  lemma {:induction false} ValueOfZeros(n: nat, base: int)
    ensures Value(Zeros(n), base) == 0
  {
    if n == 0 {
    } else {
      assert Zeros(n)[..n - 1] == Zeros(n - 1);
      ValueOfZeros(n - 1, base);
    }
  }

  lemma {:induction false} ValueBelowPow(d: seq<int>, base: int)
    requires base >= 2 && Digits(d, base)
    ensures Value(d, base) < Pow(base, |d|)
  {
    if |d| == 0 {
    } else {
      var v, p := Value(d[..|d| - 1], base), Pow(base, |d| - 1);
      ValueBelowPow(d[..|d| - 1], base);
      ScaleUp(base, v, p - 1);
      Distribute(base, 1, p, -1);
    }
  }

  lemma ScaleUp(b: int, x: int, y: int)
    requires b >= 0 && x <= y
    ensures b * x <= b * y
  {
  }

  lemma {:induction false} ValueAtLeastPow(d: seq<int>, base: int)
    requires base >= 2 && Digits(d, base) && |d| > 0 && d[0] != 0
    ensures Value(d, base) >= Pow(base, |d| - 1)
  {
    if |d| > 1 {
      var p := d[..|d| - 1];
      assert p[0] == d[0];
      ValueAtLeastPow(p, base);
      ScaleUp(base, Pow(base, |p| - 1), Value(p, base));
    } else {
      assert d[..0] == [];
    }
  }
}
