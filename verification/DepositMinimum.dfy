// src/lib/deposit-minimum.ts: the deposit guard, in whole micro-dollars.
module DepositMinimum {
  import opened Wrappers
  import opened Positional
  import opened Text
  import opened Decimal

  const SCALE_DECIMALS := 6
  const SCALE := 1_000_000

  // n micro-dollars as an exact number of dollars.
  function Micros(n: int): Scaled { Scaled(n, -SCALE_DECIMALS) }

  function PadEnd(s: string): (r: string)
    ensures |r| >= SCALE_DECIMALS && s <= r
  {
    s + Repeat('0', if |s| < SCALE_DECIMALS then SCALE_DECIMALS - |s| else 0)
  }

  function PadStart(s: string): (r: string)
    ensures |r| >= SCALE_DECIMALS
  {
    Repeat('0', if |s| < SCALE_DECIMALS then SCALE_DECIMALS - |s| else 0) + s
  }

  // Surplus decimals are cut, never rounded.
  function MicrosOfParts(whole: string, frac: string): nat
    requires AllDigits(whole) && AllDigits(frac)
  {
    var kept := PadEnd(if |frac| > SCALE_DECIMALS then frac[..SCALE_DECIMALS] else frac);
    Number(whole) * SCALE + Number(kept)
  }

  function ToMicroUsd(raw: string): Option<nat> {
    if IsPlain(raw) then Some(MicrosOfParts(WholePart(raw), FracPart(raw))) else None
  }

  // `replace(/0+$/, '')`.
  function DropTrailingZeros(s: string): (r: string)
    ensures |r| <= |s| && r <= s
    ensures forall i :: |r| <= i < |s| ==> s[i] == '0'
    ensures |r| > 0 ==> r[|r| - 1] != '0'
  {
    if |s| > 0 && s[|s| - 1] == '0' then DropTrailingZeros(s[..|s| - 1]) else s
  }

  function FormatMicroUsd(micro: nat): string {
    var trimmed := DropTrailingZeros(PadStart(NumberText(micro % SCALE)));
    if trimmed == "" then NumberText(micro / SCALE)
    else NumberText(micro / SCALE) + "." + trimmed
  }

  // The environment's value, trimmed: /^\d+(\.\d{1,6})?$/ and not zero.
  function ResolveMinimum(env: Option<string>): Option<nat> {
    match env
    case None => None
    case Some(raw) =>
      var trimmed := Trim(raw);
      if !IsPlain(trimmed) || |FracPart(trimmed)| > SCALE_DECIMALS then None
      else
        var micro := ToMicroUsd(trimmed);
        if micro.None? || micro.value == 0 then None else micro
  }

  datatype EnvStatus = Configured(microUsd: nat, usdc: string) | Absent | Invalid(raw: string)

  function ClassifyEnv(env: Option<string>): EnvStatus {
    match ResolveMinimum(env)
    case Some(micro) => Configured(micro, FormatMicroUsd(micro))
    case None =>
      if env.None? || Trim(env.value) == "" then Absent else Invalid(Trim(env.value))
  }

  datatype Verdict =
    | Accepted
    | MinimumNotConfigured
    | AmountInvalid
    | BelowMinimum(minimumUsdc: string)

  function CheckDepositMinimum(env: Option<string>, amountUsd: string): Verdict {
    match ResolveMinimum(env)
    case None => MinimumNotConfigured
    case Some(minimum) =>
      match ToMicroUsd(amountUsd)
      case None => AmountInvalid
      case Some(amount) => if amount < minimum then BelowMinimum(FormatMicroUsd(minimum)) else Accepted
  }

  // ---- parsing is the floor of the exact value ----

  lemma NumberBelow(s: string)
    requires AllDigits(s)
    ensures 0 <= Number(s) < Pow(10, |s|)
  {
    ValueBelowPow(DigitVals(s), 10);
  }

  // Up to six decimals, parsing loses nothing.
  lemma ShortAmountIsExact(raw: string)
    requires IsPlain(raw) && |FracPart(raw)| <= SCALE_DECIMALS
    ensures ToMicroUsd(raw).Some?
    ensures Units(PlainValue(raw), -SCALE_DECIMALS) == ToMicroUsd(raw).value
  {
    var whole, frac := WholePart(raw), FracPart(raw);
    var zeros := Repeat('0', SCALE_DECIMALS - |frac|);
    NumberOfZeros(|zeros|);
    NumberOfConcat(whole + frac, zeros);
    NumberOfConcat(whole, frac + zeros);
    assert whole + frac + zeros == whole + (frac + zeros);
  }

  // Beyond six decimals, the kept digits and the cut ones.
  lemma LongAmountIsFloor(raw: string) returns (cut: nat, grid: nat)
    requires IsPlain(raw) && |FracPart(raw)| > SCALE_DECIMALS
    ensures ToMicroUsd(raw).Some?
    ensures 0 - grid - SCALE_DECIMALS == PlainValue(raw).exponent
    ensures PlainValue(raw).coefficient == ToMicroUsd(raw).value * Pow(10, grid) + cut
    ensures cut < Pow(10, grid)
  {
    var whole, frac := WholePart(raw), FracPart(raw);
    var kept, rest := frac[..SCALE_DECIMALS], frac[SCALE_DECIMALS..];
    grid := |rest|;
    cut := Number(rest);
    NumberBelow(rest);
    NumberOfConcat(whole, kept);
    NumberOfConcat(whole + kept, rest);
    assert whole + frac == whole + kept + rest;
    assert kept + "" == kept;
  }

  // The micro-dollar amount is the largest one that does not exceed the text's
  // exact value.
  lemma ToMicroUsdIsFloor(raw: string)
    ensures ToMicroUsd(raw).Some? <==> IsPlain(raw)
    ensures IsPlain(raw) ==>
              forall n: nat :: n <= ToMicroUsd(raw).value <==> AtMost(Micros(n), PlainValue(raw))
  {
    if IsPlain(raw) {
      var m, v := ToMicroUsd(raw).value, PlainValue(raw);
      if |FracPart(raw)| <= SCALE_DECIMALS {
        ShortAmountIsExact(raw);
        forall n: nat ensures n <= m <==> AtMost(Micros(n), v) {
          ComparedOnAnyGrid(Micros(n), v, -SCALE_DECIMALS);
        }
      } else {
        var cut, grid := LongAmountIsFloor(raw);
        forall n: nat ensures n <= m <==> AtMost(Micros(n), v) {
          FloorComparison(n, m, cut, Pow(10, grid));
        }
      }
    }
  }

  lemma FloorComparison(n: int, m: int, cut: nat, p: int)
    requires cut < p
    ensures n <= m <==> n * p <= m * p + cut
  {
    if n <= m { ScaledOrder(n, m, p); }
    else {
      ScaledOrder(m + 1, n, p);
      assert (m + 1) * p == m * p + p;
    }
  }

  // ---- the guard ----

  // The environment is usable exactly when it is a plain decimal of at most six
  // decimals worth at least one micro-dollar, and then nothing of it is lost.
  lemma MinimumIsExact(env: Option<string>)
    ensures ResolveMinimum(env).Some? <==>
            && env.Some?
            && IsPlain(Trim(env.value))
            && |FracPart(Trim(env.value))| <= SCALE_DECIMALS
            && AtMost(Micros(1), PlainValue(Trim(env.value)))
    ensures ResolveMinimum(env).Some? ==>
              SameValue(Micros(ResolveMinimum(env).value), PlainValue(Trim(env.value)))
  {
    if env.Some? && IsPlain(Trim(env.value)) && |FracPart(Trim(env.value))| <= SCALE_DECIMALS {
      var text := Trim(env.value);
      ToMicroUsdIsFloor(text);
      ShortAmountIsExact(text);
      ComparedOnAnyGrid(Micros(ToMicroUsd(text).value), PlainValue(text), -SCALE_DECIMALS);
    }
  }

  // The guard, for every environment and every amount. Without a usable environment
  // nothing is credited. With one, despite the truncation, the guard decides on the
  // exact values: it accepts exactly the plain amounts worth at least the configured
  // minimum, and names that minimum to the others.
  lemma GuardIsExact(env: Option<string>, amount: string)
    ensures var verdict := CheckDepositMinimum(env, amount);
            var usable :=
              && env.Some?
              && IsPlain(Trim(env.value))
              && |FracPart(Trim(env.value))| <= 6
              && AtMost(Scaled(1, -6), PlainValue(Trim(env.value)));
            && (verdict == MinimumNotConfigured <==> !usable)
            && (verdict == AmountInvalid <==> usable && !IsPlain(amount))
            && (verdict == Accepted <==>
                  usable && IsPlain(amount) && AtMost(PlainValue(Trim(env.value)), PlainValue(amount)))
            && (verdict.BelowMinimum? <==>
                  usable && IsPlain(amount) && !AtMost(PlainValue(Trim(env.value)), PlainValue(amount)))
            && (verdict.BelowMinimum? ==>
                  && ToMicroUsd(verdict.minimumUsdc).Some?
                  && SameValue(Micros(ToMicroUsd(verdict.minimumUsdc).value), PlainValue(Trim(env.value))))
  {
    hide IsPlain, AtMost, ToMicroUsd, FormatMicroUsd;
    MinimumIsExact(env);
    if ResolveMinimum(env).Some? {
      ComparedWithMinimum(env, amount);
      FormatThenParse(ResolveMinimum(env).value);
    }
  }

  lemma ComparedWithMinimum(env: Option<string>, amount: string)
    requires ResolveMinimum(env).Some?
    ensures ToMicroUsd(amount).Some? <==> IsPlain(amount)
    ensures IsPlain(amount) ==>
              (ResolveMinimum(env).value <= ToMicroUsd(amount).value <==>
               AtMost(PlainValue(Trim(env.value)), PlainValue(amount)))
  {
    hide ResolveMinimum, ToMicroUsd, IsPlain, AtMost, SameValue;
    MinimumIsExact(env);
    ToMicroUsdIsFloor(amount);
    if IsPlain(amount) {
      var least, minimum := PlainValue(Trim(env.value)), Micros(ResolveMinimum(env).value);
      SameOrder(minimum, least);
      if AtMost(minimum, PlainValue(amount)) { AtMostIsTransitive(least, minimum, PlainValue(amount)); }
      if AtMost(least, PlainValue(amount)) { AtMostIsTransitive(minimum, least, PlainValue(amount)); }
    }
  }

  lemma SameOrder(a: Scaled, b: Scaled)
    requires SameValue(a, b)
    ensures AtMost(a, b) && AtMost(b, a)
  {
  }

  // What the operator is told of the environment: absent when it is blank, invalid when
  // it is not blank and not usable.
  lemma EnvStatusIsExact(env: Option<string>)
    ensures ClassifyEnv(env).Absent? <==> env.None? || Trim(env.value) == ""
    ensures ClassifyEnv(env).Configured? <==> ResolveMinimum(env).Some?
    ensures ClassifyEnv(env).Invalid? ==> ClassifyEnv(env).raw == Trim(env.value)
  {
  }

  // ---- printing and parsing ----

  lemma FractionText(r: nat) returns (text: string, trimmed: string)
    requires r < SCALE
    ensures text == NumberText(r) && trimmed == DropTrailingZeros(PadStart(text))
    ensures AllDigits(trimmed) && |trimmed| <= SCALE_DECIMALS
    ensures Number(PadEnd(trimmed)) == r
  {
    text := NumberText(r);
    assert Pow(10, 3) == 1000 && Pow(10, 6) == 1000 * Pow(10, 3);
    NumberTextLength(r, SCALE_DECIMALS);
    var zeros := Repeat('0', SCALE_DECIMALS - |text|);
    assert PadStart(text) == zeros + text;
    NumberWithLeadingZeros(SCALE_DECIMALS - |text|, text);
    trimmed := TrimmedDigits(zeros + text);
  }

  // Cutting the trailing zeros and padding them back changes nothing.
  lemma TrimmedDigits(six: string) returns (trimmed: string)
    requires |six| == SCALE_DECIMALS && AllDigits(six)
    ensures trimmed == DropTrailingZeros(six)
    ensures AllDigits(trimmed) && PadEnd(trimmed) == six
  {
    trimmed := DropTrailingZeros(six);
    assert six == trimmed + six[|trimmed|..];
    assert six[|trimmed|..] == Repeat('0', SCALE_DECIMALS - |trimmed|);
  }

  lemma ParseParts(whole: string, frac: string, micro: nat)
    requires AllDigits(whole) && |frac| <= SCALE_DECIMALS && AllDigits(frac)
    requires Number(whole) == micro / SCALE && Number(PadEnd(frac)) == micro % SCALE
    ensures MicrosOfParts(whole, frac) == micro
  {
  }

  lemma FormattedParts(micro: nat) returns (text: string, whole: string, frac: string)
    ensures text == FormatMicroUsd(micro)
    ensures IsPlain(text) && WholePart(text) == whole && FracPart(text) == frac
    ensures |frac| <= SCALE_DECIMALS && MicrosOfParts(whole, frac) == micro
  {
    var six;
    whole := NumberText(micro / SCALE);
    six, frac := FractionText(micro % SCALE);
    ParseParts(whole, frac, micro);
    text := FormatMicroUsd(micro);
    if frac == "" {
      PlainOfWhole(whole);
    } else {
      PlainOfParts(whole, frac);
    }
  }

  // What is printed is a plain decimal of at most six decimals that parses back
  // to the same amount, for every amount.
  lemma FormatThenParse(micro: nat)
    ensures IsPlain(FormatMicroUsd(micro)) && |FracPart(FormatMicroUsd(micro))| <= SCALE_DECIMALS
    ensures ToMicroUsd(FormatMicroUsd(micro)) == Some(micro)
  {
    var text, whole, frac := FormattedParts(micro);
  }

  lemma PlainIsTrimmed(s: string)
    requires IsPlain(s)
    ensures Trim(s) == s
  {
    TrimIsFixed(s);
    var whole, frac := WholePart(s), FracPart(s);
    assert s[0] == whole[0];
    if frac != "" { assert s[|s| - 1] == frac[|frac| - 1]; } else { assert s == whole; }
  }

  lemma FormattedAsConfiguration(micro: nat)
    requires micro > 0
    ensures ResolveMinimum(Some(FormatMicroUsd(micro))) == Some(micro)
  {
    FormatThenParse(micro);
    PlainIsTrimmed(FormatMicroUsd(micro));
  }

  // A printed amount is judged by its number alone.
  lemma FormattedAsAmount(env: Option<string>, micro: nat)
    requires ResolveMinimum(env).Some?
    ensures micro >= ResolveMinimum(env).value ==>
              CheckDepositMinimum(env, FormatMicroUsd(micro)) == Accepted
    ensures micro < ResolveMinimum(env).value ==>
              CheckDepositMinimum(env, FormatMicroUsd(micro)) ==
              BelowMinimum(FormatMicroUsd(ResolveMinimum(env).value))
  {
    FormatThenParse(micro);
  }

  // The minimum the gateway publishes is a value it would itself accept as its
  // configuration, it is enough to be credited, and one micro-dollar less is not.
  lemma PublishedMinimum(env: Option<string>) returns (less: nat)
    requires ResolveMinimum(env).Some?
    ensures ClassifyEnv(env).Configured? && ClassifyEnv(env).microUsd == ResolveMinimum(env).value
    ensures ResolveMinimum(Some(ClassifyEnv(env).usdc)) == ResolveMinimum(env)
    ensures CheckDepositMinimum(env, ClassifyEnv(env).usdc) == Accepted
    ensures less + 1 == ResolveMinimum(env).value
    ensures CheckDepositMinimum(env, FormatMicroUsd(less)) == BelowMinimum(ClassifyEnv(env).usdc)
  {
    var minimum := ResolveMinimum(env).value;
    less := minimum - 1;
    FormattedAsConfiguration(minimum);
    FormattedAsAmount(env, minimum);
    FormattedAsAmount(env, less);
  }

  // No two amounts are printed alike.
  lemma FormatIsInjective(a: nat, b: nat)
    ensures FormatMicroUsd(a) == FormatMicroUsd(b) <==> a == b
  {
    FormatThenParse(a);
    FormatThenParse(b);
  }
}
