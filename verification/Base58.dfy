// src/lib/ed25519.ts: the base-58 decoder and the length gates in front of the
// Ed25519 check.
module Base58 {
  import opened Wrappers
  import opened Positional
  import opened Text

  const ALPHABET: string := "123456789" + "ABCDEFGH" + "JKLMN" + "PQRSTUVWXYZ" + "abcdefghijk" + "mnopqrstuvwxyz"

  const PUBKEY_BYTES := 32
  const SIGNATURE_BYTES := 64

  function DigitOf(c: char): int { IndexOf(ALPHABET, c) }

  predicate IsBase58(s: string) {
    |s| > 0 && forall i :: 0 <= i < |s| ==> DigitOf(s[i]) >= 0
  }

  function DigitsOf(s: string): (d: seq<int>)
    requires forall i :: 0 <= i < |s| ==> DigitOf(s[i]) >= 0
    ensures |d| == |s| && Digits(d, 58)
    ensures forall i :: 0 <= i < |s| ==> d[i] == DigitOf(s[i])
  {
    assert |ALPHABET| == 58;
    seq(|s|, i requires 0 <= i < |s| => DigitOf(s[i]))
  }

  function CharsOf(d: seq<int>): (s: string)
    requires Digits(d, 58)
    ensures |s| == |d| && forall i :: 0 <= i < |d| ==> s[i] == ALPHABET[d[i]]
  {
    assert |ALPHABET| == 58;
    seq(|d|, i requires 0 <= i < |d| => ALPHABET[d[i]])
  }

  // The character codes of the alphabet, run by run.
  function CodeOf(k: nat): int {
    if k < 9 then 49 + k          // '1'..'9'
    else if k < 17 then 56 + k    // 'A'..'H'
    else if k < 22 then 57 + k    // 'J'..'N'
    else if k < 33 then 58 + k    // 'P'..'Z'
    else if k < 44 then 64 + k    // 'a'..'k'
    else 65 + k                   // 'm'..'z'
  }

  lemma AlphabetCodes(k: nat)
    requires k < 58
    ensures |ALPHABET| == 58 && ALPHABET[k] as int == CodeOf(k)
  {
    if k < 9 { assert ALPHABET[k] == "123456789"[k]; }
    else if k < 17 { assert ALPHABET[k] == "ABCDEFGH"[k - 9]; }
    else if k < 22 { assert ALPHABET[k] == "JKLMN"[k - 17]; }
    else if k < 33 { assert ALPHABET[k] == "PQRSTUVWXYZ"[k - 22]; }
    else if k < 44 { assert ALPHABET[k] == "abcdefghijk"[k - 33]; }
    else { assert ALPHABET[k] == "mnopqrstuvwxyz"[k - 44]; }
  }

  // No character occurs twice, so a digit's character names that digit only.
  lemma DigitOfAlphabet(k: nat)
    requires k < 58
    ensures |ALPHABET| == 58 && DigitOf(ALPHABET[k]) == k
  {
    var j := DigitOf(ALPHABET[k]);
    AlphabetCodes(k);
    IndexFromIsFirst(ALPHABET, ALPHABET[k], 0);
    if 0 <= j < 58 { AlphabetCodes(j); }
  }

  lemma CharsAndDigitsAreInverse(s: string, d: seq<int>)
    requires forall i :: 0 <= i < |s| ==> DigitOf(s[i]) >= 0
    requires Digits(d, 58)
    ensures CharsOf(DigitsOf(s)) == s
    ensures forall i :: 0 <= i < |d| ==> DigitOf(CharsOf(d)[i]) >= 0
    ensures DigitsOf(CharsOf(d)) == d
  {
    forall i | 0 <= i < |d|
      ensures DigitOf(CharsOf(d)[i]) == d[i]
    {
      DigitOfAlphabet(d[i]);
    }
  }

  // ---- the carry loop ----

  // The number a little-endian accumulator stands for.
  function LittleEndian(acc: seq<int>): int {
    if |acc| == 0 then 0 else acc[0] + 256 * LittleEndian(acc[1..])
  }

  // Top byte non-zero: the accumulator never carries a useless high byte.
  predicate Minimal(acc: seq<int>) {
    Digits(acc, 256) && (|acc| > 0 ==> acc[|acc| - 1] != 0)
  }

  // One pass of the inner loops, as a function: 58 * acc + carry.
  function MulAdd(acc: seq<int>, carry: nat): seq<int>
    requires Digits(acc, 256)
    decreases |acc|, carry
  {
    if |acc| > 0 then
      var t := carry + acc[0] * 58;
      [t % 256] + MulAdd(acc[1..], t / 256)
    else if carry > 0 then
      [carry % 256] + MulAdd([], carry / 256)
    else []
  }

  lemma {:induction false} MulAddMeaning(acc: seq<int>, carry: nat)
    requires Minimal(acc) && carry <= 57
    ensures Minimal(MulAdd(acc, carry))
    ensures LittleEndian(MulAdd(acc, carry)) == 58 * LittleEndian(acc) + carry
    ensures |acc| > 0 ==> |MulAdd(acc, carry)| > 0
  {
    if |acc| > 0 {
      var t := carry + acc[0] * 58;
      var rest := MulAdd(acc[1..], t / 256);
      MulAddMeaning(acc[1..], t / 256);
      assert MulAdd(acc, carry) == [t % 256] + rest;
      assert ([t % 256] + rest)[1..] == rest;
      if |acc| == 1 && t / 256 == 0 { assert rest == []; }
    } else if carry > 0 {
      assert MulAdd([], carry) == [carry] + MulAdd([], 0) == [carry];
    }
  }

  function Reverse(s: seq<int>): (r: seq<int>)
    ensures |r| == |s| && forall i :: 0 <= i < |s| ==> r[i] == s[|s| - 1 - i]
  {
    seq(|s|, i requires 0 <= i < |s| => s[|s| - 1 - i])
  }

  lemma {:induction false} ReverseIsBigEndian(acc: seq<int>)
    ensures Value(Reverse(acc), 256) == LittleEndian(acc)
  {
    if |acc| == 0 {
    } else {
      var r := Reverse(acc);
      assert r[..|r| - 1] == Reverse(acc[1..]);
      ReverseIsBigEndian(acc[1..]);
    }
  }

  // The reference: radix conversion of the whole string at once.
  function Decoded(s: string): Option<seq<int>> {
    if IsBase58(s) then Some(Convert(DigitsOf(s), 58, 256)) else None
  }

  lemma MulAddStep(acc: seq<int>, j: nat, carry: nat)
    requires j < |acc| && Digits(acc, 256)
    ensures var t := carry + acc[j] * 58;
            var next := acc[j := t % 256];
            acc[..j] + MulAdd(acc[j..], carry) == next[..j + 1] + MulAdd(next[j + 1..], t / 256)
  {
    var t := carry + acc[j] * 58;
    var next, rest := acc[j := t % 256], acc[j..];
    assert next[j + 1..] == rest[1..] && next[..j + 1] == acc[..j] + [t % 256];
    assert MulAdd(rest, carry) == [t % 256] + MulAdd(rest[1..], t / 256);
  }

  // The two inner loops: carry one digit through the accumulator.
  method CarryDigit(before: seq<int>, digit: nat) returns (acc: seq<int>)
    requires Digits(before, 256) && digit <= 57
    ensures acc == MulAdd(before, digit)
  {
    acc := before;
    var carry := digit;
    var j := 0;
    while j < |acc|
      invariant 0 <= j <= |acc|
      invariant 0 <= carry <= 57
      invariant Digits(acc, 256)
      invariant acc[..j] + MulAdd(acc[j..], carry) == MulAdd(before, digit)
    {
      MulAddStep(acc, j, carry);
      carry := carry + acc[j] * 58;
      acc := acc[j := carry % 256];
      carry := carry / 256;
      j := j + 1;
    }
    assert acc[..j] == acc && acc[j..] == [];
    while carry > 0
      invariant carry >= 0
      invariant acc + MulAdd([], carry) == MulAdd(before, digit)
    {
      assert MulAdd([], carry) == [carry % 256] + MulAdd([], carry / 256);
      acc := acc + [carry % 256];
      carry := carry / 256;
    }
  }

  lemma AppendDigit(s: string, i: nat)
    requires i < |s| && forall k :: 0 <= k <= i ==> DigitOf(s[k]) >= 0
    ensures Value(DigitsOf(s[..i + 1]), 58) == 58 * Value(DigitsOf(s[..i]), 58) + DigitOf(s[i])
  {
    assert DigitsOf(s[..i + 1])[..i] == DigitsOf(s[..i]);
  }

  method Decode(s: string) returns (r: Option<seq<int>>)
    ensures r == Decoded(s)
  {
    if |s| == 0 {
      return None;
    }
    var acc: seq<int> := [];
    for i := 0 to |s|
      invariant forall k :: 0 <= k < i ==> DigitOf(s[k]) >= 0
      invariant Minimal(acc)
      invariant LittleEndian(acc) == Value(DigitsOf(s[..i]), 58)
    {
      var digit := DigitOf(s[i]);
      if digit < 0 {
        return None;
      }
      AppendDigit(s, i);
      MulAddMeaning(acc, digit);
      acc := CarryDigit(acc, digit);
    }
    assert s[..|s|] == s;
    ReversedIsConverted(DigitsOf(s), acc);
    acc := PushZeros(s, acc);
    return Some(Reverse(acc));
  }

  // The last loop: one high-order zero byte per leading '1'.
  method PushZeros(s: string, high: seq<int>) returns (acc: seq<int>)
    requires IsBase58(s)
    ensures acc == high + Zeros(LeadingZeros(DigitsOf(s)))
  {
    OnlyOneIsZero(s);
    acc := high;
    var i := 0;
    while i < |s| && s[i] == '1'
      invariant 0 <= i <= LeadingZeros(DigitsOf(s))
      invariant acc == high + Zeros(i)
    {
      acc := acc + [0];
      i := i + 1;
    }
  }

  // An accumulator with the digits' value, its zeros pushed and then reversed, is
  // the reference conversion.
  lemma ReversedIsConverted(d: seq<int>, high: seq<int>)
    requires Digits(d, 58) && Minimal(high)
    requires LittleEndian(high) == Value(d, 58)
    ensures Convert(d, 58, 256) == Reverse(high + Zeros(LeadingZeros(d)))
  {
    var ones := LeadingZeros(d);
    var bytes := Reverse(high + Zeros(ones));
    assert bytes == Zeros(ones) + Reverse(high);
    LeadingZerosAreFree(ones, Reverse(high), 256);
    CountLeadingZeros(ones, Reverse(high));
    ReverseIsBigEndian(high);
    ConvertMeaning(d, 58, 256);
    ValueAndZerosDetermine(bytes, Convert(d, 58, 256), 256);
  }

  lemma OnlyOneIsZero(s: string)
    ensures forall k :: 0 <= k < |s| ==> (DigitOf(s[k]) == 0 <==> s[k] == '1')
  {
    DigitOfAlphabet(0);
  }

  // ---- what the decoder computes ----

  // Exact value, one zero byte per leading '1', nothing else.
  lemma DecodedMeaning(s: string)
    ensures Decoded(s).Some? <==> IsBase58(s)
    ensures Decoded(s).Some? ==>
              var bytes := Decoded(s).value;
              && |bytes| > 0
              && Digits(bytes, 256)
              && Value(bytes, 256) == Value(DigitsOf(s), 58)
              && LeadingZeros(bytes) == LeadingZeros(DigitsOf(s))
              && (forall k :: 0 <= k < LeadingZeros(bytes) ==> s[k] == '1')
              && (LeadingZeros(bytes) < |s| ==> s[LeadingZeros(bytes)] != '1')
  {
    if IsBase58(s) {
      var d := DigitsOf(s);
      ConvertMeaning(d, 58, 256);
      OnlyOneIsZero(s);
      if d[0] != 0 { ValueBounds(d, 58); }
    }
  }

  // The one text of a byte string.
  function Encoded(bytes: seq<int>): string
    requires Digits(bytes, 256)
  {
    CharsOf(Convert(bytes, 256, 58))
  }

  // Decoding is a bijection from base-58 texts onto non-empty byte strings.
  lemma DecodeEncode(bytes: seq<int>)
    requires Digits(bytes, 256) && |bytes| > 0
    ensures Decoded(Encoded(bytes)) == Some(bytes)
  {
    var d := Convert(bytes, 256, 58);
    CharsAndDigitsAreInverse("", d);
    ConvertRoundTrip(bytes, 256, 58);
    ConvertMeaning(bytes, 256, 58);
    if bytes[0] != 0 { ValueBounds(bytes, 256); }
    assert |d| > 0;
  }

  lemma EncodeDecode(s: string)
    requires IsBase58(s)
    ensures Encoded(Decoded(s).value) == s
  {
    CharsAndDigitsAreInverse(s, []);
    ConvertRoundTrip(DigitsOf(s), 58, 256);
  }

  // No two texts name one key.
  lemma OneTextPerKey(s: string, t: string)
    requires IsBase58(s) && IsBase58(t)
    ensures Decoded(s) == Decoded(t) <==> s == t
  {
    EncodeDecode(s);
    EncodeDecode(t);
  }

  // ---- the length gates ----

  // What `crypto.createPublicKey` + `crypto.verify` may answer.
  datatype CryptoOutcome = Answered(valid: bool) | Threw

  function VerifySignature(message: string, pubkey: string, signature: string,
                           crypto: (string, seq<int>, seq<int>) -> CryptoOutcome): bool
  {
    match (Decoded(pubkey), Decoded(signature))
    case (Some(key), Some(sig)) =>
      |key| == PUBKEY_BYTES && |sig| == SIGNATURE_BYTES && crypto(message, key, sig) == Answered(true)
    case _ => false
  }

  // A signature accepted under a text is accepted under no other text of the
  // same key, and the key and the signature have the sizes Ed25519 fixes.
  lemma AcceptedSignature(message: string, pubkey: string, signature: string,
                          crypto: (string, seq<int>, seq<int>) -> CryptoOutcome)
    ensures VerifySignature(message, pubkey, signature, crypto) <==>
            exists key, sig ::
              && Digits(key, 256) && |key| == 32 && Digits(sig, 256) && |sig| == 64
              && pubkey == Encoded(key) && signature == Encoded(sig)
              && crypto(message, key, sig) == Answered(true)
  {
    if VerifySignature(message, pubkey, signature, crypto) {
      EncodeDecode(pubkey);
      EncodeDecode(signature);
      DecodedMeaning(pubkey);
      DecodedMeaning(signature);
      var key, sig := Decoded(pubkey).value, Decoded(signature).value;
      assert Encoded(key) == pubkey && Encoded(sig) == signature;
    }
    forall key, sig | && Digits(key, 256) && |key| == 32 && Digits(sig, 256) && |sig| == 64
                      && pubkey == Encoded(key) && signature == Encoded(sig)
                      && crypto(message, key, sig) == Answered(true)
      ensures VerifySignature(message, pubkey, signature, crypto)
    {
      DecodeEncode(key);
      DecodeEncode(sig);
    }
  }
}
