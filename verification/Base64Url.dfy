// base64url without padding (section 5 of RFC 4648), with the lenient decoder of
// `Buffer.from(text, 'base64url')`.
module Base64Url {
  import opened Wrappers

  predicate Bytes(b: seq<int>) { forall i :: 0 <= i < |b| ==> 0 <= b[i] < 256 }

  predicate Sextets(d: seq<int>) { forall i :: 0 <= i < |d| ==> 0 <= d[i] < 64 }

  function CharOf(v: int): char
    requires 0 <= v < 64
  {
    if v < 26 then (65 + v) as char          // 'A'..'Z'
    else if v < 52 then (71 + v) as char     // 'a'..'z'
    else if v < 62 then (v - 4) as char      // '0'..'9'
    else if v == 62 then '-' else '_'
  }

  // Both alphabets are read: that of section 4 too.
  function ValueOf(c: char): (v: Option<int>)
    ensures v.Some? ==> 0 <= v.value < 64
  {
    if 'A' <= c <= 'Z' then Some(c as int - 65)
    else if 'a' <= c <= 'z' then Some(c as int - 71)
    else if '0' <= c <= '9' then Some(c as int + 4)
    else if c == '-' || c == '+' then Some(62)
    else if c == '_' || c == '/' then Some(63)
    else None
  }

  // The characters that are read: letters, digits and the two last characters of either
  // alphabet, which stand for the same values.
  lemma ValueMeaning(c: char)
    ensures ValueOf(c).Some? <==>
              || 'A' <= c <= 'Z' || 'a' <= c <= 'z' || '0' <= c <= '9' || c in {'-', '_', '+', '/'}
    ensures ValueOf('+') == ValueOf('-') && ValueOf('/') == ValueOf('_')
  {
  }

  function TextOf(d: seq<int>): (s: string)
    requires Sextets(d)
    ensures |s| == |d| && forall i :: 0 <= i < |d| ==> s[i] == CharOf(d[i])
  {
    seq(|d|, i requires 0 <= i < |d| => CharOf(d[i]))
  }

  // Other characters are skipped, and `=` ends the text.
  function Read(s: string): (d: seq<int>)
    ensures Sextets(d)
  {
    if s == "" || s[0] == '=' then []
    else
      var rest := Read(s[1..]);
      match ValueOf(s[0])
      case Some(v) => [v] + rest
      case None => rest
  }

  // Three bytes as four sextets, and back.
  function Cut(x: int, y: int, z: int): (d: seq<int>)
    requires 0 <= x < 256 && 0 <= y < 256 && 0 <= z < 256
    ensures Sextets(d) && |d| == 4
  {
    [x / 4, x % 4 * 16 + y / 16, y % 16 * 4 + z / 64, z % 64]
  }

  function Glue(d: seq<int>): (b: seq<int>)
    requires Sextets(d) && |d| == 4
    ensures Bytes(b) && |b| == 3
  {
    [d[0] * 4 + d[1] / 16, d[1] % 16 * 16 + d[2] / 4, d[2] % 4 * 64 + d[3]]
  }

  function Group(b: seq<int>): (d: seq<int>)
    requires Bytes(b)
    ensures Sextets(d) && |d| == (|b| * 4 + 2) / 3
  {
    if |b| == 0 then []
    else if |b| == 1 then Cut(b[0], 0, 0)[..2]
    else if |b| == 2 then Cut(b[0], b[1], 0)[..3]
    else Cut(b[0], b[1], b[2]) + Group(b[3..])
  }

  // Bits short of a byte at the end are dropped.
  function Ungroup(d: seq<int>): (b: seq<int>)
    requires Sextets(d)
    ensures Bytes(b)
  {
    if |d| < 2 then []
    else if |d| == 2 then Glue(d + [0, 0])[..1]
    else if |d| == 3 then Glue(d + [0])[..2]
    else Glue(d[..4]) + Ungroup(d[4..])
  }

  function Encode(b: seq<int>): string
    requires Bytes(b)
  {
    TextOf(Group(b))
  }

  function Decode(s: string): (b: seq<int>)
    ensures Bytes(b)
  {
    Ungroup(Read(s))
  }

  lemma GlueCut(x: int, y: int, z: int)
    requires 0 <= x < 256 && 0 <= y < 256 && 0 <= z < 256
    ensures Glue(Cut(x, y, z)) == [x, y, z]
    ensures z == 0 ==> Cut(x, y, z)[3] == 0
    ensures y == 0 && z == 0 ==> Cut(x, y, z)[2] == 0
  {
  }

  lemma {:induction false} UngroupGroup(b: seq<int>)
    requires Bytes(b)
    ensures Ungroup(Group(b)) == b
  {
    hide Cut, Glue;
    if |b| == 1 {
      GlueCut(b[0], 0, 0);
      assert Group(b) + [0, 0] == Cut(b[0], 0, 0);
    } else if |b| == 2 {
      GlueCut(b[0], b[1], 0);
      assert Group(b) + [0] == Cut(b[0], b[1], 0);
    } else if |b| >= 3 {
      var four, rest := Cut(b[0], b[1], b[2]), Group(b[3..]);
      UngroupGroup(b[3..]);
      GlueCut(b[0], b[1], b[2]);
      assert (four + rest)[..4] == four && (four + rest)[4..] == rest;
      assert b == [b[0], b[1], b[2]] + b[3..];
    }
  }

  lemma ValueOfCharOf(v: int)
    requires 0 <= v < 64
    ensures ValueOf(CharOf(v)) == Some(v) && CharOf(v) != '=' && CharOf(v) != '.'
  {
  }

  lemma {:induction false} ReadText(d: seq<int>)
    requires Sextets(d)
    ensures Read(TextOf(d)) == d
  {
    if d == [] {
    } else {
      ReadText(d[1..]);
      ValueOfCharOf(d[0]);
      assert TextOf(d)[1..] == TextOf(d[1..]);
      assert d == [d[0]] + d[1..];
    }
  }

  // Decoding undoes encoding, and an encoding is free of dots.
  lemma DecodeEncode(b: seq<int>)
    requires Bytes(b)
    ensures Decode(Encode(b)) == b && '.' !in Encode(b) && |Encode(b)| == (|b| * 4 + 2) / 3
  {
    UngroupGroup(b);
    ReadText(Group(b));
    forall i | 0 <= i < |Group(b)| ensures Encode(b)[i] != '.' { ValueOfCharOf(Group(b)[i]); }
  }
}
