// The string operations of the source's language: search, trim, lower-casing,
// `split` and `join`.
module Text {

  // `indexOf` from a given position: the first occurrence, or -1.
  function IndexFrom(s: string, c: char, from: nat): (k: int)
    requires from <= |s|
    ensures k == -1 || (from <= k < |s| && s[k] == c)
    decreases |s| - from
  {
    if from == |s| then -1 else if s[from] == c then from else IndexFrom(s, c, from + 1)
  }

  function IndexOf(s: string, c: char): (k: int)
    ensures k == -1 || (0 <= k < |s| && s[k] == c)
  {
    IndexFrom(s, c, 0)
  }

  lemma {:induction false} IndexFromIsFirst(s: string, c: char, from: nat)
    requires from <= |s|
    ensures var k := IndexFrom(s, c, from);
            forall i :: from <= i < (if k == -1 then |s| else k) ==> s[i] != c
    decreases |s| - from
  {
    if from < |s| && s[from] != c { IndexFromIsFirst(s, c, from + 1); }
  }

  // The white space and line terminators that `trim` removes.
  predicate IsSpace(c: char) {
    var n := c as int;
    || 9 <= n <= 13 || n == 32 || n == 0xA0 || n == 0x1680 || 0x2000 <= n <= 0x200A
    || n == 0x2028 || n == 0x2029 || n == 0x202F || n == 0x205F || n == 0x3000 || n == 0xFEFF
  }

  function TrimStart(s: string): string {
    if |s| > 0 && IsSpace(s[0]) then TrimStart(s[1..]) else s
  }

  function TrimEnd(s: string): string {
    if |s| > 0 && IsSpace(s[|s| - 1]) then TrimEnd(s[..|s| - 1]) else s
  }

  function Trim(s: string): string { TrimEnd(TrimStart(s)) }

  predicate NoSpaceAtEnds(s: string) {
    |s| > 0 ==> !IsSpace(s[0]) && !IsSpace(s[|s| - 1])
  }

  // A string without white space at its ends is its own trim, and a trim has none.
  lemma {:induction false} TrimIsFixed(s: string)
    ensures NoSpaceAtEnds(s) <==> Trim(s) == s
    ensures NoSpaceAtEnds(Trim(s))
  {
    TrimStartShape(s);
    TrimEndShape(TrimStart(s));
  }

  lemma {:induction false} TrimStartShape(s: string)
    ensures |TrimStart(s)| <= |s|
    ensures |TrimStart(s)| > 0 ==> !IsSpace(TrimStart(s)[0])
    ensures |s| > 0 ==> (IsSpace(s[0]) <==> |TrimStart(s)| < |s|)
    ensures |TrimStart(s)| == |s| ==> TrimStart(s) == s
  {
    if |s| > 0 && IsSpace(s[0]) { TrimStartShape(s[1..]); }
  }

  lemma {:induction false} TrimEndShape(s: string)
    ensures |TrimEnd(s)| <= |s| && TrimEnd(s) == s[..|TrimEnd(s)|]
    ensures |TrimEnd(s)| > 0 ==> !IsSpace(TrimEnd(s)[|TrimEnd(s)| - 1])
    ensures |s| > 0 ==> (IsSpace(s[|s| - 1]) <==> |TrimEnd(s)| < |s|)
  {
    if |s| > 0 && IsSpace(s[|s| - 1]) { TrimEndShape(s[..|s| - 1]); }
  }

  // Trimming never reaches past a character that is not white space.
  lemma TrimKeepsFirst(s: string)
    requires |s| > 0 && !IsSpace(s[0])
    ensures Trim(s) != ""
  {
    TrimEndKeeps(s);
  }

  lemma {:induction false} TrimEndKeeps(s: string)
    requires |s| > 0 && !IsSpace(s[0])
    ensures TrimEnd(s) != ""
  {
    if IsSpace(s[|s| - 1]) { TrimEndKeeps(s[..|s| - 1]); }
  }

  lemma {:induction false} TrimIsPart(s: string)
    ensures forall c :: c in Trim(s) ==> c in s
  {
    TrimEndShape(TrimStart(s));
    TrimStartIsSuffix(s);
  }

  lemma {:induction false} TrimStartIsSuffix(s: string)
    ensures |TrimStart(s)| <= |s| && TrimStart(s) == s[|s| - |TrimStart(s)|..]
  {
    if |s| > 0 && IsSpace(s[0]) { TrimStartIsSuffix(s[1..]); }
  }

  // ASCII lower-casing, character by character.
  function LowerChar(c: char): char {
    if 'A' <= c <= 'Z' then (c as int + 32) as char else c
  }

  function Lower(s: string): (r: string)
    ensures |r| == |s| && forall i :: 0 <= i < |s| ==> r[i] == LowerChar(s[i])
  {
    seq(|s|, i requires 0 <= i < |s| => LowerChar(s[i]))
  }

  // `split` on one separator: always at least one part.
  function Split(s: string, sep: char): (parts: seq<string>)
    ensures |parts| > 0
  {
    if |s| == 0 then [""]
    else
      var rest := Split(s[1..], sep);
      if s[0] == sep then [""] + rest else [[s[0]] + rest[0]] + rest[1..]
  }

  function Join(parts: seq<string>, sep: char): string {
    if |parts| == 0 then "" else if |parts| == 1 then parts[0]
    else parts[0] + [sep] + Join(parts[1..], sep)
  }

  // A prefix free of the separator is one part of its own.
  lemma {:induction false} SplitPrefix(a: string, b: string, sep: char)
    requires sep !in a
    ensures Split(a + [sep] + b, sep) == [a] + Split(b, sep)
    ensures Split(a, sep) == [a]
  {
    var s := a + [sep] + b;
    if |a| == 0 {
      assert s[1..] == b;
    } else {
      SplitPrefix(a[1..], b, sep);
      assert s[1..] == a[1..] + [sep] + b;
      assert [a[0]] + a[1..] == a;
    }
  }

  // No part of a split contains the separator, and joining them gives s back.
  lemma {:induction false} JoinSplit(s: string, sep: char)
    ensures Join(Split(s, sep), sep) == s
    ensures forall i :: 0 <= i < |Split(s, sep)| ==> sep !in Split(s, sep)[i]
  {
    SplitParts(s, sep);
    if |s| == 0 {
    } else {
      var rest := Split(s[1..], sep);
      JoinSplit(s[1..], sep);
      assert s == [s[0]] + s[1..];
      if s[0] == sep {
        assert Split(s, sep)[1..] == rest;
      } else {
        assert Split(s, sep)[1..] == rest[1..];
        assert |rest| > 1 ==> Join(rest, sep) == rest[0] + [sep] + Join(rest[1..], sep);
      }
    }
  }

  lemma {:induction false} SplitParts(s: string, sep: char)
    ensures forall i :: 0 <= i < |Split(s, sep)| ==> sep !in Split(s, sep)[i]
  {
    if |s| == 0 {
    } else {
      var parts, rest := Split(s, sep), Split(s[1..], sep);
      SplitParts(s[1..], sep);
      forall i | 0 <= i < |parts| ensures sep !in parts[i] {
        if i > 0 { assert parts[i] == if s[0] == sep then rest[i - 1] else rest[i]; }
      }
    }
  }

  // Splitting gives a list back exactly when no entry contains the separator.
  lemma {:induction false} SplitJoin(parts: seq<string>, sep: char)
    requires |parts| > 0
    ensures Split(Join(parts, sep), sep) == parts <==> forall i :: 0 <= i < |parts| ==> sep !in parts[i]
  {
    if forall i :: 0 <= i < |parts| ==> sep !in parts[i] {
      SplitPrefix(parts[0], if |parts| > 1 then Join(parts[1..], sep) else "", sep);
      if |parts| > 1 {
        SplitJoin(parts[1..], sep);
        assert [parts[0]] + parts[1..] == parts;
      }
    } else if Split(Join(parts, sep), sep) == parts {
      JoinSplit(Join(parts, sep), sep);
    }
  }

  // Splitting undoes joining up to the last entry, which may be split further.
  lemma {:induction false} SplitJoinLast(parts: seq<string>, last: string, sep: char)
    requires forall i :: 0 <= i < |parts| ==> sep !in parts[i]
    ensures Split(Join(parts + [last], sep), sep) == parts + Split(last, sep)
  {
    hide Split;
    if |parts| > 0 {
      var rest := parts[1..] + [last];
      SplitJoinLast(parts[1..], last, sep);
      assert (parts + [last])[1..] == rest;
      SplitPrefix(parts[0], Join(rest, sep), sep);
      assert [parts[0]] + (parts[1..] + Split(last, sep)) == parts + Split(last, sep);
    } else {
      assert parts + [last] == [last];
    }
  }

  // An entry that contains the separator joins like two entries.
  lemma {:induction false} JoinFlattens(front: seq<string>, a: string, b: string, back: seq<string>, sep: char)
    ensures Join(front + [a + [sep] + b] + back, sep) == Join(front + [a, b] + back, sep)
  {
    var one, two := front + [a + [sep] + b] + back, front + [a, b] + back;
    if |front| > 0 {
      JoinFlattens(front[1..], a, b, back, sep);
      assert one[1..] == front[1..] + [a + [sep] + b] + back;
      assert two[1..] == front[1..] + [a, b] + back;
    } else {
      assert one[1..] == back && two[1..] == [b] + back && two[1..][1..] == back;
    }
  }
}
