// test/readme-numbers.test.ts: the compiler from file globs to regular
// expressions, against a direct reading of the glob.
module Glob {
  import opened Wrappers
  import opened Text
  import opened Regex

  // ---- the compiler ----

  // The characters `c.replace(/[.+^${}()|[\]\\]/g, '\\$&')` escapes.
  predicate IsEscaped(c: char) { IsSyntax(c) && c != '*' && c != '?' }

  function EscapeChar(c: char): string { if IsEscaped(c) then ['\\', c] else [c] }

  function EscapeAll(s: string): string {
    if s == "" then "" else EscapeChar(s[0]) + EscapeAll(s[1..])
  }

  function EscapeEach(alts: seq<string>): (r: seq<string>)
    ensures |r| == |alts| && forall i :: 0 <= i < |alts| ==> r[i] == EscapeAll(alts[i])
  {
    seq(|alts|, i requires 0 <= i < |alts| => EscapeAll(alts[i]))
  }

  lemma {:induction false} SplitIsShorter(s: string, sep: char)
    ensures forall i :: 0 <= i < |Split(s, sep)| ==> |Split(s, sep)[i]| <= |s|
  {
    if s == "" {
    } else {
      SplitIsShorter(s[1..], sep);
    }
  }

  // The construct a glob starts with, and how many of its characters it takes.
  datatype Token =
    | Segments               // **/
    | Anything               // **
    | WithinSegment          // *
    | OneChar                // ?
    | OneOf(alts: seq<string>) // {a,b}
    | Exactly(c: char)

  function FirstToken(g: string): (t: (Token, nat))
    requires g != ""
    ensures 0 < t.1 <= |g|
    ensures t.0.OneOf? ==> |t.0.alts| > 0 && forall i :: 0 <= i < |t.0.alts| ==> |t.0.alts[i]| < |g|
  {
    if g[0] == '*' then
      if |g| > 1 && g[1] == '*' then
        if |g| > 2 && g[2] == '/' then (Segments, 3) else (Anything, 2)
      else (WithinSegment, 1)
    else if g[0] == '?' then (OneChar, 1)
    else
      var close := IndexOf(g, '}');
      if g[0] == '{' && close > 0 then
        SplitIsShorter(g[1..close], ',');
        (OneOf(Split(g[1..close], ',')), close + 1)
      else (Exactly(g[0]), 1)
  }

  function EmitToken(t: Token): string {
    match t
    case Segments => "(?:[^/]+/)*"
    case Anything => ".*"
    case WithinSegment => "[^/]*"
    case OneChar => "[^/]"
    case OneOf(alts) => "(?:" + Join(EscapeEach(alts), '|') + ")"
    case Exactly(c) => EscapeChar(c)
  }

  function Emit(g: string): string {
    if g == "" then ""
    else
      var (t, n) := FirstToken(g);
      EmitToken(t) + Emit(g[n..])
  }

  // One turn of the loop: the text appended for the construct at position i, and
  // the position the loop goes on from.
  method TranslateAt(glob: string, i: nat) returns (piece: string, next: nat)
    requires i < |glob|
    ensures piece == EmitToken(FirstToken(glob[i..]).0) && next == i + FirstToken(glob[i..]).1
  {
    ghost var rest := glob[i..];
    var c := glob[i];
    next := i + 1;
    if c == '*' {
      if i + 1 < |glob| && glob[i + 1] == '*' {
        if i + 2 < |glob| && glob[i + 2] == '/' {
          return "(?:[^/]+/)*", i + 3;
        }
        return ".*", i + 2;
      }
      return "[^/]*", next;
    }
    if c == '?' {
      return "[^/]", next;
    }
    IndexOfSuffix(glob, '}', i);
    if c == '{' {
      var close := IndexFrom(glob, '}', i);
      if close != -1 {
        var alts := Split(glob[i + 1..close], ',');
        assert glob[i + 1..close] == rest[1..close - i];
        return "(?:" + Join(EscapeEach(alts), '|') + ")", close + 1;
      }
    }
    piece := EscapeChar(c);
  }

  method GlobToRegExp(glob: string) returns (re: string)
    ensures re == "^" + Emit(glob) + "$"
  {
    hide EmitToken, FirstToken;
    re := "^";
    var i := 0;
    while i < |glob|
      invariant 0 <= i <= |glob|
      invariant re + Emit(glob[i..]) == "^" + Emit(glob)
    {
      var piece, next := TranslateAt(glob, i);
      EmitStep(glob[i..]);
      assert re + (piece + Emit(glob[next..])) == re + piece + Emit(glob[next..]);
      assert glob[i..][next - i..] == glob[next..];
      re := re + piece;
      i := next;
    }
    re := re + "$";
  }

  lemma EmitStep(g: string)
    requires g != ""
    ensures Emit(g) == EmitToken(FirstToken(g).0) + Emit(g[FirstToken(g).1..])
  {
  }

  lemma {:induction false} IndexOfSuffix(s: string, c: char, i: nat)
    requires i <= |s|
    ensures IndexFrom(s, c, i) == if IndexOf(s[i..], c) == -1 then -1 else i + IndexOf(s[i..], c)
  {
    IndexFromShift(s, c, i, 0);
  }

  lemma {:induction false} IndexFromShift(s: string, c: char, i: nat, from: nat)
    requires i + from <= |s|
    ensures IndexFrom(s, c, i + from) ==
            if IndexFrom(s[i..], c, from) == -1 then -1 else i + IndexFrom(s[i..], c, from)
    decreases |s| - from
  {
    if i + from < |s| && s[i + from] != c { IndexFromShift(s, c, i, from + 1); }
  }

  // ---- what a glob means ----

  // Zero or more whole path segments, each non-empty and closed by a slash.
  predicate WholeSegments(p: string) {
    p != "" ==> p[|p| - 1] == '/' && p[0] != '/' && forall i :: 0 < i < |p| ==> !(p[i - 1] == '/' && p[i] == '/')
  }

  predicate NoSlash(p: string) { forall i :: 0 <= i < |p| ==> p[i] != '/' }

  // A direct reading of the glob. The alternatives of a brace are globs again.
  ghost predicate GlobMatches(g: string, p: string)
    decreases |g|
  {
    if g == "" then p == ""
    else
      var (t, n) := FirstToken(g);
      match t
      case Segments => exists k :: 0 <= k <= |p| && WholeSegments(p[..k]) && GlobMatches(g[n..], p[k..])
      case Anything => exists k :: 0 <= k <= |p| && GlobMatches(g[n..], p[k..])
      case WithinSegment => exists k :: 0 <= k <= |p| && NoSlash(p[..k]) && GlobMatches(g[n..], p[k..])
      case OneChar => p != "" && p[0] != '/' && GlobMatches(g[n..], p[1..])
      case OneOf(alts) =>
        exists i, k :: 0 <= i < |alts| && 0 <= k <= |p|
                       && GlobMatches(alts[i], p[..k]) && GlobMatches(g[n..], p[k..])
      case Exactly(c) => p != "" && p[0] == c && GlobMatches(g[n..], p[1..])
  }

  // The reading, construct by construct, on the text of the glob: stars first. Three
  // ways to write them are told apart by what follows.
  lemma StarsRead(rest: string, p: string)
    ensures GlobMatches("**/" + rest, p) <==>
              exists k :: 0 <= k <= |p| && WholeSegments(p[..k]) && GlobMatches(rest, p[k..])
    ensures rest == "" || rest[0] != '/' ==>
              (GlobMatches("**" + rest, p) <==> exists k :: 0 <= k <= |p| && GlobMatches(rest, p[k..]))
    ensures rest == "" || rest[0] != '*' ==>
              (GlobMatches("*" + rest, p) <==>
                 exists k :: 0 <= k <= |p| && NoSlash(p[..k]) && GlobMatches(rest, p[k..]))
  {
    hide GlobMatches, WholeSegments, NoSlash;
    SegmentsRead(rest, p);
    if rest == "" || rest[0] != '/' { AnythingRead(rest, p); }
    if rest == "" || rest[0] != '*' { WithinRead(rest, p); }
  }

  lemma SegmentsRead(rest: string, p: string)
    ensures GlobMatches("**/" + rest, p) <==>
              exists k :: 0 <= k <= |p| && WholeSegments(p[..k]) && GlobMatches(rest, p[k..])
  {
    hide WholeSegments, NoSlash, Split;
    var g := "**/" + rest;
    assert g[3..] == rest && FirstToken(g) == (Segments, 3);
  }

  lemma AnythingRead(rest: string, p: string)
    requires rest == "" || rest[0] != '/'
    ensures GlobMatches("**" + rest, p) <==> exists k :: 0 <= k <= |p| && GlobMatches(rest, p[k..])
  {
    hide WholeSegments, NoSlash, Split;
    var g := "**" + rest;
    assert g[2..] == rest && FirstToken(g) == (Anything, 2);
  }

  lemma WithinRead(rest: string, p: string)
    requires rest == "" || rest[0] != '*'
    ensures GlobMatches("*" + rest, p) <==>
              exists k :: 0 <= k <= |p| && NoSlash(p[..k]) && GlobMatches(rest, p[k..])
  {
    hide WholeSegments, NoSlash, Split;
    var g := "*" + rest;
    assert g[1..] == rest && FirstToken(g) == (WithinSegment, 1);
  }

  // Then a question mark, and every other character outside a brace group.
  lemma CharactersRead(c: char, rest: string, p: string)
    requires c != '*' && (c == '{' ==> '}' !in rest)
    ensures GlobMatches([c] + rest, p) <==>
              p != "" && (if c == '?' then p[0] != '/' else p[0] == c) && GlobMatches(rest, p[1..])
  {
    var g := [c] + rest;
    assert g[1..] == rest;
    IndexFromIsFirst(g, '}', 0);
    if c == '{' { assert forall i :: 0 < i < |g| ==> g[i] == rest[i - 1]; }
  }

  // And a brace group: one of its comma-separated alternatives, itself read as a glob.
  lemma BracesRead(inner: string, rest: string, p: string)
    requires '}' !in inner
    ensures GlobMatches("{" + inner + "}" + rest, p) <==>
              exists i, k :: 0 <= i < |Split(inner, ',')| && 0 <= k <= |p|
                             && GlobMatches(Split(inner, ',')[i], p[..k]) && GlobMatches(rest, p[k..])
  {
    hide Split;
    var g, close := "{" + inner + "}" + rest, |inner| + 1;
    IndexFromIsFirst(g, '}', 0);
    assert forall i :: 0 <= i < |inner| ==> g[i + 1] == inner[i];
    assert g[close] == '}' && forall i :: 0 <= i < close ==> g[i] != '}';
    assert g[1..close] == inner && g[close + 1..] == rest;
    assert FirstToken(g) == (OneOf(Split(inner, ',')), close + 1);
  }
}
