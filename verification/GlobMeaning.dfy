// A compiled glob matches a path exactly when the glob itself does.
module GlobMeaning {
  import opened Wrappers
  import opened Text
  import opened Regex
  import opened Glob
  import opened GlobParse

  // Paths `.` can match in full: no line terminator.
  predicate OneLine(p: string) { forall i :: 0 <= i < |p| ==> !IsLineTerminator(p[i]) }

  // `new RegExp(source).test(p)`; false where the source does not parse.
  ghost predicate Tests(source: string, p: string) {
    ParseAnchored(source).Some? && Matches(ParseAnchored(source).value, p)
  }

  function Compiled(g: string): string { "^" + Emit(g) + "$" }

  // ---- the meaning of each emitted piece ----

  lemma {:induction false} StarNotSlash(p: string)
    ensures Matches(Star(NotSlash), p) <==> NoSlash(p)
  {
    if p == "" {
    } else {
      StarNotSlash(p[1..]);
      assert NoSlash(p) <==> p[0] != '/' && NoSlash(p[1..]);
      assert Matches(NotSlash, p[..1]) <==> p[0] != '/';
      if k :| 0 < k <= |p| && Matches(NotSlash, p[..k]) && Repeats(NotSlash, p[k..]) { assert k == 1; }
    }
  }

  lemma {:induction false} StarDot(p: string)
    ensures Matches(Star(Dot), p) <==> OneLine(p)
  {
    if p == "" {
    } else {
      StarDot(p[1..]);
      assert OneLine(p) <==> !IsLineTerminator(p[0]) && OneLine(p[1..]);
      assert Matches(Dot, p[..1]) <==> !IsLineTerminator(p[0]);
      if k :| 0 < k <= |p| && Matches(Dot, p[..k]) && Repeats(Dot, p[k..]) { assert k == 1; }
    }
  }

  // One emitted segment: some characters, none a slash, and then a slash.
  lemma SegmentMeaning(s: string)
    ensures Matches(OneSegment(), s) <==> |s| >= 2 && s[|s| - 1] == '/' && NoSlash(s[..|s| - 1])
  {
    if Matches(OneSegment(), s) {
      var k :| 0 <= k <= |s| && Matches(Plus(NotSlash), s[..k]) && Matches(Then(Literal('/'), Empty), s[k..]);
      SlashMeaning(s[k..]);
      PlusMeaning(s[..k]);
    }
    if |s| >= 2 && s[|s| - 1] == '/' && NoSlash(s[..|s| - 1]) {
      PlusMeaning(s[..|s| - 1]);
      SlashMeaning(s[|s| - 1..]);
    }
  }

  lemma SlashMeaning(s: string)
    ensures Matches(Then(Literal('/'), Empty), s) <==> s == "/"
  {
    if s == "/" { assert Matches(Literal('/'), s[..1]) && Matches(Empty, s[1..]); }
  }

  lemma PlusMeaning(s: string)
    ensures Matches(Plus(NotSlash), s) <==> s != "" && NoSlash(s)
  {
    if Matches(Plus(NotSlash), s) {
      var k :| 0 <= k <= |s| && Matches(NotSlash, s[..k]) && Repeats(NotSlash, s[k..]);
      StarNotSlash(s[k..]);
    }
    if s != "" && NoSlash(s) {
      StarNotSlash(s[1..]);
      assert Matches(NotSlash, s[..1]) && Matches(Star(NotSlash), s[1..]);
    }
  }

  lemma {:induction false} StarSegments(p: string)
    ensures Matches(Star(OneSegment()), p) <==> WholeSegments(p)
    decreases |p|
  {
    if p != "" && Repeats(OneSegment(), p) {
      var k :| 0 < k <= |p| && Matches(OneSegment(), p[..k]) && Repeats(OneSegment(), p[k..]);
      SegmentMeaning(p[..k]);
      StarSegments(p[k..]);
      JoinSegments(p, k);
    }
    if p != "" && WholeSegments(p) {
      var k := FirstSlash(p);
      assert p[..k + 1][..k] == p[..k];
      SegmentMeaning(p[..k + 1]);
      StarSegments(p[k + 1..]);
    }
  }

  lemma JoinSegments(p: string, k: nat)
    requires 2 <= k <= |p| && p[k - 1] == '/' && NoSlash(p[..k][..k - 1]) && WholeSegments(p[k..])
    ensures WholeSegments(p)
  {
    assert forall i :: 0 <= i < k - 1 ==> p[..k][..k - 1][i] == p[i];
    assert k < |p| ==> p[k..][0] == p[k] && p[k..][|p| - k - 1] == p[|p| - 1];
    forall i | 0 < i < |p| ensures !(p[i - 1] == '/' && p[i] == '/') {
      if i > k { assert p[k..][i - k] == p[i] && p[k..][i - k - 1] == p[i - 1]; }
    }
  }

  lemma FirstSlash(p: string) returns (k: nat)
    requires p != "" && WholeSegments(p)
    ensures 0 < k < |p| && p[k] == '/' && NoSlash(p[..k]) && WholeSegments(p[k + 1..])
  {
    IndexFromIsFirst(p, '/', 0);
    k := IndexOf(p, '/');
    var rest := p[k + 1..];
    if rest != "" {
      assert rest[0] == p[k + 1] && rest[|rest| - 1] == p[|p| - 1];
      forall i | 0 < i < |rest| ensures !(rest[i - 1] == '/' && rest[i] == '/') {
        assert rest[i] == p[k + 1 + i] && rest[i - 1] == p[k + i];
      }
    }
  }

  lemma {:induction false} LiteralMeaning(a: string, s: string)
    ensures Matches(LiteralTree(a), s) <==> s == a
  {
    if a == "" {
    } else {
      if Matches(LiteralTree(a), s) {
        var k :| 0 <= k <= |s| && Matches(Literal(a[0]), s[..k]) && Matches(LiteralTree(a[1..]), s[k..]);
        LiteralMeaning(a[1..], s[k..]);
        assert s == s[..k] + s[k..];
      }
      if s == a {
        LiteralMeaning(a[1..], s[1..]);
        assert Matches(Literal(a[0]), s[..1]);
      }
    }
  }

  lemma {:induction false} AlternativesMeaning(alts: seq<string>, s: string)
    requires |alts| > 0
    ensures Matches(AlternativesTree(alts), s) <==> s in alts
  {
    LiteralMeaning(alts[0], s);
    if |alts| > 1 {
      AlternativesMeaning(alts[1..], s);
    }
  }

  // ---- the glob side ----

  lemma {:induction false} WildlessMeaning(a: string, p: string)
    requires Wildless(a) && '}' !in a
    ensures GlobMatches(a, p) <==> p == a
    decreases |a|
  {
    if a == "" {
    } else {
      assert FirstToken(a) == (Exactly(a[0]), 1);
      assert Wildless(a[1..]) && a == [a[0]] + a[1..];
      if p != "" {
        WildlessMeaning(a[1..], p[1..]);
        assert p == [p[0]] + p[1..];
      }
    }
  }

  lemma {:induction false} SplitKeeps(s: string, sep: char, c: char)
    requires c !in s
    ensures forall i :: 0 <= i < |Split(s, sep)| ==> c !in Split(s, sep)[i]
  {
    if s == "" {
    } else {
      SplitKeeps(s[1..], sep, c);
      var rest := Split(s[1..], sep);
      forall i | 0 <= i < |Split(s, sep)| ensures c !in Split(s, sep)[i] {
        if i > 0 {
          assert Split(s, sep)[i] == if s[0] == sep then rest[i - 1] else rest[i];
        } else {
          assert c !in rest[0];
        }
      }
    }
  }

  // A brace group ends at the first closing brace, so no alternative holds one.
  lemma AlternativesAreOpen(g: string)
    requires g != "" && FirstToken(g).0.OneOf?
    ensures forall i :: 0 <= i < |FirstToken(g).0.alts| ==> '}' !in FirstToken(g).0.alts[i]
  {
    IndexFromIsFirst(g, '}', 0);
    SplitKeeps(g[1..IndexOf(g, '}')], ',', '}');
  }

  // What a construct matches, as a predicate on the stretch of path it covers.
  ghost predicate Covers(t: Token, s: string)
  {
    match t
    case Segments => WholeSegments(s)
    case Anything => true
    case WithinSegment => NoSlash(s)
    case OneChar => |s| == 1 && s[0] != '/'
    case OneOf(alts) => s in alts
    case Exactly(c) => s == [c]
  }

  lemma TokenMeaning(t: Token, s: string)
    requires Sound(t) && OneLine(s)
    ensures Matches(TokenTree(t), s) <==> Covers(t, s)
  {
    match t
    case Segments => StarSegments(s);
    case Anything => StarDot(s);
    case WithinSegment => StarNotSlash(s);
    case OneOf(alts) => AlternativesMeaning(alts, s);
    case _ =>
  }

  // A glob matches a path that splits into a stretch its first construct covers
  // and a remainder the rest of the glob matches.
  lemma GlobSplits(g: string, p: string)
    requires g != "" && Sound(FirstToken(g).0)
    ensures GlobMatches(g, p) <==>
            exists k :: 0 <= k <= |p| && Covers(FirstToken(g).0, p[..k]) && GlobMatches(g[FirstToken(g).1..], p[k..])
  {
    var (t, n) := FirstToken(g);
    if t.OneChar? || t.Exactly? {
      if GlobMatches(g, p) { assert Covers(t, p[..1]); }
    } else if t.OneOf? {
      AlternativesAreOpen(g);
      forall i, k | 0 <= i < |t.alts| && 0 <= k <= |p|
        ensures GlobMatches(t.alts[i], p[..k]) <==> p[..k] == t.alts[i]
      {
        WildlessMeaning(t.alts[i], p[..k]);
      }
      if k :| 0 <= k <= |p| && Covers(t, p[..k]) && GlobMatches(g[n..], p[k..]) {
        var i :| 0 <= i < |t.alts| && t.alts[i] == p[..k];
        assert GlobMatches(t.alts[i], p[..k]);
      }
    }
  }

  lemma {:induction false} TreeMeaning(g: string, p: string)
    requires Supported(g) && OneLine(p)
    ensures Matches(Tree(g), p) <==> GlobMatches(g, p)
    decreases |g|
  {
    if g == "" {
    } else {
      var (t, n) := FirstToken(g);
      GlobSplits(g, p);
      forall k | 0 <= k <= |p|
        ensures Matches(TokenTree(t), p[..k]) <==> Covers(t, p[..k])
        ensures Matches(Tree(g[n..]), p[k..]) <==> GlobMatches(g[n..], p[k..])
      {
        TokenMeaning(t, p[..k]);
        TreeMeaning(g[n..], p[k..]);
      }
    }
  }

  // The compiler preserves meaning on every supported glob and one-line path.
  lemma CompilerPreservesMeaning(g: string, p: string)
    requires Supported(g) && OneLine(p)
    ensures Tests(Compiled(g), p) <==> GlobMatches(g, p)
  {
    CompiledTree(g);
    TreeMeaning(g, p);
  }

  // ---- expanding a file list ----

  ghost function Filter(files: seq<string>, keep: string -> bool): seq<string> {
    if files == [] then []
    else (if keep(files[0]) then [files[0]] else []) + Filter(files[1..], keep)
  }

  lemma {:induction false} FilterAgrees(files: seq<string>, a: string -> bool, b: string -> bool)
    requires forall i :: 0 <= i < |files| ==> a(files[i]) == b(files[i])
    ensures Filter(files, a) == Filter(files, b)
  {
    if files == [] {
    } else {
      FilterAgrees(files[1..], a, b);
    }
  }

  ghost predicate PassesSome(globs: seq<string>, file: string) {
    exists i :: 0 <= i < |globs| && Tests(Compiled(globs[i]), file)
  }

  ghost predicate MatchesSome(globs: seq<string>, file: string) {
    exists i :: 0 <= i < |globs| && GlobMatches(globs[i], file)
  }

  // `expand`: None where building an expression throws.
  ghost function Expand(files: seq<string>, kept: seq<string>, dropped: seq<string>): Option<seq<string>> {
    if exists i :: 0 <= i < |kept + dropped| && ParseAnchored(Compiled((kept + dropped)[i])).None? then None
    else Some(Filter(files, f => PassesSome(kept, f) && !PassesSome(dropped, f)))
  }

  lemma PassesWhatMatches(globs: seq<string>, file: string)
    requires OneLine(file) && forall i :: 0 <= i < |globs| ==> Supported(globs[i])
    ensures PassesSome(globs, file) <==> MatchesSome(globs, file)
  {
    forall i | 0 <= i < |globs| ensures Tests(Compiled(globs[i]), file) <==> GlobMatches(globs[i], file) {
      CompilerPreservesMeaning(globs[i], file);
    }
  }

  // With supported globs the expansion keeps, in order, exactly the files that
  // some glob of the first list matches and none of the second does.
  lemma ExpandIsExact(files: seq<string>, kept: seq<string>, dropped: seq<string>)
    requires forall i :: 0 <= i < |kept + dropped| ==> Supported((kept + dropped)[i])
    requires forall i :: 0 <= i < |files| ==> OneLine(files[i])
    ensures Expand(files, kept, dropped)
            == Some(Filter(files, f => MatchesSome(kept, f) && !MatchesSome(dropped, f)))
  {
    var globs := kept + dropped;
    forall i | 0 <= i < |globs| ensures ParseAnchored(Compiled(globs[i])).Some? {
      CompiledTree(globs[i]);
    }
    assert forall i :: 0 <= i < |kept| ==> globs[i] == kept[i];
    assert forall i :: 0 <= i < |dropped| ==> globs[|kept| + i] == dropped[i];
    forall i | 0 <= i < |files|
      ensures PassesSome(kept, files[i]) == MatchesSome(kept, files[i])
      ensures PassesSome(dropped, files[i]) == MatchesSome(dropped, files[i])
    {
      PassesWhatMatches(kept, files[i]);
      PassesWhatMatches(dropped, files[i]);
    }
    FilterAgrees(files, f => PassesSome(kept, f) && !PassesSome(dropped, f),
                 f => MatchesSome(kept, f) && !MatchesSome(dropped, f));
  }
}
