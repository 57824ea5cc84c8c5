// Where the glob compiler stops being faithful: a wildcard inside braces.
module GlobLimits {
  import opened Wrappers
  import opened Text
  import opened Regex
  import opened Glob
  import opened GlobParse
  import opened GlobMeaning

  // A glob whose only constructs are characters and brace groups.
  predicate Fixed(g: string) {
    g != "" ==>
      var (t, n) := FirstToken(g);
      (t.OneOf? || t.Exactly?) && Fixed(g[n..])
  }

  // An ordinary character the glob does not use.
  predicate Unused(z: char, g: string) {
    z !in g && !IsSyntax(z) && z != ':' && z != '/' && !IsLineTerminator(z)
  }

  // ---- what the compiled expression cannot match ----

  // Expression text without `z`, `.` or a class.
  predicate Bare(s: string, z: char) {
    || s == ""
    || (s[0] == '\\' && |s| > 1 && s[1] != z && Bare(s[2..], z))
    || (s[0] != '\\' && s[0] != '.' && s[0] != '[' && s[0] != z && Bare(s[1..], z))
  }

  predicate Avoids(r: Regex, z: char) {
    match r
    case Empty => true
    case Literal(c) => c != z
    case Dot => false
    case NotSlash => false
    case Star(body) => Avoids(body, z)
    case Plus(body) => Avoids(body, z)
    case Maybe(body) => Avoids(body, z)
    case Then(a, b) => Avoids(a, z) && Avoids(b, z)
    case Either(a, b) => Avoids(a, z) && Avoids(b, z)
  }

  lemma {:induction false} AvoidedIsAbsent(r: Regex, z: char, s: string)
    requires Avoids(r, z) && Matches(r, s)
    ensures z !in s
    decreases r, |s|
  {
    match r
    case Star(body) => RepeatsAvoid(body, z, s);
    case Plus(body) =>
      var k :| 0 <= k <= |s| && Matches(body, s[..k]) && Repeats(body, s[k..]);
      AvoidedIsAbsent(body, z, s[..k]);
      RepeatsAvoid(body, z, s[k..]);
      assert s == s[..k] + s[k..];
    case Maybe(body) => if s != "" { AvoidedIsAbsent(body, z, s); }
    case Then(a, b) =>
      var k :| 0 <= k <= |s| && Matches(a, s[..k]) && Matches(b, s[k..]);
      AvoidedIsAbsent(a, z, s[..k]);
      AvoidedIsAbsent(b, z, s[k..]);
      assert s == s[..k] + s[k..];
    case Either(a, b) => if Matches(a, s) { AvoidedIsAbsent(a, z, s); } else { AvoidedIsAbsent(b, z, s); }
    case _ =>
  }

  lemma {:induction false} RepeatsAvoid(body: Regex, z: char, s: string)
    requires Avoids(body, z) && Repeats(body, s)
    ensures z !in s
    decreases body, |s| + 1
  {
    if s == "" {
    } else {
      var k :| 0 < k <= |s| && Matches(body, s[..k]) && Repeats(body, s[k..]);
      AvoidedIsAbsent(body, z, s[..k]);
      RepeatsAvoid(body, z, s[k..]);
      assert s == s[..k] + s[k..];
    }
  }

  // Parsing bare text yields an expression that avoids z, and leaves bare text.
  predicate BareResult(p: Parsed, z: char) { p.Some? ==> Avoids(p.value.0, z) && Bare(p.value.1, z) }

  lemma {:induction false} DisjunctionAvoids(s: string, z: char)
    requires Bare(s, z)
    ensures BareResult(ParseDisjunction(s), z)
    decreases |s|, 3
  {
    AlternativeAvoids(s, z);
    var a := ParseAlternative(s);
    if a.Some? && a.value.1 != "" && a.value.1[0] == '|' { DisjunctionAvoids(a.value.1[1..], z); }
  }

  lemma {:induction false} AlternativeAvoids(s: string, z: char)
    requires Bare(s, z)
    ensures BareResult(ParseAlternative(s), z)
    decreases |s|, 2
  {
    if !AtEnd(s) {
      TermAvoids(s, z);
      var t := ParseTerm(s);
      if t.Some? { AlternativeAvoids(t.value.1, z); }
    }
  }

  lemma {:induction false} TermAvoids(s: string, z: char)
    requires s != "" && Bare(s, z)
    ensures BareResult(ParseTerm(s), z)
    decreases |s|, 1
  {
    AtomAvoids(s, z);
    var a := ParseAtom(s);
    if a.Some? && Quantified(a.value.1) {
      var rest := a.value.1[1..];
      assert Bare(rest, z) && (rest != "" && rest[0] == '?' ==> Bare(rest[1..], z));
    }
  }

  lemma {:induction false} AtomAvoids(s: string, z: char)
    requires s != "" && Bare(s, z)
    ensures BareResult(ParseAtom(s), z)
    decreases |s|, 0
  {
    if StartsWith(s, "(?:") {
      var rest := s[1..];
      assert s[0] == '(' && rest[0] == '?' && rest[1..][0] == ':';
      assert Bare(rest, z) && Bare(rest[1..], z) && Bare(rest[1..][1..], z);
      assert rest[1..][1..] == s[3..];
      DisjunctionAvoids(s[3..], z);
    }
  }

  lemma {:induction false} BareConcat(a: string, b: string, z: char)
    requires Bare(a, z) && Bare(b, z)
    ensures Bare(a + b, z)
  {
    if a == "" {
      assert a + b == b;
    } else {
      var n := if a[0] == '\\' then 2 else 1;
      BareConcat(a[n..], b, z);
      assert (a + b)[n..] == a[n..] + b;
    }
  }

  lemma {:induction false} EscapeIsBare(a: string, z: char)
    requires z !in a
    ensures Bare(EscapeAll(a), z)
  {
    if a == "" {
    } else {
      EscapeIsBare(a[1..], z);
      BareConcat(EscapeChar(a[0]), EscapeAll(a[1..]), z);
    }
  }

  lemma {:induction false} JoinIsBare(alts: seq<string>, z: char)
    requires !IsSyntax(z) && forall i :: 0 <= i < |alts| ==> z !in alts[i]
    ensures Bare(Join(EscapeEach(alts), '|'), z)
  {
    if |alts| > 0 { EscapeIsBare(alts[0], z); }
    if |alts| > 1 {
      JoinStep(alts);
      JoinIsBare(alts[1..], z);
      BareConcat(EscapeAll(alts[0]), ['|'], z);
      BareConcat(EscapeAll(alts[0]) + ['|'], Join(EscapeEach(alts[1..]), '|'), z);
    }
  }

  lemma BraceIsBare(alts: seq<string>, z: char)
    requires !IsSyntax(z) && z != ':' && forall i :: 0 <= i < |alts| ==> z !in alts[i]
    ensures Bare(EmitToken(OneOf(alts)), z)
  {
    JoinIsBare(alts, z);
    var open := "(?:";
    assert open[1..] == "?:" && open[1..][1..] == ":" && open[1..][1..][1..] == "";
    assert Bare(":", z) && Bare("?:", z) && Bare(open, z);
    BareConcat(open, Join(EscapeEach(alts), '|'), z);
    BareConcat(open + Join(EscapeEach(alts), '|'), ")", z);
  }

  lemma {:induction false} EmitIsBare(g: string, z: char)
    requires Fixed(g) && Unused(z, g)
    ensures Bare(Emit(g), z)
  {
    if g == "" {
    } else {
      var (t, n) := FirstToken(g);
      EmitIsBare(g[n..], z);
      if t.OneOf? {
        SplitKeeps(g[1..IndexOf(g, '}')], ',', z);
        BraceIsBare(t.alts, z);
      }
      BareConcat(EmitToken(t), Emit(g[n..]), z);
    }
  }

  // No path with the unused character passes the compiled expression.
  lemma UnusedNeverPasses(g: string, z: char, p: string)
    requires Fixed(g) && Unused(z, g) && z in p
    ensures !Tests(Compiled(g), p)
  {
    var source := Compiled(g);
    EmitIsBare(g, z);
    DisjunctionAvoids(Emit(g), z);
    assert source[1..|source| - 1] == Emit(g);
    var r := ParseAnchored(source);
    if r.Some? && Matches(r.value, p) { AvoidedIsAbsent(r.value, z, p); }
  }

  // ---- what the glob does match ----

  // A path for an alternative, with z for each of its wildcards.
  lemma {:induction false} FillIn(a: string, z: char) returns (p: string)
    requires '}' !in a && OneLine(a) && z != '/' && !IsLineTerminator(z)
    ensures GlobMatches(a, p) && OneLine(p) && (Wildless(a) || z in p)
    decreases |a|
  {
    if a == "" { return ""; }
    var (t, n) := FirstToken(a);
    var rest := FillIn(a[n..], z);
    var head := match t case Segments => [z, '/'] case Exactly(c) => [c] case _ => [z];
    p := head + rest;
    assert p[..|head|] == head && p[|head|..] == rest;
    if t.Exactly? { assert Wildless(a) <==> Wildless(a[1..]) by { assert a == [a[0]] + a[1..]; } }
  }

  // A path the whole glob matches, through a wildcard if a brace group has one.
  lemma {:induction false} SomePath(g: string, z: char) returns (p: string)
    requires Fixed(g) && OneLine(g) && z != '/' && !IsLineTerminator(z)
    ensures GlobMatches(g, p) && OneLine(p) && (Supported(g) || z in p)
    decreases |g|
  {
    if g == "" { return ""; }
    var (t, n) := FirstToken(g);
    var rest := SomePath(g[n..], z);
    var head := [g[0]];
    if t.OneOf? {
      AlternativesAreOpen(g);
      AlternativesAreOneLine(g);
      var i := 0;
      if !Sound(t) { i :| 0 <= i < |t.alts| && !Wildless(t.alts[i]); }
      head := FillIn(t.alts[i], z);
    }
    p := head + rest;
    assert p[..|head|] == head && p[|head|..] == rest;
    if t.OneOf? { assert exists i :: 0 <= i < |t.alts| && GlobMatches(t.alts[i], p[..|head|]); }
  }

  lemma AlternativesAreOneLine(g: string)
    requires g != "" && FirstToken(g).0.OneOf? && OneLine(g)
    ensures forall i :: 0 <= i < |FirstToken(g).0.alts| ==> OneLine(FirstToken(g).0.alts[i])
  {
    var inner := g[1..IndexOf(g, '}')];
    SplitKeeps(inner, ',', '\n');
    SplitKeeps(inner, ',', '\r');
    SplitKeeps(inner, ',', '\U{2028}');
    SplitKeeps(inner, ',', '\U{2029}');
  }

  function Without(g: string, c: char): (r: string)
    ensures |r| <= |g| && (c in g ==> |r| < |g|)
    ensures forall d :: d in g && d != c ==> d in r
  {
    if g == "" then "" else if g[0] == c then Without(g[1..], c) else [g[0]] + Without(g[1..], c)
  }

  // One of n character codes is not in a text of fewer characters.
  lemma {:induction false} SpareCode(g: string, lo: nat, n: nat) returns (k: nat)
    requires |g| < n && lo + n <= 0xD800
    ensures lo <= k < lo + n && k as char !in g
    decreases n
  {
    k := lo + n - 1;
    if k as char in g {
      var last := k;
      k := SpareCode(Without(g, last as char), lo, n - 1);
    }
  }

  // A glob of less than 40960 characters leaves some ordinary character unused.
  lemma SpareCharacter(g: string) returns (z: char)
    requires |g| < 0xA000
    ensures Unused(z, g)
  {
    var n := SpareCode(g, 0x3001, 0xA000);
    z := n as char;
  }

  // Among globs of characters and brace groups, the compiler is faithful on
  // exactly those whose brace groups hold no wildcard.
  lemma FaithfulIffNoWildcardInBraces(g: string)
    requires Fixed(g) && OneLine(g) && |g| < 0xA000
    ensures Supported(g) <==> forall p :: OneLine(p) ==> (Tests(Compiled(g), p) <==> GlobMatches(g, p))
  {
    var z := SpareCharacter(g);
    FaithfulIffSpare(g, z);
  }

  lemma FaithfulIffSpare(g: string, z: char)
    requires Fixed(g) && OneLine(g) && Unused(z, g)
    ensures Supported(g) <==> forall p :: OneLine(p) ==> (Tests(Compiled(g), p) <==> GlobMatches(g, p))
  {
    if Supported(g) {
      forall p | OneLine(p) ensures Tests(Compiled(g), p) <==> GlobMatches(g, p) {
        CompilerPreservesMeaning(g, p);
      }
    } else {
      var p := SomePath(g, z);
      UnusedNeverPasses(g, z, p);
    }
  }

  // ---- beyond such globs ----

  // With a wildcard outside the braces the condition is not necessary: this glob breaks
  // it, yet compiles to an expression that passes every one-line path, as it should.
  const ABSORBED := "{,a*}**"

  lemma AbsorbedIsUnsupportedYetFaithful(p: string)
    requires OneLine(p)
    ensures !Supported(ABSORBED)
    ensures Tests(Compiled(ABSORBED), p) && GlobMatches(ABSORBED, p)
  {
    hide Supported, GlobMatches, ParseAnchored, FirstToken, Emit;
    AbsorbedConstructs();
    AbsorbedParse();
    AbsorbedMatches(p);
    StarDot(p);
    assert Matches(AbsorbedBrace(), p[..0]) && p[0..] == p && p[..|p|] == p;
    assert Matches(Then(Star(Dot), Empty), p) by { assert Matches(Empty, p[|p|..]); }
  }

  function AbsorbedBrace(): Regex { Either(Empty, Then(Star(Literal('a')), Empty)) }

  lemma AbsorbedMatches(p: string)
    ensures GlobMatches(ABSORBED, p)
  {
    AbsorbedConstructs();
    hide Supported;
    assert p[0..] == p && p[..|p|] == p;
    assert GlobMatches("", p[..0]) && GlobMatches("", p[|p|..]);
    assert GlobMatches("**", p) by { assert FirstToken("**") == (Anything, 2); }
    assert GlobMatches(["", "a*"][0], p[..0]) && GlobMatches(ABSORBED[5..], p[0..]);
  }

  // How the glob is read, construct by construct.
  lemma AbsorbedConstructs()
    ensures FirstToken(ABSORBED) == (OneOf(["", "a*"]), 5) && ABSORBED[5..] == "**"
    ensures !Supported(ABSORBED)
  {
    IndexFromIsFirst(ABSORBED, '}', 0);
    assert ABSORBED[4] == '}';
    var inner := ABSORBED[1..4];
    assert inner == "" + [','] + "a*";
    SplitPrefix("", "a*", ',');
    SplitPrefix("a*", "", ',');
    assert FirstToken(ABSORBED).0 == OneOf(["", "a*"]);
    assert !Wildless("a*") by { assert "a*"[1] == '*'; }
    assert ["", "a*"][1] == "a*";
  }

  lemma AbsorbedText()
    ensures Emit(ABSORBED) == "(?:" + "|a*" + ")" + ".*"
  {
    AbsorbedConstructs();
    hide Supported;
    var alts := ["", "a*"];
    assert EscapeAll("a*") == "a*" by {
      assert "a*"[1..] == "*" && "*"[1..] == "";
      assert EscapeAll("*") == "*";
    }
    JoinStep(alts);
    assert alts[1..] == ["a*"];
    assert Join(EscapeEach(alts), '|') == "|a*";
    assert Emit("**") == ".*" by { assert FirstToken("**") == (Anything, 2) && "**"[2..] == ""; }
  }

  lemma AbsorbedBraceParses(rest: string)
    requires !Quantified(rest)
    ensures var s := "(?:" + "|a*" + ")" + rest; ParseTerm(s) == Some((AbsorbedBrace(), rest)) && !AtEnd(s)
  {
    var close := [')'] + rest;
    var inner := StarLetter(close);
    AlternativeStep(inner, Star(Literal('a')), close, Empty, close);
    DisjunctionLast(inner, Then(Star(Literal('a')), Empty), close);
    var body := ['|'] + inner;
    DisjunctionStep(body, Empty, inner, Then(Star(Literal('a')), Empty), close);
    assert body == "|a*" + close;
    GroupTerm("|a*", AbsorbedBrace(), rest);
  }

  lemma AbsorbedParse()
    ensures ParseAnchored(Compiled(ABSORBED)) == Some(Then(AbsorbedBrace(), Then(Star(Dot), Empty)))
  {
    AbsorbedText();
    hide Emit;
    var text := "(?:" + "|a*" + ")" + ".*";
    ParseToken(Anything, "");
    assert ".*" + "" == ".*";
    AlternativeStep(".*", Star(Dot), "", Empty, "");
    AbsorbedBraceParses(".*");
    AlternativeStep(text, AbsorbedBrace(), ".*", Then(Star(Dot), Empty), "");
    assert Compiled(ABSORBED)[1..|Compiled(ABSORBED)| - 1] == text;
  }

  lemma StarLetter(rest: string) returns (s: string)
    requires rest != "" && rest[0] == ')'
    ensures s == "a*" + rest && ParseTerm(s) == Some((Star(Literal('a')), rest)) && !AtEnd(s)
  {
    s := "a*" + rest;
    assert s[0] == 'a' && s[1..] == "*" + rest && s[1..][1..] == rest;
  }
}
