// The source text of a compiled glob parses, as a regular expression, to the
// tree that the glob's constructs call for.
module GlobParse {
  import opened Wrappers
  import opened Text
  import opened Regex
  import opened Glob

  predicate Wildless(a: string) { forall i :: 0 <= i < |a| ==> a[i] != '*' && a[i] != '?' }

  // A construct the compiler translates soundly: brace alternatives are escaped as
  // literals, so they may hold no wildcard. A lone character is never a wildcard.
  predicate Sound(t: Token) {
    match t
    case OneOf(alts) => |alts| > 0 && forall i :: 0 <= i < |alts| ==> Wildless(alts[i])
    case Exactly(c) => c != '*' && c != '?'
    case _ => true
  }

  predicate Supported(g: string) {
    g != "" ==> Sound(FirstToken(g).0) && Supported(g[FirstToken(g).1..])
  }

  function LiteralTree(a: string): Regex {
    if a == "" then Empty else Then(Literal(a[0]), LiteralTree(a[1..]))
  }

  function AlternativesTree(alts: seq<string>): Regex
    requires |alts| > 0
  {
    if |alts| == 1 then LiteralTree(alts[0])
    else Either(LiteralTree(alts[0]), AlternativesTree(alts[1..]))
  }

  function OneSegment(): Regex { Then(Plus(NotSlash), Then(Literal('/'), Empty)) }

  function TokenTree(t: Token): Regex
    requires Sound(t)
  {
    match t
    case Segments => Star(OneSegment())
    case Anything => Star(Dot)
    case WithinSegment => Star(NotSlash)
    case OneChar => NotSlash
    case OneOf(alts) => AlternativesTree(alts)
    case Exactly(c) => Literal(c)
  }

  function Tree(g: string): Regex
    requires Supported(g)
  {
    if g == "" then Empty
    else
      var (t, n) := FirstToken(g);
      Then(TokenTree(t), Tree(g[n..]))
  }

  predicate Quantified(s: string) { s != "" && s[0] in {'*', '+', '?'} }

  lemma ParseLiteral(c: char, rest: string)
    requires c != '*' && c != '?' && !Quantified(rest)
    ensures ParseTerm(EscapeChar(c) + rest) == Some((Literal(c), rest))
    ensures !AtEnd(EscapeChar(c) + rest) && !Quantified(EscapeChar(c) + rest)
  {
    var s := EscapeChar(c) + rest;
    if IsEscaped(c) {
      assert s[0] == '\\' && s[1] == c && s[2..] == rest;
    } else {
      assert s[0] == c && s[1..] == rest;
    }
  }

  lemma AlternativeStep(s: string, t: Regex, more: string, ts: Regex, rest: string)
    requires !AtEnd(s) && ParseTerm(s) == Some((t, more)) && ParseAlternative(more) == Some((ts, rest))
    ensures ParseAlternative(s) == Some((Then(t, ts), rest))
  {
  }

  lemma {:induction false} ParseEscaped(a: string, rest: string)
    requires Wildless(a) && AtEnd(rest)
    ensures ParseAlternative(EscapeAll(a) + rest) == Some((LiteralTree(a), rest))
    ensures !Quantified(EscapeAll(a) + rest)
  {
    if a != "" {
      var more := EscapeAll(a[1..]) + rest;
      assert Wildless(a[1..]);
      ParseEscaped(a[1..], rest);
      ParseLiteral(a[0], more);
      AlternativeStep(EscapeChar(a[0]) + more, Literal(a[0]), more, LiteralTree(a[1..]), rest);
      assert EscapeAll(a) + rest == EscapeChar(a[0]) + more;
    } else {
      assert EscapeAll(a) + rest == rest;
    }
  }

  lemma DisjunctionStep(s: string, a: Regex, more: string, b: Regex, rest: string)
    requires ParseAlternative(s) == Some((a, ['|'] + more)) && ParseDisjunction(more) == Some((b, rest))
    ensures ParseDisjunction(s) == Some((Either(a, b), rest))
  {
    assert (['|'] + more)[1..] == more;
  }

  lemma Group(body: string, r: Regex, rest: string)
    requires ParseDisjunction(body) == Some((r, [')'] + rest))
    ensures ParseAtom("(?:" + body) == Some((r, rest))
  {
    var s := "(?:" + body;
    assert s[0] == '(' && StartsWith(s, "(?:") && s[3..] == body;
    assert ([')'] + rest)[1..] == rest;
  }

  lemma DisjunctionLast(s: string, a: Regex, rest: string)
    requires ParseAlternative(s) == Some((a, rest)) && rest != "" && rest[0] == ')'
    ensures ParseDisjunction(s) == Some((a, rest))
  {
  }

  lemma JoinStep(alts: seq<string>)
    requires |alts| > 1
    ensures Join(EscapeEach(alts), '|') == EscapeAll(alts[0]) + ['|'] + Join(EscapeEach(alts[1..]), '|')
  {
    assert EscapeEach(alts)[1..] == EscapeEach(alts[1..]);
  }

  lemma ParseAlternativesStep(s: string, alt: string, more: string, b: Regex, rest: string)
    requires Wildless(alt) && ParseDisjunction(more) == Some((b, rest)) && s == EscapeAll(alt) + (['|'] + more)
    ensures ParseDisjunction(s) == Some((Either(LiteralTree(alt), b), rest))
  {
    ParseEscaped(alt, ['|'] + more);
    DisjunctionStep(s, LiteralTree(alt), more, b, rest);
  }

  lemma {:induction false} ParseAlternatives(alts: seq<string>, rest: string) returns (s: string)
    requires Sound(OneOf(alts)) && rest != "" && rest[0] == ')'
    ensures s == Join(EscapeEach(alts), '|') + rest && ParseDisjunction(s) == Some((AlternativesTree(alts), rest))
  {
    if |alts| == 1 {
      ParseEscaped(alts[0], rest);
      s := EscapeAll(alts[0]) + rest;
      DisjunctionLast(s, LiteralTree(alts[0]), rest);
    } else {
      var more := ParseAlternatives(alts[1..], rest);
      JoinStep(alts);
      s := EscapeAll(alts[0]) + (['|'] + more);
      ParseAlternativesStep(s, alts[0], more, AlternativesTree(alts[1..]), rest);
    }
  }

  lemma ParseToken(t: Token, rest: string)
    requires Sound(t) && !Quantified(rest)
    ensures var s := EmitToken(t) + rest;
            s != "" && ParseTerm(s) == Some((TokenTree(t), rest)) && !AtEnd(s) && !Quantified(s)
  {
    var s := EmitToken(t) + rest;
    match t
    case Segments => ParseSegments(rest);
    case Anything => assert s[0] == '.' && s[1..][0] == '*' && s[1..][1..] == rest;
    case WithinSegment => assert StartsWith(s, "[^/]") && s[4..][0] == '*' && s[4..][1..] == rest;
    case OneChar => assert StartsWith(s, "[^/]") && s[4..] == rest;
    case OneOf(alts) => ParseBrace(alts, rest);
    case Exactly(c) => ParseLiteral(c, rest);
  }

  lemma ParseBrace(alts: seq<string>, rest: string)
    requires Sound(OneOf(alts)) && !Quantified(rest)
    ensures var s := EmitToken(OneOf(alts)) + rest;
            s != "" && ParseTerm(s) == Some((AlternativesTree(alts), rest)) && !AtEnd(s) && !Quantified(s)
  {
    var body := ParseAlternatives(alts, [')'] + rest);
    GroupTerm(Join(EscapeEach(alts), '|'), AlternativesTree(alts), rest);
  }

  lemma GroupTerm(inner: string, r: Regex, rest: string)
    requires ParseDisjunction(inner + ([')'] + rest)) == Some((r, [')'] + rest)) && !Quantified(rest)
    ensures var s := "(?:" + inner + ")" + rest;
            ParseTerm(s) == Some((r, rest)) && !AtEnd(s) && !Quantified(s)
  {
    var body := inner + ([')'] + rest);
    Group(body, r, rest);
    assert "(?:" + inner + ")" + rest == "(?:" + body;
    assert ("(?:" + body)[0] == '(';
  }

  lemma ParseSegments(rest: string)
    requires !Quantified(rest)
    ensures var s := "(?:[^/]+/)*" + rest;
            ParseTerm(s) == Some((Star(OneSegment()), rest)) && !AtEnd(s) && !Quantified(s)
  {
    var body := SegmentBody("*" + rest);
    StarGroup(body, OneSegment(), rest);
    assert "(?:[^/]+/)*" + rest == "(?:" + body;
  }

  lemma SegmentBody(rest: string) returns (body: string)
    ensures body == "[^/]+/)" + rest && ParseDisjunction(body) == Some((OneSegment(), [')'] + rest))
  {
    var tail := [')'] + rest;
    var slash := ['/'] + tail;
    body := "[^/]+" + slash;
    ParsePlus(slash);
    ParseLiteral('/', tail);
    AlternativeStep(slash, Literal('/'), tail, Empty, tail);
    AlternativeStep(body, Plus(NotSlash), slash, Then(Literal('/'), Empty), tail);
    DisjunctionLast(body, OneSegment(), tail);
  }

  lemma StarGroup(body: string, r: Regex, rest: string)
    requires ParseDisjunction(body) == Some((r, [')'] + ("*" + rest))) && !Quantified(rest)
    ensures var s := "(?:" + body; ParseTerm(s) == Some((Star(r), rest)) && !AtEnd(s) && !Quantified(s)
  {
    Group(body, r, "*" + rest);
    assert ("(?:" + body)[0] == '(' && ("*" + rest)[1..] == rest;
  }

  lemma ParsePlus(rest: string)
    requires !Quantified(rest)
    ensures ParseTerm("[^/]+" + rest) == Some((Plus(NotSlash), rest))
  {
    var s := "[^/]+" + rest;
    assert StartsWith(s, "[^/]") && s[4..] == "+" + rest && s[4..][1..] == rest;
  }

  lemma {:induction false} ParseEmit(g: string)
    requires Supported(g)
    ensures ParseAlternative(Emit(g)) == Some((Tree(g), "")) && !Quantified(Emit(g))
  {
    if g == "" {
    } else {
      var (t, n) := FirstToken(g);
      ParseEmit(g[n..]);
      ParseToken(t, Emit(g[n..]));
      AlternativeStep(Emit(g), TokenTree(t), Emit(g[n..]), Tree(g[n..]), "");
    }
  }

  // Every supported glob compiles to a well-formed expression of the expected shape.
  lemma CompiledTree(g: string)
    requires Supported(g)
    ensures ParseAnchored("^" + Emit(g) + "$") == Some(Tree(g))
  {
    var source := "^" + Emit(g) + "$";
    ParseEmit(g);
    assert source[1..|source| - 1] == Emit(g);
  }
}
