// The fragment of regular-expression syntax that the glob compiler emits: its
// parser and the language of a parsed expression.
module Regex {
  import opened Wrappers

  datatype Regex =
    | Empty
    | Literal(c: char)
    | Dot
    | NotSlash
    | Star(body: Regex)
    | Plus(body: Regex)
    | Maybe(body: Regex)
    | Then(first: Regex, second: Regex)
    | Either(left: Regex, right: Regex)

  predicate IsLineTerminator(c: char) { c in {'\n', '\r', '\U{2028}', '\U{2029}'} }

  // Does the whole of s belong to the language of r?
  ghost predicate Matches(r: Regex, s: string)
    decreases r, |s|
  {
    match r
    case Empty => s == ""
    case Literal(c) => s == [c]
    case Dot => |s| == 1 && !IsLineTerminator(s[0])
    case NotSlash => |s| == 1 && s[0] != '/'
    case Star(body) => Repeats(body, s)
    case Plus(body) => exists k :: 0 <= k <= |s| && Matches(body, s[..k]) && Repeats(body, s[k..])
    case Maybe(body) => s == "" || Matches(body, s)
    case Then(first, second) => exists k :: 0 <= k <= |s| && Matches(first, s[..k]) && Matches(second, s[k..])
    case Either(left, right) => Matches(left, s) || Matches(right, s)
  }

  // Zero or more repetitions of body.
  ghost predicate Repeats(body: Regex, s: string)
    decreases body, |s| + 1
  {
    s == "" || exists k :: 0 < k <= |s| && Matches(body, s[..k]) && Repeats(body, s[k..])
  }

  // Characters with a meaning of their own, which only an escape makes literal.
  predicate IsSyntax(c: char) {
    c in {'.', '+', '^', '$', '{', '}', '(', ')', '|', '[', ']', '\\', '*', '?'}
  }

  predicate StartsWith(s: string, prefix: string) { prefix <= s }

  predicate AtEnd(s: string) { s == "" || s[0] == '|' || s[0] == ')' }

  // A parsed expression and what is left of the text.
  type Parsed = Option<(Regex, string)>

  function ParseDisjunction(s: string): (p: Parsed)
    ensures p.Some? ==> |p.value.1| <= |s|
    decreases |s|, 3
  {
    match ParseAlternative(s)
    case None => None
    case Some((a, rest)) =>
      if rest != "" && rest[0] == '|' then
        match ParseDisjunction(rest[1..])
        case None => None
        case Some((b, end)) => Some((Either(a, b), end))
      else Some((a, rest))
  }

  function ParseAlternative(s: string): (p: Parsed)
    ensures p.Some? ==> |p.value.1| <= |s|
    decreases |s|, 2
  {
    if AtEnd(s) then Some((Empty, s))
    else
      match ParseTerm(s)
      case None => None
      case Some((t, rest)) =>
        match ParseAlternative(rest)
        case None => None
        case Some((ts, end)) => Some((Then(t, ts), end))
  }

  function ParseTerm(s: string): (p: Parsed)
    requires s != ""
    ensures p.Some? ==> |p.value.1| < |s|
    decreases |s|, 1
  {
    match ParseAtom(s)
    case None => None
    case Some((a, rest)) =>
      if rest == "" then Some((a, rest))
      else if rest[0] == '*' then Some((Star(a), SkipLazy(rest[1..])))
      else if rest[0] == '+' then Some((Plus(a), SkipLazy(rest[1..])))
      else if rest[0] == '?' then Some((Maybe(a), SkipLazy(rest[1..])))
      else Some((a, rest))
  }

  // A `?` after a quantifier makes it lazy: which match is found changes, not
  // whether there is one.
  function SkipLazy(s: string): (r: string)
    ensures |r| <= |s|
  {
    if s != "" && s[0] == '?' then s[1..] else s
  }

  function ParseAtom(s: string): (p: Parsed)
    requires s != ""
    ensures p.Some? ==> |p.value.1| < |s|
    decreases |s|, 0
  {
    if s[0] == '.' then Some((Dot, s[1..]))
    else if s[0] == '\\' then
      if |s| > 1 && IsSyntax(s[1]) then Some((Literal(s[1]), s[2..])) else None
    else if s[0] == '[' then
      if StartsWith(s, "[^/]") then Some((NotSlash, s[4..])) else None
    else if s[0] == '(' then
      if !StartsWith(s, "(?:") then None
      else
        match ParseDisjunction(s[3..])
        case None => None
        case Some((r, rest)) => if rest != "" && rest[0] == ')' then Some((r, rest[1..])) else None
    else if IsSyntax(s[0]) then None
    else Some((Literal(s[0]), s[1..]))
  }

  // `new RegExp(source)` for an anchored source; None where it is not of the
  // fragment (`new RegExp` throws on every such source the compiler can emit).
  function ParseAnchored(source: string): Option<Regex> {
    if |source| < 2 || source[0] != '^' || source[|source| - 1] != '$' then None
    else
      match ParseDisjunction(source[1..|source| - 1])
      case Some((r, rest)) => if rest == "" then Some(r) else None
      case None => None
  }
}
