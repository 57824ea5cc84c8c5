// src/lib/contracting-chain.ts: own identity, and the chain and depth headers a
// gateway reads from the caller and prints for the agents it invokes.
module Contracting {
  import opened Wrappers
  import opened Text
  import opened Decimal

  const MAX_HOSTNAME_CHARS := 253
  const CHAIN_HEADER_ABSOLUTE_MAX_CHARS := 4096
  const DEFAULT_DEPTH_MAX := 2
  const DEPTH_MAX_ENV_CEILING := 64
  const DEPTH_MAX_ENV_FLOOR := 1

  // ---- hosts ----

  // The ASCII characters that `new URL` refuses in a host, plus everything
  // outside ASCII (international names are not part of this model).
  predicate ForbiddenInHost(c: char) {
    var n := c as int;
    n <= 0x20 || n >= 0x7F || c in {'#', '/', ':', '<', '>', '?', '@', '[', '\\', ']', '^', '|', '%'}
  }

  predicate Bracketed(s: string) { |s| >= 2 && s[0] == '[' && s[|s| - 1] == ']' }

  predicate IsIpv6Char(c: char) { IsDigit(c) || 'a' <= LowerChar(c) <= 'f' || c == ':' || c == '.' }

  // The texts that are nothing but a host: a bracketed IPv6 literal, or a name.
  predicate IsHostText(s: string) {
    if Bracketed(s) then |s| > 2 && forall i :: 1 <= i < |s| - 1 ==> IsIpv6Char(s[i])
    else |s| > 0 && forall i :: 0 <= i < |s| ==> !ForbiddenInHost(s[i])
  }

  // An IPv6 literal between brackets, or a name.
  lemma HostTextMeaning(s: string)
    ensures IsHostText(s) <==>
              || (|s| > 2 && s[0] == '[' && s[|s| - 1] == ']' && forall i :: 1 <= i < |s| - 1 ==> IsIpv6Char(s[i]))
              || (|s| > 0 && forall i :: 0 <= i < |s| ==> !ForbiddenInHost(s[i]))
  {
    if Bracketed(s) { assert ForbiddenInHost(s[0]); }
  }

  // `new URL("https://" + raw).hostname`: lower-cased, a final dot kept.
  function UrlHostname(raw: string): Option<string> {
    if IsHostText(raw) then Some(Lower(raw)) else None
  }

  // What may stand in a name.
  lemma AllowedInHost(c: char)
    ensures !ForbiddenInHost(c) <==>
              || 'a' <= c <= 'z' || 'A' <= c <= 'Z' || '0' <= c <= '9'
              || c in {'!', '"', '$', '&', '\'', '(', ')', '*', '+', ',', '-', '.', ';', '=', '_', '`', '{', '}', '~'}
  {
  }

  lemma AllowedInIpv6(c: char)
    ensures IsIpv6Char(c) <==> '0' <= c <= '9' || 'a' <= c <= 'f' || 'A' <= c <= 'F' || c == ':' || c == '.'
  {
  }

  function CanonicalizeHost(raw: string): Option<string> {
    if Trim(raw) != raw || raw == "" then None
    else if '/' in raw || '@' in raw || (!Bracketed(raw) && ':' in raw) then None
    else
      match UrlHostname(raw)
      case None => None
      case Some(host) =>
        var stripped := if host[|host| - 1] == '.' then host[..|host| - 1] else host;
        if stripped == "" || |stripped| > MAX_HOSTNAME_CHARS then None else Some(stripped)
  }

  // A host in the form every comparison uses.
  predicate IsCanonical(h: string) { CanonicalizeHost(h) == Some(h) }

  // What the header can carry back unchanged.
  predicate IsLink(h: string) { IsCanonical(h) && ',' !in h }

  lemma HostTextIsTrimmed(s: string)
    requires IsHostText(s)
    ensures Trim(s) == s && '/' !in s && '@' !in s && (Bracketed(s) || ':' !in s)
  {
    TrimIsFixed(s);
    forall i | 0 <= i < |s| ensures s[i] != '/' && s[i] != '@' && (Bracketed(s) || s[i] != ':') {}
  }

  // A lower-case host text is canonical exactly when it has no final dot.
  lemma LowerHostIsCanonical(h: string)
    requires IsHostText(h) && Lower(h) == h && |h| <= MAX_HOSTNAME_CHARS
    ensures IsCanonical(h) <==> h[|h| - 1] != '.'
  {
    HostTextIsTrimmed(h);
  }

  lemma LoweredHost(raw: string) returns (host: string)
    requires IsHostText(raw)
    ensures host == Lower(raw) && IsHostText(host) && Lower(host) == host && |host| > 0
    ensures host[|host| - 1] == '.' && |host| > 1 ==>
              var h := host[..|host| - 1]; IsHostText(h) && Lower(h) == h && host == h + "."
    ensures ',' in host <==> ',' in raw
  {
    host := Lower(raw);
    LowerKeepsCommas(raw);
    if host[|host| - 1] == '.' && |host| > 1 {
      var h := host[..|host| - 1];
      assert h == Lower(h);
      assert !Bracketed(raw);
      assert forall i :: 0 <= i < |h| ==> h[i] == LowerChar(raw[i]);
      assert !ForbiddenInHost(h[0]);
    }
  }

  // Canonicalizing lower-cases and drops one final dot, nothing else. The result
  // is a fixed point exactly when no dot is left at its end, because only one is
  // dropped; commas come through untouched.
  lemma CanonicalizedShape(raw: string) returns (h: string)
    requires CanonicalizeHost(raw).Some?
    ensures CanonicalizeHost(raw) == Some(h)
    ensures 0 < |h| <= MAX_HOSTNAME_CHARS && Trim(h) == h
    ensures Lower(raw) == h || Lower(raw) == h + "."
    ensures IsCanonical(h) <==> h[|h| - 1] != '.'
    ensures ',' in h <==> ',' in raw
  {
    h := CanonicalizeHost(raw).value;
    var host := LoweredHost(raw);
    LowerHostIsCanonical(h);
    HostTextIsTrimmed(h);
  }

  // A text is read as a host exactly when it is nothing but a host, lower-cased and less
  // one final dot, of at most 253 characters. The checks for blanks, slashes, user names
  // and ports refuse nothing else.
  lemma ReadAsHostIff(raw: string, h: string)
    ensures CanonicalizeHost(raw) == Some(h) <==>
              && IsHostText(raw) && 0 < |h| <= 253
              && (Lower(raw) == h + "." || (Lower(raw) == h && h[|h| - 1] != '.'))
  {
    if IsHostText(raw) {
      HostTextIsTrimmed(raw);
      if Lower(raw) == h + "." { assert Lower(raw)[..|raw| - 1] == h; }
    }
  }

  // The shape of every host of an identity.
  predicate IsHost(h: string) { 0 < |h| <= MAX_HOSTNAME_CHARS && Trim(h) == h }

  lemma LinkIsHost(h: string)
    requires IsLink(h)
    ensures IsHost(h)
  {
    var host := CanonicalizedShape(h);
  }

  lemma LowerKeepsCommas(s: string)
    ensures ',' in Lower(s) <==> ',' in s
  {
    forall i | 0 <= i < |s| ensures Lower(s)[i] == ',' <==> s[i] == ',' {}
    if ',' in s { var i :| 0 <= i < |s| && s[i] == ','; assert Lower(s)[i] == ','; }
  }

  // Every spelling of a canonical host, in any case and with or without the
  // final dot, is recognised as that host.
  lemma EverySpellingIsRecognised(h: string, raw: string)
    requires IsCanonical(h)
    requires Lower(raw) == h || (Lower(raw) == h + "." && !Bracketed(h))
    ensures CanonicalizeHost(raw) == Some(h)
  {
    assert forall i :: 0 <= i < |h| ==> LowerChar(raw[i]) == h[i];
    assert IsHostText(raw);
    HostTextIsTrimmed(raw);
  }

  // ---- own identity ----

  // `BASE_URL` may be a whole URL or a bare host; urlHost is the hostname of a
  // whole URL, None where `new URL` throws.
  function HostFromBaseUrl(raw: string, urlHost: string -> Option<string>): Option<string> {
    var trimmed := Trim(raw);
    if trimmed == "" then None
    else
      match urlHost(trimmed)
      case Some(host) => CanonicalizeHost(host)
      case None => CanonicalizeHost(trimmed)
  }

  datatype SelfHostsEnv = Absent | Configured(hosts: seq<string>) | Invalid(entry: string)

  function ClassifyEntries(entries: seq<string>, hosts: seq<string>): SelfHostsEnv {
    if |entries| == 0 then Configured(hosts)
    else
      match CanonicalizeHost(Trim(entries[0]))
      case None => Invalid(entries[0])
      case Some(h) => if h in hosts then Invalid(entries[0]) else ClassifyEntries(entries[1..], hosts + [h])
  }

  function ClassifySelfHostsEnv(env: Option<string>): SelfHostsEnv {
    if env.None? || Trim(env.value) == "" then Absent else ClassifyEntries(Split(env.value, ','), [])
  }

  function Add(hosts: seq<string>, host: Option<string>): seq<string> {
    if host.Some? && host.value !in hosts then hosts + [host.value] else hosts
  }

  function AddAll(hosts: seq<string>, more: seq<string>): seq<string>
    decreases |more|
  {
    if |more| == 0 then hosts else AddAll(Add(hosts, Some(more[0])), more[1..])
  }

  // The part of the identity that comes from the configuration alone.
  function ConfiguredHosts(baseUrl: Option<string>, env: Option<string>,
                           urlHost: string -> Option<string>): seq<string>
  {
    var base := if baseUrl.None? then [] else Add([], HostFromBaseUrl(baseUrl.value, urlHost));
    var status := ClassifySelfHostsEnv(env);
    if status.Configured? then AddAll(base, status.hosts) else base
  }

  function WithHint(configured: seq<string>, hint: Option<string>): seq<string> {
    if hint.None? then configured else Add(configured, CanonicalizeHost(Trim(hint.value)))
  }

  function CanonicalId(hosts: seq<string>): Option<string> {
    if |hosts| > 0 then Some(hosts[0]) else None
  }

  method ClassifySelfHosts(env: Option<string>) returns (status: SelfHostsEnv)
    ensures status == ClassifySelfHostsEnv(env)
  {
    if env.None? || Trim(env.value) == "" {
      return Absent;
    }
    var entries := Split(env.value, ',');
    var hosts := [];
    for i := 0 to |entries|
      invariant ClassifyEntries(entries[i..], hosts) == ClassifyEntries(entries, [])
    {
      var canonical := CanonicalizeHost(Trim(entries[i]));
      if canonical.None? || canonical.value in hosts {
        return Invalid(entries[i]);
      }
      assert entries[i..][1..] == entries[i + 1..];
      hosts := hosts + [canonical.value];
    }
    return Configured(hosts);
  }

  method ResolveSelfHosts(baseUrl: Option<string>, env: Option<string>, hint: Option<string>,
                          urlHost: string -> Option<string>)
    returns (hosts: seq<string>, canonicalId: Option<string>)
    ensures hosts == WithHint(ConfiguredHosts(baseUrl, env, urlHost), hint)
    ensures canonicalId == CanonicalId(hosts)
  {
    hosts := [];
    if baseUrl.Some? {
      hosts := Add(hosts, HostFromBaseUrl(baseUrl.value, urlHost));
    }
    var status := ClassifySelfHosts(env);
    if status.Configured? {
      ghost var base := hosts;
      for i := 0 to |status.hosts|
        invariant AddAll(hosts, status.hosts[i..]) == AddAll(base, status.hosts)
      {
        assert status.hosts[i..][1..] == status.hosts[i + 1..];
        hosts := Add(hosts, Some(status.hosts[i]));
      }
    }
    if hint.Some? {
      hosts := Add(hosts, CanonicalizeHost(Trim(hint.value)));
    }
    canonicalId := CanonicalId(hosts);
  }

  predicate Distinct(hosts: seq<string>) {
    forall i, j :: 0 <= i < j < |hosts| ==> hosts[i] != hosts[j]
  }

  // The hint of a request only enlarges the identity: what is configured stays,
  // in place, and so does the link the gateway announces itself with.
  lemma HintOnlyEnlarges(configured: seq<string>, hint: Option<string>)
    requires Distinct(configured)
    ensures configured <= WithHint(configured, hint)
    ensures |WithHint(configured, hint)| <= |configured| + 1 && Distinct(WithHint(configured, hint))
    ensures |configured| > 0 ==> CanonicalId(WithHint(configured, hint)) == CanonicalId(configured)
  {
  }

  // A usable A2A_SELF_HOSTS names pairwise different hosts, none with a comma.
  lemma {:induction false} ClassifiedEntries(entries: seq<string>, hosts: seq<string>)
    requires Distinct(hosts) && forall h :: h in hosts ==> ',' !in h
    requires forall i :: 0 <= i < |entries| ==> ',' !in entries[i]
    ensures var status := ClassifyEntries(entries, hosts);
            status.Configured? ==>
              && Distinct(status.hosts) && |status.hosts| == |hosts| + |entries|
              && forall h :: h in status.hosts ==> ',' !in h
    decreases |entries|
  {
    if |entries| > 0 && CanonicalizeHost(Trim(entries[0])).Some? {
      var h := CanonicalizedShape(Trim(entries[0]));
      TrimIsPart(entries[0]);
      if h !in hosts { ClassifiedEntries(entries[1..], hosts + [h]); }
    }
  }

  lemma ConfiguredEnv(env: Option<string>)
    ensures var status := ClassifySelfHostsEnv(env);
            status.Configured? ==>
              |status.hosts| > 0 && Distinct(status.hosts) && forall h :: h in status.hosts ==> ',' !in h
  {
    if env.Some? {
      JoinSplit(env.value, ',');
      ClassifiedEntries(Split(env.value, ','), []);
    }
  }

  // A2A_SELF_HOSTS is absent when it is blank; it is usable exactly when every entry reads
  // as a host and no two as the same, and then it is these hosts in their order.
  lemma SelfHostsMeaning(env: Option<string>, hosts: seq<string>)
    ensures ClassifySelfHostsEnv(env).Absent? <==> env.None? || Trim(env.value) == ""
    ensures ClassifySelfHostsEnv(env) == Configured(hosts) <==>
              && env.Some? && Trim(env.value) != ""
              && var entries := Split(env.value, ',');
                 && |hosts| == |entries| && Distinct(hosts)
                 && forall i :: 0 <= i < |entries| ==> CanonicalizeHost(Trim(entries[i])) == Some(hosts[i])
    ensures ClassifySelfHostsEnv(env).Invalid? ==> ClassifySelfHostsEnv(env).entry in Split(env.value, ',')
  {
    hide CanonicalizeHost, Trim, Split, Distinct;
    NoneIsDistinct();
    if env.Some? && Trim(env.value) != "" {
      EntriesAreRead(Split(env.value, ','), [], hosts);
      assert hosts[0..] == hosts;
    }
  }

  lemma NoneIsDistinct()
    ensures Distinct([])
  {
  }

  lemma {:induction false} EntriesAreRead(entries: seq<string>, before: seq<string>, hosts: seq<string>)
    requires Distinct(before)
    ensures var status := ClassifyEntries(entries, before);
            && (status == Configured(hosts) <==>
                  && |hosts| == |before| + |entries| && before <= hosts && Distinct(hosts)
                  && forall i :: 0 <= i < |entries| ==>
                       CanonicalizeHost(Trim(entries[i])) == Some(hosts[|before| + i]))
            && !status.Absent? && (status.Invalid? ==> status.entry in entries)
    decreases |entries|
  {
    hide CanonicalizeHost, Trim;
    if entries == [] {
    } else {
      var read := CanonicalizeHost(Trim(entries[0]));
      if read.Some? && read.value !in before {
        var more := before + [read.value];
        EntriesAreRead(entries[1..], more, hosts);
        assert forall i :: 0 < i < |entries| ==> entries[i] == entries[1..][i - 1];
        if |hosts| == |before| + |entries| && before <= hosts && hosts[|before|] == read.value {
          assert more <= hosts;
        }
      }
    }
  }

  lemma {:induction false} ClassifiedAreHosts(entries: seq<string>, hosts: seq<string>)
    requires forall h :: h in hosts ==> IsHost(h)
    ensures var status := ClassifyEntries(entries, hosts);
            status.Configured? ==> forall h :: h in status.hosts ==> IsHost(h)
    decreases |entries|
  {
    if |entries| > 0 && CanonicalizeHost(Trim(entries[0])).Some? {
      var h := CanonicalizedShape(Trim(entries[0]));
      if h !in hosts { ClassifiedAreHosts(entries[1..], hosts + [h]); }
    }
  }

  lemma {:induction false} AddAllMembers(hosts: seq<string>, more: seq<string>)
    ensures forall h :: h in AddAll(hosts, more) ==> h in hosts || h in more
    decreases |more|
  {
    if |more| > 0 { AddAllMembers(Add(hosts, Some(more[0])), more[1..]); }
  }

  // Whatever the configuration and the hint, the hosts of an identity are trimmed, not
  // empty and not too long.
  lemma IdentityIsHosts(baseUrl: Option<string>, env: Option<string>, hint: Option<string>,
                        urlHost: string -> Option<string>)
    ensures forall h :: h in WithHint(ConfiguredHosts(baseUrl, env, urlHost), hint) ==> IsHost(h)
  {
    hide IsHost, CanonicalizeHost, Trim;
    var base := if baseUrl.None? then [] else Add([], HostFromBaseUrl(baseUrl.value, urlHost));
    forall h | h in base ensures IsHost(h) {
      var trimmed := Trim(baseUrl.value);
      CanonicalIsHost(match urlHost(trimmed) case Some(host) => host case None => trimmed, h);
    }
    if env.Some? { ClassifiedAreHosts(Split(env.value, ','), []); }
    var status := ClassifySelfHostsEnv(env);
    if status.Configured? { AddAllMembers(base, status.hosts); }
    if hint.Some? && CanonicalizeHost(Trim(hint.value)).Some? {
      CanonicalIsHost(Trim(hint.value), CanonicalizeHost(Trim(hint.value)).value);
    }
  }

  // The configured identity is the host of BASE_URL, first, and those of A2A_SELF_HOSTS; a
  // BASE_URL that is not a URL is read as a bare host.
  lemma ConfiguredMeaning(baseUrl: Option<string>, env: Option<string>, urlHost: string -> Option<string>, h: string)
    ensures var hosts := ConfiguredHosts(baseUrl, env, urlHost);
            var base := if baseUrl.None? || Trim(baseUrl.value) == "" then None
                        else if urlHost(Trim(baseUrl.value)).Some? then
                          CanonicalizeHost(urlHost(Trim(baseUrl.value)).value)
                        else CanonicalizeHost(Trim(baseUrl.value));
            && (h in hosts <==>
                  base == Some(h) || (ClassifySelfHostsEnv(env).Configured? && h in ClassifySelfHostsEnv(env).hosts))
            && (base.Some? ==> |hosts| > 0 && hosts[0] == base.value)
  {
    hide CanonicalizeHost, Trim, ClassifySelfHostsEnv;
    var base := if baseUrl.None? then [] else Add([], HostFromBaseUrl(baseUrl.value, urlHost));
    var status := ClassifySelfHostsEnv(env);
    if status.Configured? {
      AddAllMembers(base, status.hosts);
      AddAllKeeps(base, status.hosts);
    }
  }

  lemma {:induction false} AddAllKeeps(hosts: seq<string>, more: seq<string>)
    ensures hosts <= AddAll(hosts, more) && forall h :: h in more ==> h in AddAll(hosts, more)
    decreases |more|
  {
    if |more| > 0 {
      var next := Add(hosts, Some(more[0]));
      AddAllKeeps(next, more[1..]);
      assert more[0] in next;
      assert forall h :: h in next ==> h in AddAll(next, more[1..]);
    }
  }

  lemma CanonicalIsHost(raw: string, h: string)
    requires CanonicalizeHost(raw) == Some(h)
    ensures IsHost(h)
  {
    var host := CanonicalizedShape(raw);
  }

  // Without any configuration the hint is the identity: whatever host a caller writes
  // becomes the whole of it, in lower case and less one final dot, and whatever text
  // is no host empties it.
  lemma HintAloneDefinesIdentity(hint: string, h: string)
    ensures WithHint([], Some(hint)) == [] <==> CanonicalizeHost(Trim(hint)).None?
    ensures WithHint([], Some(hint)) == [h] <==> CanonicalizeHost(Trim(hint)) == Some(h)
    ensures WithHint([], Some(hint)) == [h] ==> Lower(Trim(hint)) == h || Lower(Trim(hint)) == h + "."
    ensures IsCanonical(h) && (Lower(Trim(hint)) == h || (Lower(Trim(hint)) == h + "." && !Bracketed(h))) ==>
              WithHint([], Some(hint)) == [h]
  {
    hide CanonicalizeHost, Trim, Lower;
    if IsCanonical(h) && (Lower(Trim(hint)) == h || (Lower(Trim(hint)) == h + "." && !Bracketed(h))) {
      EverySpellingIsRecognised(h, Trim(hint));
    }
    if CanonicalizeHost(Trim(hint)).Some? {
      var host := CanonicalizedShape(Trim(hint));
      assert WithHint([], Some(hint)) == [host] && [host][0] == host;
    }
  }

  // A host with a space in it is such a text.
  lemma UnreadableHint()
    ensures WithHint([], Some("a b")) == []
  {
    TrimIsFixed("a b");
    assert "a b"[1] == ' ';
    assert !IsHostText("a b");
  }

  // Is the URL of a step one of our own? urlHost is None where `new URL` throws.
  function IsSelfDestination(url: string, selfHosts: seq<string>, urlHost: string -> Option<string>): bool {
    |selfHosts| > 0
    && match urlHost(url)
       case None => false
       case Some(host) => CanonicalizeHost(host).Some? && CanonicalizeHost(host).value in selfHosts
  }

  // The host h in any case, with or without the final dot.
  predicate IsSpellingOf(raw: string, h: string) {
    IsCanonical(h) && (Lower(raw) == h || (Lower(raw) == h + "." && !Bracketed(h)))
  }

  lemma SpellingIsRead(raw: string, h: string)
    requires IsSpellingOf(raw, h)
    ensures CanonicalizeHost(raw) == Some(h)
  {
    EverySpellingIsRecognised(h, raw);
  }

  // A destination is ours exactly when its host, lower-cased and less one final dot, is
  // one of our hosts: no spelling of an own host slips through, and no other is refused.
  lemma NoSpellingSlipsThrough(url: string, selfHosts: seq<string>, urlHost: string -> Option<string>)
    ensures IsSelfDestination(url, selfHosts, urlHost) <==>
              && urlHost(url).Some?
              && exists i :: 0 <= i < |selfHosts| && CanonicalizeHost(urlHost(url).value) == Some(selfHosts[i])
    ensures urlHost(url).Some? ==>
              forall h :: h in selfHosts && IsSpellingOf(urlHost(url).value, h) ==>
                IsSelfDestination(url, selfHosts, urlHost)
  {
    hide CanonicalizeHost, IsSpellingOf;
    if urlHost(url).Some? {
      forall h | h in selfHosts && IsSpellingOf(urlHost(url).value, h)
        ensures IsSelfDestination(url, selfHosts, urlHost)
      {
        SpellingIsRead(urlHost(url).value, h);
      }
    }
  }

  // ---- the depth ceiling ----

  predicate IsShortNumber(s: string) { 1 <= |s| <= 3 && AllDigits(s) }

  // The manual digit loop: no `parseInt`, no `Number`.
  method DigitsToInt(digits: string) returns (out: nat)
    requires AllDigits(digits)
    ensures out == Number(digits)
  {
    out := 0;
    for i := 0 to |digits|
      invariant out == Number(digits[..i])
    {
      assert DigitVals(digits[..i + 1])[..i] == DigitVals(digits[..i]);
      out := out * 10 + (digits[i] as int - '0' as int);
    }
    assert digits[..|digits|] == digits;
  }

  function ResolveDepthMax(env: Option<string>): nat {
    if env.None? then DEFAULT_DEPTH_MAX
    else
      var trimmed := Trim(env.value);
      if !IsShortNumber(trimmed) then DEFAULT_DEPTH_MAX
      else if Number(trimmed) > DEPTH_MAX_ENV_CEILING || Number(trimmed) < DEPTH_MAX_ENV_FLOOR then DEFAULT_DEPTH_MAX
      else Number(trimmed)
  }

  // The ceiling is never 0 nor above 64: a readable number in that range is obeyed,
  // and everything else means the default.
  lemma CeilingIsObeyedInRange(env: Option<string>, n: nat)
    requires n != DEFAULT_DEPTH_MAX
    ensures ResolveDepthMax(env) == n <==>
            && env.Some? && IsShortNumber(Trim(env.value)) && Number(Trim(env.value)) == n
            && DEPTH_MAX_ENV_FLOOR <= n <= DEPTH_MAX_ENV_CEILING
    ensures DEPTH_MAX_ENV_FLOOR <= ResolveDepthMax(env) <= DEPTH_MAX_ENV_CEILING
  {
    hide Trim, Number, AllDigits;
  }

  // ---- reading ----

  datatype RawHeader = Missing | Single(text: string) | Repeated(values: seq<string>)

  datatype Headers = Headers(chain: RawHeader, depth: RawHeader)

  const NO_HEADERS := Headers(Missing, Missing)

  datatype ChainFault = TooLong | TooManyLinks | UnreadableLink

  datatype Verdict =
    | Accepted(chain: seq<string>, depth: nat)
    | LoopDetected
    | DepthExceeded(depth: nat, depthMax: nat)
    | DepthMalformed
    | ChainMalformed(fault: ChainFault)

  function PickSingle(h: RawHeader): Option<string> {
    if h.Single? then Some(h.text) else None
  }

  function ChainHeaderMaxChars(depthMax: nat): nat {
    var budget := (MAX_HOSTNAME_CHARS + 1) * (depthMax + 1);
    if budget <= CHAIN_HEADER_ABSOLUTE_MAX_CHARS then budget else CHAIN_HEADER_ABSOLUTE_MAX_CHARS
  }

  function ChainElements(raw: Option<string>): seq<string> {
    if raw.None? || Trim(raw.value) == "" then [] else Split(raw.value, ',')
  }

  function CanonicalizeAll(elements: seq<string>): (r: Option<seq<string>>)
    ensures r.Some? ==> |r.value| == |elements|
  {
    if |elements| == 0 then Some([])
    else
      match (CanonicalizeHost(Trim(elements[0])), CanonicalizeAll(elements[1..]))
      case (Some(h), Some(rest)) => Some([h] + rest)
      case _ => None
  }

  predicate OwnsAny(chain: seq<string>, selfHosts: seq<string>) {
    exists i :: 0 <= i < |chain| && chain[i] in selfHosts
  }

  // The steps after the chain has been read.
  function Judge(chain: seq<string>, rawDepth: Option<string>, selfHosts: seq<string>, depthMax: nat): Verdict {
    if rawDepth.Some? && !IsShortNumber(rawDepth.value) then DepthMalformed
    else
      var depth := if rawDepth.None? then 0 else Number(rawDepth.value);
      if OwnsAny(chain, selfHosts) then LoopDetected
      else if depth >= depthMax then DepthExceeded(depth, depthMax)
      else Accepted(chain, depth)
  }

  function ReadInbound(h: Headers, selfHosts: seq<string>, depthMax: nat): Verdict {
    var rawChain := PickSingle(h.chain);
    if rawChain.Some? && |rawChain.value| > ChainHeaderMaxChars(depthMax) then ChainMalformed(TooLong)
    else
      var elements := ChainElements(rawChain);
      if |elements| > depthMax + 1 then ChainMalformed(TooManyLinks)
      else
        match CanonicalizeAll(elements)
        case None => ChainMalformed(UnreadableLink)
        case Some(chain) => Judge(chain, PickSingle(h.depth), selfHosts, depthMax)
  }

  lemma {:induction false} CanonicalizeAllMeaning(elements: seq<string>, chain: seq<string>)
    ensures CanonicalizeAll(elements) == Some(chain) <==>
            && |chain| == |elements|
            && forall i :: 0 <= i < |chain| ==> CanonicalizeHost(Trim(elements[i])) == Some(chain[i])
  {
    if |elements| > 0 && |chain| > 0 {
      CanonicalizeAllMeaning(elements[1..], chain[1..]);
      assert [chain[0]] + chain[1..] == chain;
    }
  }

  // The chain header, missing or repeated as good as empty, fits the budget of 254
  // characters per link and 4096 in all, and reads as these hosts, part by part.
  predicate ReadsAs(h: RawHeader, depthMax: nat, chain: seq<string>) {
    && (h.Single? ==> |h.text| <= 4096 && |h.text| <= 254 * (depthMax + 1))
    && var parts := if h.Single? && Trim(h.text) != "" then Split(h.text, ',') else [];
       && |chain| == |parts| <= depthMax + 1
       && forall i :: 0 <= i < |chain| ==> CanonicalizeHost(Trim(parts[i])) == Some(chain[i])
  }

  // The depth header, missing or repeated as good as 0, is one to three digits.
  predicate DepthReadsAs(h: RawHeader, depth: nat) {
    if h.Single? then 1 <= |h.text| <= 3 && AllDigits(h.text) && depth == Number(h.text) else depth == 0
  }

  // Every verdict, for every pair of headers.
  lemma VerdictMeaning(h: Headers, selfHosts: seq<string>, depthMax: nat, chain: seq<string>, depth: nat)
    ensures var v := ReadInbound(h, selfHosts, depthMax);
            && (ReadsAs(h.chain, depthMax, chain) ==> !v.ChainMalformed?)
            && (v.ChainMalformed? || exists read :: ReadsAs(h.chain, depthMax, read))
            && (ReadsAs(h.chain, depthMax, chain) ==>
                  (v == DepthMalformed <==> h.depth.Single? && !(1 <= |h.depth.text| <= 3 && AllDigits(h.depth.text))))
            && (ReadsAs(h.chain, depthMax, chain) && DepthReadsAs(h.depth, depth) ==>
                  && (v == LoopDetected <==> exists i :: 0 <= i < |chain| && chain[i] in selfHosts)
                  && (v == DepthExceeded(depth, depthMax) <==> v != LoopDetected && depth >= depthMax)
                  && (v == Accepted(chain, depth) <==> v != LoopDetected && depth < depthMax))
            && (v == Accepted(chain, depth) ==> ReadsAs(h.chain, depthMax, chain) && DepthReadsAs(h.depth, depth))
  {
    hide CanonicalizeHost, Trim, Split, Number, AllDigits, CanonicalizeAll;
    var elements := ChainElements(PickSingle(h.chain));
    CanonicalizeAllMeaning(elements, chain);
    if CanonicalizeAll(elements).Some? {
      var read := CanonicalizeAll(elements).value;
      CanonicalizeAllMeaning(elements, read);
      if !ReadInbound(h, selfHosts, depthMax).ChainMalformed? { assert ReadsAs(h.chain, depthMax, read); }
    }
  }

  method ReadLinks(elements: seq<string>) returns (r: Option<seq<string>>)
    ensures r == CanonicalizeAll(elements)
  {
    hide CanonicalizeHost, Trim;
    ghost var whole := CanonicalizeAll(elements);
    if whole.Some? { CanonicalizeAllMeaning(elements, whole.value); }
    var chain := [];
    for i := 0 to |elements|
      invariant |chain| == i
      invariant forall k :: 0 <= k < i ==> CanonicalizeHost(Trim(elements[k])) == Some(chain[k])
    {
      var canonical := CanonicalizeHost(Trim(elements[i]));
      if canonical.None? {
        return None;
      }
      chain := chain + [canonical.value];
    }
    CanonicalizeAllMeaning(elements, chain);
    return Some(chain);
  }

  method ReadInboundContracting(h: Headers, selfHosts: seq<string>, depthMax: nat) returns (v: Verdict)
    ensures v == ReadInbound(h, selfHosts, depthMax)
  {
    hide ChainElements, CanonicalizeAll;
    var rawChain := PickSingle(h.chain);
    var rawDepth := PickSingle(h.depth);
    if rawChain.Some? && |rawChain.value| > ChainHeaderMaxChars(depthMax) {
      return ChainMalformed(TooLong);
    }
    var elements := ChainElements(rawChain);
    if |elements| > depthMax + 1 {
      return ChainMalformed(TooManyLinks);
    }
    var read := ReadLinks(elements);
    if read.None? {
      return ChainMalformed(UnreadableLink);
    }
    var chain := read.value;
    var depth := 0;
    if rawDepth.Some? {
      if !IsShortNumber(rawDepth.value) {
        return DepthMalformed;
      }
      depth := DigitsToInt(rawDepth.value);
    }
    for i := 0 to |chain|
      invariant forall k :: 0 <= k < i ==> chain[k] !in selfHosts
    {
      if chain[i] in selfHosts {
        return LoopDetected;
      }
    }
    if depth >= depthMax {
      return DepthExceeded(depth, depthMax);
    }
    return Accepted(chain, depth);
  }

  // ---- printing ----

  function BuildOutbound(chain: seq<string>, depth: nat, canonicalId: Option<string>): Headers {
    if canonicalId.None? then NO_HEADERS
    else Headers(Single(Join(chain + [canonicalId.value], ',')), Single(NumberText(depth + 1)))
  }
}
