// src/lib/resume-token.ts: the signed token that lets one caller resume a suspended
// pipeline. HMAC (section 2 of RFC 2104), UTF-8 and JSON are uninterpreted.
module ResumeTokens {
  import opened Wrappers
  import opened Text
  import opened Base64Url

  const VERSION := "v1"
  const SIGNING_DOMAIN := "resume|"
  const BINDING_DOMAIN := "resume-bind:v1:"
  const MAX_TOKEN_CHARS := 8192
  const CLOCK_SKEW := 60
  const MIN_TTL := 181
  const DEFAULT_MAX_TTL := 86400

  datatype Payload = Payload(bind: string, exp: int, iat: int, rid: string)

  // A decoded JSON value; a field is None where it is absent or of another type.
  datatype Raw = Raw(versionIsOne: bool, bind: Option<string>, exp: Option<int>, iat: Option<int>, rid: Option<string>)

  // `render` is JSON.stringify as UTF-8 bytes; `parse` is None where JSON.parse throws
  // or the value is not an object.
  datatype Crypto = Crypto(hmac: (string, string) -> string, render: Payload -> seq<int>,
                           parse: seq<int> -> Option<Raw>)

  predicate IsLowerHex(c: char) { '0' <= c <= '9' || 'a' <= c <= 'f' }

  // ^[0-9a-f]{64}$
  predicate IsHmacHex(s: string) { |s| == 64 && forall i :: 0 <= i < 64 ==> IsLowerHex(s[i]) }

  ghost predicate Lawful(c: Crypto) {
    && (forall key, text :: IsHmacHex(c.hmac(key, text)))
    && (forall p :: Bytes(c.render(p)) && c.render(p) != []
                    && c.parse(c.render(p)) == Some(Raw(true, Some(p.bind), Some(p.exp), Some(p.iat), Some(p.rid))))
  }

  // ---- lifetimes ----

  // The configured ceiling, as a number; None for NaN and infinities.
  function MaxTtl(configured: Option<real>): (m: int)
    ensures m >= MIN_TTL
    ensures configured.Some? && configured.value >= MIN_TTL as real ==> m as real <= configured.value < m as real + 1.0
  {
    match configured
    case None => DEFAULT_MAX_TTL
    case Some(x) => if x <= 0.0 || x < MIN_TTL as real then DEFAULT_MAX_TTL else x.Floor
  }

  // The lifetime asked for: none, one that is not an integer, or an integer.
  datatype Asked = NotAsked | NotAnInteger | Seconds(n: int)

  function ResolveTtl(asked: Asked, configured: Option<real>): Option<int> {
    match asked
    case NotAsked => Some(MaxTtl(configured))
    case NotAnInteger => None
    case Seconds(n) => if n < MIN_TTL || n > MaxTtl(configured) then None else Some(n)
  }

  // The lifetimes, in seconds: a usable ceiling is a number of at least 181, rounded down;
  // without one it is a day. What is asked for is granted as it is, from 181 up to the
  // ceiling, and nothing else is; who does not ask gets the ceiling.
  lemma LifetimeIsExact(asked: Asked, configured: Option<real>)
    ensures configured.None? || configured.value < 181.0 ==> MaxTtl(configured) == 86400
    ensures configured.Some? && configured.value >= 181.0 ==> MaxTtl(configured) == configured.value.Floor
    ensures asked.NotAsked? ==> ResolveTtl(asked, configured) == Some(MaxTtl(configured))
    ensures asked.NotAnInteger? ==> ResolveTtl(asked, configured) == None
    ensures asked.Seconds? ==> forall n :: ResolveTtl(asked, configured) == Some(n) <==>
                                             n == asked.n && 181 <= n <= MaxTtl(configured)
  {
  }

  // ---- the caller a token is bound to ----

  datatype Kind = Delegation | Session | Key

  datatype Caller = Caller(kind: Kind, id: string)

  function KindText(k: Kind): string {
    match k
    case Delegation => "delegation"
    case Session => "session"
    case Key => "key"
  }

  // None of an identifier is an absent context; the empty one counts as absent too.
  function ResolveCaller(delegation: Option<string>, session: Option<string>, key: Option<string>): Option<Caller> {
    if delegation.Some? && delegation.value != "" then Some(Caller(Delegation, delegation.value))
    else if session.Some? && session.value != "" then Some(Caller(Session, session.value))
    else if key.Some? && key.value != "" then Some(Caller(Key, key.value))
    else None
  }

  // The most specific credential there is: a delegation before a session before a key.
  lemma MostSpecificCaller(delegation: Option<string>, session: Option<string>, key: Option<string>, id: string)
    ensures ResolveCaller(delegation, session, key) == Some(Caller(Delegation, id)) <==>
              delegation == Some(id) && id != ""
    ensures ResolveCaller(delegation, session, key) == Some(Caller(Session, id)) <==>
              (delegation.None? || delegation.value == "") && session == Some(id) && id != ""
    ensures ResolveCaller(delegation, session, key) == Some(Caller(Key, id)) <==>
              && (delegation.None? || delegation.value == "") && (session.None? || session.value == "")
              && key == Some(id) && id != ""
  {
  }

  function BindingText(caller: Caller): string { BINDING_DOMAIN + (KindText(caller.kind) + [':'] + caller.id) }

  function Binding(c: Crypto, secret: string, caller: Caller): string { c.hmac(secret, BindingText(caller)) }

  function SigningText(encoded: string): string { SIGNING_DOMAIN + (VERSION + "." + encoded) }

  // The texts under the signatures, as they are documented.
  lemma SignedTexts(id: string, encoded: string)
    ensures SigningText(encoded) == "resume|v1." + encoded
    ensures BindingText(Caller(Delegation, id)) == "resume-bind:v1:delegation:" + id
    ensures BindingText(Caller(Session, id)) == "resume-bind:v1:session:" + id
    ensures BindingText(Caller(Key, id)) == "resume-bind:v1:key:" + id
  {
    assert SIGNING_DOMAIN + (VERSION + "." + encoded) == "resume|v1." + encoded;
    assert BINDING_DOMAIN + ("delegation" + [':'] + id) == "resume-bind:v1:delegation:" + id;
    assert BINDING_DOMAIN + ("session" + [':'] + id) == "resume-bind:v1:session:" + id;
    assert BINDING_DOMAIN + ("key" + [':'] + id) == "resume-bind:v1:key:" + id;
  }

  // Two credentials never share a binding text, whatever their identifiers hold.
  lemma BindingTextIsInjective(a: Caller, b: Caller)
    requires BindingText(a) == BindingText(b)
    ensures a == b
  {
    var x, y := KindText(a.kind) + [':'] + a.id, KindText(b.kind) + [':'] + b.id;
    assert x == BindingText(a)[|BINDING_DOMAIN|..] && y == BindingText(b)[|BINDING_DOMAIN|..];
    var m, n := |KindText(a.kind)|, |KindText(b.kind)|;
    assert x[m] == ':' && y[n] == ':' && x[0] == KindText(a.kind)[0] && y[0] == KindText(b.kind)[0];
    assert a.kind == b.kind;
    assert a.id == x[m + 1..] && b.id == y[n + 1..];
  }

  // A binding is never the signature of a token: the texts differ, domain by domain.
  lemma DomainsNeverMeet(caller: Caller, encoded: string)
    ensures BindingText(caller) != SigningText(encoded)
  {
    assert BindingText(caller)[6] == '-' && SigningText(encoded)[6] == '|';
  }

  // ---- issue ----

  datatype Signed = Signed(token: string, exp: int)

  // `secret` None or empty: no key is configured. `now` is in milliseconds.
  function SignToken(c: Crypto, secret: Option<string>, runId: string, caller: Caller, ttl: Asked,
                     configured: Option<real>, now: int): Option<Signed>
    requires Lawful(c)
  {
    if secret.None? || secret.value == "" || runId == "" || ResolveTtl(ttl, configured).None? then None
    else
      var iat := now / 1000;
      var exp := iat + ResolveTtl(ttl, configured).value;
      var payload := Payload(Binding(c, secret.value, caller), exp, iat, runId);
      Some(Signed(TokenText(c, secret.value, payload), exp))
  }

  function TokenText(c: Crypto, secret: string, payload: Payload): string
    requires Lawful(c)
  {
    var encoded := Encode(c.render(payload));
    VERSION + "." + encoded + "." + c.hmac(secret, SigningText(encoded))
  }

  // A token is issued exactly with a secret, a run and a lifetime that is granted, and
  // expires when that is over.
  lemma IssuedIff(c: Crypto, secret: Option<string>, runId: string, caller: Caller, ttl: Asked,
                  configured: Option<real>, now: int)
    requires Lawful(c)
    ensures var signed := SignToken(c, secret, runId, caller, ttl, configured, now);
            && (signed.Some? <==> secret.Some? && secret.value != "" && runId != ""
                                  && (ttl.NotAsked? || (ttl.Seconds? && 181 <= ttl.n <= MaxTtl(configured))))
            && (signed.Some? ==> signed.value.exp == now / 1000 + if ttl.Seconds? then ttl.n else MaxTtl(configured))
  {
    LifetimeIsExact(ttl, configured);
  }

  // ---- redemption ----

  datatype Refusal = ResumeInvalid | ResumeExpired

  predicate HexEqual(a: string, b: string) { IsHmacHex(a) && IsHmacHex(b) && a == b }

  function ParsePayload(raw: Raw): Option<Payload> {
    if !raw.versionIsOne then None
    else if raw.bind.None? || !IsHmacHex(raw.bind.value) then None
    else if raw.rid.None? || raw.rid.value == "" then None
    else if raw.iat.None? || raw.exp.None? then None
    else Some(Payload(raw.bind.value, raw.exp.value, raw.iat.value, raw.rid.value))
  }

  function VerifyToken(c: Crypto, secret: Option<string>, token: string, caller: Caller, now: int)
    : Result<Payload, Refusal>
  {
    if token == "" || |token| > MAX_TOKEN_CHARS then Err(ResumeInvalid)
    else if secret.None? || secret.value == "" then Err(ResumeInvalid)
    else
      var parts := Split(token, '.');
      if |parts| != 3 || parts[0] != VERSION || parts[1] == "" || !IsHmacHex(parts[2]) then Err(ResumeInvalid)
      else if !HexEqual(c.hmac(secret.value, SigningText(parts[1])), parts[2]) then Err(ResumeInvalid)
      else
        match c.parse(Decode(parts[1]))
        case None => Err(ResumeInvalid)
        case Some(raw) => CheckPayload(c, secret.value, ParsePayload(raw), caller, now)
  }

  // The checks on the payload of an authentic token.
  function CheckPayload(c: Crypto, secret: string, payload: Option<Payload>, caller: Caller, now: int)
    : Result<Payload, Refusal>
  {
    if payload.None? then Err(ResumeInvalid)
    else
      var p, nowSec := payload.value, now / 1000;
      if nowSec >= p.exp then Err(ResumeExpired)
      else if p.iat > nowSec + CLOCK_SKEW then Err(ResumeInvalid)
      else if !HexEqual(Binding(c, secret, caller), p.bind) then Err(ResumeInvalid)
      else Ok(p)
  }

  // ---- what the pair promises ----

  lemma JoinThree(a: string, b: string, c: string)
    ensures Join([a, b, c], '.') == a + "." + b + "." + c
  {
    assert [a, b, c][1..] == [b, c] && [b, c][1..] == [c];
    assert Join([b, c], '.') == b + ['.'] + c;
    assert a + ['.'] + (b + ['.'] + c) == a + "." + b + "." + c;
  }

  // An authentic token is read back as the payload it was made from.
  lemma ReadsBack(c: Crypto, secret: string, payload: Payload, caller: Caller, now: int)
    requires Lawful(c) && secret != "" && payload.rid != "" && IsHmacHex(payload.bind)
    requires |TokenText(c, secret, payload)| <= MAX_TOKEN_CHARS
    ensures VerifyToken(c, Some(secret), TokenText(c, secret, payload), caller, now)
            == CheckPayload(c, secret, Some(payload), caller, now)
  {
    var bytes := c.render(payload);
    var encoded, token := Encode(bytes), TokenText(c, secret, payload);
    var signature := c.hmac(secret, SigningText(encoded));
    DecodeEncode(bytes);
    assert IsHmacHex(signature);
    assert '.' !in signature;
    assert '.' !in VERSION;
    var parts := [VERSION, encoded, signature];
    JoinThree(VERSION, encoded, signature);
    assert token == Join(parts, '.');
    SplitJoin(parts, '.');
  }

  // A token verifies for the caller it was issued to exactly while it is neither
  // expired nor from the future, and then names the run it was issued for.
  lemma RoundTrip(c: Crypto, secret: string, runId: string, caller: Caller, ttl: Asked, configured: Option<real>,
                  issued: int, now: int)
    requires Lawful(c)
    requires SignToken(c, Some(secret), runId, caller, ttl, configured, issued).Some?
    requires |SignToken(c, Some(secret), runId, caller, ttl, configured, issued).value.token| <= MAX_TOKEN_CHARS
    ensures var signed := SignToken(c, Some(secret), runId, caller, ttl, configured, issued).value;
            var iat, seconds := issued / 1000, now / 1000;
            var verdict := VerifyToken(c, Some(secret), signed.token, caller, now);
            && iat + MIN_TTL <= signed.exp <= iat + MaxTtl(configured)
            && (verdict.Ok? <==> iat - CLOCK_SKEW <= seconds < signed.exp)
            && (verdict.Ok? ==> verdict.value.rid == runId && verdict.value.exp == signed.exp)
            && (verdict == Err(ResumeExpired) <==> seconds >= signed.exp)
  {
    var iat := issued / 1000;
    var payload := Payload(Binding(c, secret, caller), iat + ResolveTtl(ttl, configured).value, iat, runId);
    ReadsBack(c, secret, payload, caller, now);
    assert IsHmacHex(Binding(c, secret, caller));
  }

  // The MAC tells these two texts apart under the secret.
  predicate Separates(c: Crypto, secret: string, a: string, b: string) {
    a != b ==> c.hmac(secret, a) != c.hmac(secret, b)
  }

  // Another credential, whatever its kind and identifier, gets the answer a forged
  // token gets for as long as the token is good.
  lemma OthersSeeAForgery(c: Crypto, secret: string, runId: string, owner: Caller, other: Caller, ttl: Asked,
                          configured: Option<real>, issued: int, now: int)
    requires Lawful(c) && owner != other && Separates(c, secret, BindingText(owner), BindingText(other))
    requires SignToken(c, Some(secret), runId, owner, ttl, configured, issued).Some?
    requires |SignToken(c, Some(secret), runId, owner, ttl, configured, issued).value.token| <= MAX_TOKEN_CHARS
    ensures var signed := SignToken(c, Some(secret), runId, owner, ttl, configured, issued).value;
            VerifyToken(c, Some(secret), signed.token, other, now)
            == Err(if now / 1000 >= signed.exp then ResumeExpired else ResumeInvalid)
  {
    hide BindingText, SigningText;
    if BindingText(owner) == BindingText(other) { BindingTextIsInjective(owner, other); }
    var iat := issued / 1000;
    var payload := Payload(Binding(c, secret, owner), iat + ResolveTtl(ttl, configured).value, iat, runId);
    assert IsHmacHex(Binding(c, secret, owner));
    ReadsBack(c, secret, payload, other, now);
  }

  // So a pipeline suspended under a delegation or a session cannot be resumed by the
  // same key without it.
  lemma KeyAloneCannotResume(c: Crypto, secret: string, runId: string,
                             delegation: Option<string>, session: Option<string>, key: string,
                             ttl: Asked, configured: Option<real>, issued: int, now: int)
    requires Lawful(c) && key != ""
    requires (delegation.Some? && delegation.value != "") || (session.Some? && session.value != "")
    requires var owner := ResolveCaller(delegation, session, Some(key)).value;
             && Separates(c, secret, BindingText(owner), BindingText(ResolveCaller(None, None, Some(key)).value))
             && SignToken(c, Some(secret), runId, owner, ttl, configured, issued).Some?
             && |SignToken(c, Some(secret), runId, owner, ttl, configured, issued).value.token| <= MAX_TOKEN_CHARS
    ensures var owner := ResolveCaller(delegation, session, Some(key)).value;
            var signed := SignToken(c, Some(secret), runId, owner, ttl, configured, issued).value;
            VerifyToken(c, Some(secret), signed.token, ResolveCaller(None, None, Some(key)).value, now).Err?
  {
    hide BindingText, SignToken, VerifyToken;
    var owner, alone := ResolveCaller(delegation, session, Some(key)).value, ResolveCaller(None, None, Some(key)).value;
    OthersSeeAForgery(c, secret, runId, owner, alone, ttl, configured, issued, now);
  }

  const LOWER_HEX_DIGITS: set<char> :=
    {'0', '1', '2', '3', '4', '5', '6', '7', '8', '9', 'a', 'b', 'c', 'd', 'e', 'f'}

  lemma HmacShape(s: string)
    ensures IsHmacHex(s) <==> |s| == 64 && forall i :: 0 <= i < 64 ==> s[i] in LOWER_HEX_DIGITS
  {
    forall i | 0 <= i < |s| ensures IsLowerHex(s[i]) <==> s[i] in LOWER_HEX_DIGITS {}
  }

  // The token is a text of the documented form under the secret's signature, and holds
  // this payload, of version 1.
  ghost predicate Holds(c: Crypto, secret: string, token: string, p: Payload, encoded: string) {
    && encoded != "" && '.' !in encoded && |token| <= 8192
    && token == "v1." + encoded + "." + c.hmac(secret, SigningText(encoded))
    && IsHmacHex(c.hmac(secret, SigningText(encoded)))
    && c.parse(Decode(encoded)) == Some(Raw(true, Some(p.bind), Some(p.exp), Some(p.iat), Some(p.rid)))
    && IsHmacHex(p.bind) && p.rid != ""
  }

  ghost predicate Authentic(c: Crypto, secret: string, token: string, p: Payload) {
    exists encoded :: Holds(c, secret, token, p, encoded)
  }

  // Whatever is accepted was signed, as a token, with the secret, and carries the
  // caller's own binding, in its time; and whatever is all that is accepted. An expired
  // token is told apart from a forged one for every caller, and only while its signature
  // is good. Without a secret nothing is accepted.
  lemma AcceptedMeansSigned(c: Crypto, secret: Option<string>, token: string, caller: Caller, now: int, p: Payload)
    ensures VerifyToken(c, secret, token, caller, now) == Ok(p) <==>
              && secret.Some? && secret.value != "" && Authentic(c, secret.value, token, p)
              && p.bind == Binding(c, secret.value, caller) && now / 1000 < p.exp && p.iat <= now / 1000 + 60
    ensures VerifyToken(c, secret, token, caller, now) == Err(ResumeExpired) <==>
              && secret.Some? && secret.value != ""
              && exists q :: Authentic(c, secret.value, token, q) && now / 1000 >= q.exp
  {
    if secret.Some? && secret.value != "" {
      var read := ReadToken(c, secret.value, token, caller, now);
      assert read.Some? ==> Authentic(c, secret.value, token, read.value);
    }
  }

  // What verification reads of a token before it looks at the payload.
  lemma ReadToken(c: Crypto, secret: string, token: string, caller: Caller, now: int) returns (p: Option<Payload>)
    requires secret != ""
    ensures VerifyToken(c, Some(secret), token, caller, now) == CheckPayload(c, secret, p, caller, now)
    ensures p.Some? ==> Authentic(c, secret, token, p.value)
    ensures p.None? ==> VerifyToken(c, Some(secret), token, caller, now) == Err(ResumeInvalid)
    ensures forall q :: Authentic(c, secret, token, q) ==> p == Some(q)
  {
    p := None;
    var parts := Split(token, '.');
    if && 0 < |token| <= MAX_TOKEN_CHARS && |parts| == 3 && parts[0] == VERSION && parts[1] != "" && IsHmacHex(parts[2])
       && HexEqual(c.hmac(secret, SigningText(parts[1])), parts[2]) && c.parse(Decode(parts[1])).Some?
    {
      p := ParsePayload(c.parse(Decode(parts[1])).value);
      JoinSplit(token, '.');
      assert parts == [parts[0], parts[1], parts[2]];
      JoinThree(parts[0], parts[1], parts[2]);
      assert p.Some? ==> Holds(c, secret, token, p.value, parts[1]);
    }
    forall q | Authentic(c, secret, token, q) ensures p == Some(q) {
      var encoded :| Holds(c, secret, token, q, encoded);
      PartsOf(encoded, c.hmac(secret, SigningText(encoded)));
    }
  }

  lemma PartsOf(encoded: string, signature: string)
    requires '.' !in encoded && IsHmacHex(signature)
    ensures Split("v1." + encoded + "." + signature, '.') == ["v1", encoded, signature]
  {
    assert '.' !in signature;
    assert '.' !in VERSION;
    JoinThree("v1", encoded, signature);
    assert "v1" + "." + encoded + "." + signature == "v1." + encoded + "." + signature;
    SplitJoin(["v1", encoded, signature], '.');
  }
}
