// Runs of the contracting protocol over a network of honest gateways: what a
// printed chain reads back as, why no lineage comes back to a gateway, and what
// one request can cost. src/lib/contracting-chain.ts.
module Network {
  import opened Wrappers
  import opened Positional
  import opened Text
  import opened Decimal
  import opened Contracting

  // ---- printing, then reading ----

  lemma {:induction false} JoinedLength(hosts: seq<string>)
    requires |hosts| > 0 && forall i :: 0 <= i < |hosts| ==> |hosts[i]| <= MAX_HOSTNAME_CHARS
    ensures |Join(hosts, ',')| <= (MAX_HOSTNAME_CHARS + 1) * |hosts| - 1
  {
    if |hosts| > 1 { JoinedLength(hosts[1..]); }
  }

  // The links a chain header is split into when no host contains a comma.
  lemma ElementsOfJoined(hosts: seq<string>)
    requires |hosts| > 0 && forall i :: 0 <= i < |hosts| ==> ',' !in hosts[i]
    requires |hosts[0]| > 0 && !IsSpace(hosts[0][0])
    ensures ChainElements(Some(Join(hosts, ','))) == hosts
  {
    SplitJoin(hosts, ',');
    TrimKeepsFirst(Join(hosts, ','));
  }

  // A read chain never contains a comma, whatever the header was.
  lemma ReadChainShape(raw: Option<string>, chain: seq<string>)
    requires CanonicalizeAll(ChainElements(raw)) == Some(chain)
    ensures forall i :: 0 <= i < |chain| ==>
              ',' !in chain[i] && 0 < |chain[i]| <= MAX_HOSTNAME_CHARS && Trim(chain[i]) == chain[i]
  {
    var elements := ChainElements(raw);
    CanonicalizeAllMeaning(elements, chain);
    if raw.Some? { JoinSplit(raw.value, ','); }
    forall i | 0 <= i < |chain|
      ensures ',' !in chain[i] && 0 < |chain[i]| <= MAX_HOSTNAME_CHARS && Trim(chain[i]) == chain[i]
    {
      TrimIsPart(elements[i]);
      var h := CanonicalizedShape(Trim(elements[i]));
    }
  }

  // A chain survives printing and reading exactly when all its hosts are
  // canonical and free of commas.
  lemma LinksSurvive(chain: seq<string>)
    requires |chain| > 0
    ensures CanonicalizeAll(ChainElements(Some(Join(chain, ',')))) == Some(chain) <==>
            forall i :: 0 <= i < |chain| ==> IsLink(chain[i])
  {
    var header := Some(Join(chain, ','));
    if forall i :: 0 <= i < |chain| ==> IsLink(chain[i]) {
      forall i | 0 <= i < |chain| ensures Trim(chain[i]) == chain[i] && |chain[i]| > 0 {
        var h := CanonicalizedShape(chain[i]);
      }
      TrimIsFixed(chain[0]);
      ElementsOfJoined(chain);
      CanonicalizeAllMeaning(chain, chain);
    } else if CanonicalizeAll(ChainElements(header)) == Some(chain) {
      ReadChainShape(header, chain);
      TrimIsFixed(chain[0]);
      ElementsOfJoined(chain);
      CanonicalizeAllMeaning(chain, chain);
      assert false;
    }
  }

  predicate AllLinks(chain: seq<string>) { forall i :: 0 <= i < |chain| ==> IsLink(chain[i]) }

  lemma DepthText(depth: nat)
    requires depth < 1000
    ensures IsShortNumber(NumberText(depth)) && Number(NumberText(depth)) == depth
  {
    assert Pow(10, 3) == 1000;
    NumberTextLength(depth, 3);
  }

  lemma Reads(text: string, depth: nat, chain: seq<string>, selfHosts: seq<string>, depthMax: nat)
    requires CanonicalizeAll(ChainElements(Some(text))) == Some(chain) && depth < 1000
    ensures ReadInbound(Headers(Single(text), Single(NumberText(depth))), selfHosts, depthMax) ==
            if |text| > ChainHeaderMaxChars(depthMax) then ChainMalformed(TooLong)
            else if |chain| > depthMax + 1 then ChainMalformed(TooManyLinks)
            else if OwnsAny(chain, selfHosts) then LoopDetected
            else if depth >= depthMax then DepthExceeded(depth, depthMax)
            else Accepted(chain, depth)
  {
    DepthText(depth);
  }

  // What any gateway makes of the headers another one printed, whatever the two
  // ceilings: the chain with the printer's link appended and the depth one more,
  // held to the reader's own budget and number of links, then judged by
  // membership, then by the reader's ceiling.
  lemma ReadBack(chain: seq<string>, depth: nat, id: string, selfHosts: seq<string>, depthMax: nat)
    requires AllLinks(chain + [id]) && depth < DEPTH_MAX_ENV_CEILING
    ensures var whole := chain + [id];
            ReadInbound(BuildOutbound(chain, depth, Some(id)), selfHosts, depthMax) ==
            if |Join(whole, ',')| > ChainHeaderMaxChars(depthMax) then ChainMalformed(TooLong)
            else if |whole| > depthMax + 1 then ChainMalformed(TooManyLinks)
            else if OwnsAny(whole, selfHosts) then LoopDetected
            else if depth + 1 >= depthMax then DepthExceeded(depth + 1, depthMax)
            else Accepted(whole, depth + 1)
  {
    var whole := chain + [id];
    LinksSurvive(whole);
    Reads(Join(whole, ','), depth + 1, whole, selfHosts, depthMax);
  }

  // A chain of at most sixteen links fits every reader that admits their number.
  lemma FitsUpToSixteen(whole: seq<string>, depthMax: nat)
    requires 0 < |whole| <= 16 && AllLinks(whole) && |whole| <= depthMax + 1
    ensures |Join(whole, ',')| <= ChainHeaderMaxChars(depthMax)
  {
    forall i | 0 <= i < |whole| ensures |whole[i]| <= MAX_HOSTNAME_CHARS {
      var h := CanonicalizedShape(whole[i]);
    }
    JoinedLength(whole);
  }

  // So a printed chain of at most sixteen links is malformed for a reader exactly
  // when it has more links than the reader's ceiling and one.
  lemma HonestReadBack(chain: seq<string>, depth: nat, id: string, selfHosts: seq<string>, depthMax: nat)
    requires AllLinks(chain + [id]) && |chain| < 16 && depth < DEPTH_MAX_ENV_CEILING
    ensures var whole := chain + [id];
            var verdict := ReadInbound(BuildOutbound(chain, depth, Some(id)), selfHosts, depthMax);
            && (verdict.ChainMalformed? <==> |whole| > depthMax + 1)
            && (|whole| <= depthMax + 1 ==>
                  verdict == if OwnsAny(whole, selfHosts) then LoopDetected
                             else if depth + 1 >= depthMax then DepthExceeded(depth + 1, depthMax)
                             else Accepted(whole, depth + 1))
  {
    if |chain| <= depthMax { FitsUpToSixteen(chain + [id], depthMax); }
    ReadBack(chain, depth, id, selfHosts, depthMax);
  }

  // ---- one lineage: a path of accepted hops ----

  // One accepted request: the configured identity and the depth ceiling of the
  // gateway that accepted it, the headers it carried, the request's Host hint, and
  // what was read.
  datatype Hop = Hop(configured: seq<string>, ceiling: nat, headers: Headers, hint: Option<string>,
                     chain: seq<string>, depth: nat)

  function IdentityOf(hop: Hop): seq<string> { WithHint(hop.configured, hop.hint) }

  predicate Accepts(hop: Hop) {
    ReadInbound(hop.headers, IdentityOf(hop), hop.ceiling) == Accepted(hop.chain, hop.depth)
  }

  function Outbound(hop: Hop): Headers {
    BuildOutbound(hop.chain, hop.depth, CanonicalId(IdentityOf(hop)))
  }

  // With a configuration or a readable hint a gateway has a host to announce.
  predicate Announces(hop: Hop) { |IdentityOf(hop)| > 0 }

  // The host a gateway announces itself with: the first configured one, or the hint.
  function IdOf(hop: Hop): string
    requires Announces(hop)
  {
    IdentityOf(hop)[0]
  }

  // Every hop is accepted, and every hop but the first carries exactly the
  // headers its predecessor printed. Each gateway has a host to announce.
  predicate Lineage(path: seq<Hop>) {
    && (forall i :: 0 <= i < |path| ==>
          && Announces(path[i]) && IsHost(IdOf(path[i]))
          && path[i].ceiling <= DEPTH_MAX_ENV_CEILING && Accepts(path[i]))
    && (forall i :: 0 < i < |path| ==> path[i].headers == Outbound(path[i - 1]))
  }

  // A lineage of gateways that all announce themselves with a link.
  predicate HonestPath(path: seq<Hop>) {
    Lineage(path) && forall i :: 0 <= i < |path| ==> IsLink(IdOf(path[i]))
  }

  // What acceptance says about the chain and the depth that were read.
  predicate SoundHop(hop: Hop) {
    && hop.depth < hop.ceiling
    && (forall h :: h in hop.chain ==> ',' !in h && 0 < |h| && Trim(h) == h && h !in IdentityOf(hop))
  }

  lemma AcceptedIsSound(hop: Hop)
    requires Accepts(hop)
    ensures SoundHop(hop)
    ensures CanonicalizeAll(ChainElements(PickSingle(hop.headers.chain))) == Some(hop.chain)
    ensures var raw := PickSingle(hop.headers.depth);
            if raw.None? then hop.depth == 0 else IsShortNumber(raw.value) && hop.depth == Number(raw.value)
  {
    ReadChainShape(PickSingle(hop.headers.chain), hop.chain);
  }

  // b carries a's chain with a's link appended, one deeper; the hosts of `kept`
  // stay in place.
  predicate Follows(a: Hop, b: Hop, kept: set<string>)
    requires Announces(a)
  {
    && b.depth == a.depth + 1
    && |b.chain| == |a.chain| + 1 && b.chain[|a.chain|] == IdOf(a)
    && forall i :: 0 <= i < |a.chain| && a.chain[i] in kept ==> b.chain[i] == a.chain[i]
  }

  lemma PrintedThenRead(whole: seq<string>, read: seq<string>)
    requires |whole| > 0
    requires forall i :: 0 <= i < |whole| ==> ',' !in whole[i] && 0 < |whole[i]| && Trim(whole[i]) == whole[i]
    requires CanonicalizeAll(ChainElements(Some(Join(whole, ',')))) == Some(read)
    ensures |read| == |whole|
    ensures forall i :: 0 <= i < |whole| ==> CanonicalizeHost(whole[i]) == Some(read[i])
  {
    TrimIsFixed(whole[0]);
    ElementsOfJoined(whole);
    CanonicalizeAllMeaning(whole, read);
  }

  lemma ConfiguredId(hop: Hop)
    requires |hop.configured| > 0
    ensures Announces(hop) && IdOf(hop) == hop.configured[0]
  {
  }

  lemma IdIsOwned(hop: Hop)
    requires Announces(hop)
    ensures IdOf(hop) in IdentityOf(hop) && CanonicalId(IdentityOf(hop)) == Some(IdOf(hop))
  {
    assert IdentityOf(hop)[0] == IdOf(hop);
  }

  lemma PrintableChain(a: Hop)
    requires SoundHop(a) && Announces(a) && IsLink(IdOf(a))
    ensures var whole := a.chain + [IdOf(a)];
            forall i :: 0 <= i < |whole| ==> ',' !in whole[i] && 0 < |whole[i]| && Trim(whole[i]) == whole[i]
  {
    var whole := a.chain + [IdOf(a)];
    var h := CanonicalizedShape(IdOf(a));
    forall i | 0 <= i < |whole| ensures ',' !in whole[i] && 0 < |whole[i]| && Trim(whole[i]) == whole[i] {
      if i < |a.chain| { assert whole[i] in a.chain; }
    }
  }

  lemma PrintedBy(a: Hop) returns (whole: seq<string>)
    requires Announces(a)
    ensures whole == a.chain + [IdOf(a)]
    ensures Outbound(a) == Headers(Single(Join(whole, ',')), Single(NumberText(a.depth + 1)))
  {
    IdIsOwned(a);
    whole := a.chain + [IdOf(a)];
  }

  lemma LinkStays(h: string, read: Option<string>)
    requires IsLink(h) && CanonicalizeHost(h) == read
    ensures read == Some(h)
  {
  }

  lemma NextHop(a: Hop, b: Hop, kept: set<string>)
    requires a.ceiling <= DEPTH_MAX_ENV_CEILING && Accepts(b) && SoundHop(a)
    requires Announces(a) && b.headers == Outbound(a)
    requires IdOf(a) in kept && forall h :: h in kept ==> IsLink(h)
    ensures Follows(a, b, kept)
  {
    hide IsLink, CanonicalizeHost, CanonicalizeAll, ChainElements, Trim;
    var whole := PrintedBy(a);
    AcceptedIsSound(b);
    DepthText(a.depth + 1);
    PrintableChain(a);
    PrintedThenRead(whole, b.chain);
    forall i | 0 <= i < |whole| && whole[i] in kept ensures b.chain[i] == whole[i] {
      LinkStays(whole[i], Some(b.chain[i]));
    }
  }

  function Ids(path: seq<Hop>): set<string>
    requires forall i :: 0 <= i < |path| ==> Announces(path[i])
  {
    set i | 0 <= i < |path| :: IdOf(path[i])
  }

  // The chains along a path: each hop's follows from the one before.
  predicate Linked(path: seq<Hop>) {
    && (forall i :: 0 <= i < |path| ==> Announces(path[i]))
    && (forall i :: 0 < i < |path| ==> Follows(path[i - 1], path[i], Ids(path)))
  }

  // An honest path, reduced to what its hops read.
  predicate SoundPath(path: seq<Hop>) {
    Linked(path) && forall i :: 0 <= i < |path| ==> SoundHop(path[i])
  }

  lemma HonestIsSound(path: seq<Hop>)
    requires HonestPath(path)
    ensures SoundPath(path)
  {
    forall i | 0 <= i < |path| ensures SoundHop(path[i]) {
      AcceptedIsSound(path[i]);
    }
    forall i | 0 < i < |path| ensures Follows(path[i - 1], path[i], Ids(path)) {
      assert IdOf(path[i - 1]) in Ids(path);
      NextHop(path[i - 1], path[i], Ids(path));
    }
  }

  // The link of every gateway already passed is in the chain a later hop reads.
  lemma {:induction false} PassedIsInChain(path: seq<Hop>, i: nat, j: nat) returns (k: nat)
    requires Linked(path) && i < j < |path|
    ensures k < |path[j].chain| && path[j].chain[k] == IdOf(path[i])
    decreases j
  {
    assert Follows(path[j - 1], path[j], Ids(path));
    if i < j - 1 {
      k := PassedIsInChain(path, i, j - 1);
      assert IdOf(path[i]) in Ids(path);
    } else {
      k := |path[i].chain|;
    }
  }

  // Loop safety among gateways with links: whatever headers the lineage started with
  // and whatever hints the requests carry, no gateway along it owns the link of an
  // earlier one, so none that is configured accepts the same lineage twice.
  lemma NoGatewayTwice(path: seq<Hop>, i: nat, j: nat)
    requires HonestPath(path) && i < j < |path|
    ensures IdOf(path[i]) !in IdentityOf(path[j])
    ensures IdOf(path[i]) != IdOf(path[j])
    ensures |path[i].configured| > 0 ==> path[i].configured != path[j].configured
  {
    HonestIsSound(path);
    NoIdTwice(path, i, j);
    if |path[i].configured| > 0 { ConfiguredId(path[i]); }
    if |path[j].configured| > 0 { ConfiguredId(path[j]); }
  }

  lemma NoIdTwice(path: seq<Hop>, i: nat, j: nat)
    requires SoundPath(path) && i < j < |path|
    ensures IdOf(path[i]) !in IdentityOf(path[j]) && IdOf(path[i]) != IdOf(path[j])
  {
    var k := PassedIsInChain(path, i, j);
    assert path[j].chain[k] in path[j].chain;
    IdIsOwned(path[j]);
  }

  function PassedIds(path: seq<Hop>, n: nat): (ids: seq<string>)
    requires n <= |path| && forall i :: 0 <= i < |path| ==> Announces(path[i])
    ensures |ids| == n && forall i :: 0 <= i < n ==> ids[i] == IdOf(path[i])
  {
    seq(n, i requires 0 <= i < n => IdOf(path[i]))
  }

  lemma {:induction false} ChainIsPassedIds(path: seq<Hop>, j: nat)
    requires Linked(path) && j < |path|
    requires path[0].chain == [] && path[0].depth == 0
    ensures path[j].chain == PassedIds(path, j) && path[j].depth == j
  {
    if j == 0 {
    } else {
      ChainIsPassedIds(path, j - 1);
      assert Follows(path[j - 1], path[j], Ids(path));
      forall i | 0 <= i < j - 1 ensures path[j].chain[i] == IdOf(path[i]) {
        assert path[j - 1].chain[i] == IdOf(path[i]) && IdOf(path[i]) in Ids(path);
      }
    }
  }

  // A lineage that starts without headers carries exactly the links of the
  // gateways it passed, in order and pairwise distinct; its depth is their number
  // and stays below the reader's ceiling.
  lemma ChainIsThePath(path: seq<Hop>, j: nat)
    requires HonestPath(path) && j < |path| && path[0].headers == NO_HEADERS
    ensures path[j].chain == PassedIds(path, j) && path[j].depth == j < path[j].ceiling
    ensures Distinct(PassedIds(path, j))
  {
    HonestIsSound(path);
    AcceptedIsSound(path[0]);
    ChainIsPassedIds(path, j);
    forall a, b | 0 <= a < b < j ensures PassedIds(path, j)[a] != PassedIds(path, j)[b] {
      NoIdTwice(path, a, b);
    }
  }

  lemma ReadsNothing(selfHosts: seq<string>, depthMax: nat)
    requires depthMax > 0
    ensures ReadInbound(NO_HEADERS, selfHosts, depthMax) == Accepted([], 0)
  {
  }
}
