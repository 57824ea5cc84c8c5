// Where the guarantees of the contracting network end, reached from ordinary
// configurations: src/lib/contracting-chain.ts.
module NetworkLimits {
  import opened Wrappers
  import opened Positional
  import opened Text
  import opened Decimal
  import opened Contracting
  import opened Network
  import opened Lineages
  import opened RoundTrips

  // ---- chains that honest gateways print and others refuse ----

  lemma {:induction false} JoinedLengthOfLongest(hosts: seq<string>)
    requires |hosts| > 0 && forall i :: 0 <= i < |hosts| ==> |hosts[i]| == MAX_HOSTNAME_CHARS
    ensures |Join(hosts, ',')| == (MAX_HOSTNAME_CHARS + 1) * |hosts| - 1
  {
    if |hosts| > 1 { JoinedLengthOfLongest(hosts[1..]); }
  }

  lemma LongestLink(c: char) returns (h: string)
    requires 'a' <= c <= 'z'
    ensures IsLink(h) && |h| == MAX_HOSTNAME_CHARS && h[0] == c
  {
    h := Repeat(c, MAX_HOSTNAME_CHARS);
    assert Lower(h) == h;
    LowerHostIsCanonical(h);
  }

  // What the seventeenth prints is longer than any header may be.
  lemma LastLinkOverflows(hosts: seq<string>, selfHosts: seq<string>, reader: nat)
    requires |hosts| == 17 && AllLinks(hosts)
    requires forall i :: 0 <= i < 17 ==> |hosts[i]| == MAX_HOSTNAME_CHARS
    ensures ReadInbound(BuildOutbound(hosts[..16], 16, Some(hosts[16])), selfHosts, reader) == ChainMalformed(TooLong)
  {
    hide ReadInbound, BuildOutbound, IsLink, OwnsAny, Join;
    assert hosts[..16] + [hosts[16]] == hosts;
    JoinedLengthOfLongest(hosts);
    ReadBack(hosts[..16], 16, hosts[16], selfHosts, reader);
  }

  // From a ceiling of 17 on it need not: seventeen hosts of the longest legal
  // length print a chain that every reader refuses as malformed, although the chain
  // of sixteen before it was fine.
  lemma SeventeenLongestHostsOverflow(hosts: seq<string>, selfHosts: seq<string>, depthMax: nat, reader: nat)
    requires |hosts| == 17 <= depthMax <= DEPTH_MAX_ENV_CEILING
    requires AllLinks(hosts) && forall i :: 0 <= i < |hosts| ==> |hosts[i]| == MAX_HOSTNAME_CHARS
    requires !OwnsAny(hosts[..16], selfHosts)
    ensures ReadInbound(BuildOutbound(hosts[..15], 15, Some(hosts[15])), selfHosts, depthMax)
            == Accepted(hosts[..16], 16)
    ensures ReadInbound(BuildOutbound(hosts[..16], 16, Some(hosts[16])), selfHosts, reader)
            == ChainMalformed(TooLong)
  {
    hide ReadInbound, BuildOutbound, IsLink, OwnsAny;
    assert hosts[..15] + [hosts[15]] == hosts[..16];
    JoinedLengthOfLongest(hosts[..16]);
    ReadBack(hosts[..15], 15, hosts[15], selfHosts, depthMax);
    LastLinkOverflows(hosts, selfHosts, reader);
  }

  // Seventeen different hosts of the longest legal length.
  lemma SeventeenLongestHosts() returns (hosts: seq<string>)
    ensures |hosts| == 17 && AllLinks(hosts) && Distinct(hosts)
    ensures forall i :: 0 <= i < 17 ==> |hosts[i]| == MAX_HOSTNAME_CHARS
  {
    hosts := [];
    while |hosts| < 17
      invariant |hosts| <= 17 && AllLinks(hosts)
      invariant forall i :: 0 <= i < |hosts| ==>
                  |hosts[i]| == MAX_HOSTNAME_CHARS && hosts[i][0] == ('a' as int + i) as char
    {
      var h := LongestLink(('a' as int + |hosts|) as char);
      hosts := hosts + [h];
    }
    forall i, j | 0 <= i < j < 17 ensures hosts[i] != hosts[j] {
      assert hosts[i][0] != hosts[j][0];
    }
  }

  // The k-th gateway of the lineage: it is the k-th host, and has read those before.
  predicate IsHopOf(hop: Hop, hosts: seq<string>, k: nat, depthMax: nat)
    requires k < |hosts|
  {
    && hop.configured == [hosts[k]] && hop.ceiling == depthMax && hop.hint == None
    && hop.chain == hosts[..k] && hop.depth == k
    && Outbound(hop) == BuildOutbound(hosts[..k], k, Some(hosts[k]))
    && hop.headers == if k == 0 then NO_HEADERS else BuildOutbound(hosts[..k - 1], k - 1, Some(hosts[k - 1]))
  }

  lemma HopOf(hosts: seq<string>, k: nat, depthMax: nat) returns (hop: Hop)
    requires k < |hosts| <= 17 && k < depthMax <= DEPTH_MAX_ENV_CEILING && AllLinks(hosts) && Distinct(hosts)
    ensures IsHopOf(hop, hosts, k, depthMax) && Announces(hop) && IsLink(IdOf(hop)) && IsHost(IdOf(hop)) && Accepts(hop)
  {
    hide ReadInbound, BuildOutbound, IsLink, IsHost, Join, CanonicalizeHost;
    var headers := if k == 0 then NO_HEADERS else BuildOutbound(hosts[..k - 1], k - 1, Some(hosts[k - 1]));
    hop := Hop([hosts[k]], depthMax, headers, None, hosts[..k], k);
    LinkIsHost(hosts[k]);
    if k == 0 {
      ReadsNothing([hosts[0]], depthMax);
    } else {
      assert hosts[..k - 1] + [hosts[k - 1]] == hosts[..k];
      assert !OwnsAny(hosts[..k], [hosts[k]]) by {
        forall i | 0 <= i < k ensures hosts[..k][i] !in [hosts[k]] { assert hosts[i] != hosts[k]; }
      }
      HonestReadBack(hosts[..k - 1], k - 1, hosts[k - 1], [hosts[k]], depthMax);
    }
  }

  // A lineage begun without headers, of gateways with links, none of whose ceilings
  // is above this one.
  predicate HonestUnder(path: seq<Hop>, ceiling: nat) {
    && HonestPath(path) && |path| > 0 && path[0].headers == NO_HEADERS
    && forall k :: 0 <= k < |path| ==> path[k].ceiling <= ceiling
  }

  lemma HonestLineage(hosts: seq<string>, depthMax: nat) returns (path: seq<Hop>)
    requires 0 < |hosts| <= 17 && AllLinks(hosts) && Distinct(hosts)
    requires |hosts| <= depthMax <= DEPTH_MAX_ENV_CEILING
    ensures |path| == |hosts| && HonestUnder(path, depthMax)
    ensures var n := |hosts| - 1; Outbound(path[n]) == BuildOutbound(hosts[..n], n, Some(hosts[n]))
    ensures forall k :: 0 <= k < |path| ==> path[k].ceiling == depthMax && path[k].hint == None
  {
    hide ReadInbound, BuildOutbound, IsLink, IsHost, Accepts, Outbound, IdentityOf;
    path := [];
    while |path| < |hosts|
      invariant |path| <= |hosts| && HonestPath(path)
      invariant forall k :: 0 <= k < |path| ==> IsHopOf(path[k], hosts, k, depthMax)
    {
      var k := |path|;
      var hop := HopOf(hosts, k, depthMax);
      assert k > 0 ==> IsHopOf(path[k - 1], hosts, k - 1, depthMax);
      path := path + [hop];
    }
    assert IsHopOf(path[0], hosts, 0, depthMax);
    assert IsHopOf(path[|hosts| - 1], hosts, |hosts| - 1, depthMax);
  }

  // From a ceiling of 17 on there is an honest lineage, begun without headers, of
  // seventeen gateways; what the last of them prints, no gateway can read, whatever
  // its own ceiling and identity.
  lemma HonestLineageOverflows(depthMax: nat) returns (path: seq<Hop>)
    requires 17 <= depthMax <= DEPTH_MAX_ENV_CEILING
    ensures |path| == 17 && HonestUnder(path, depthMax)
    ensures forall k :: 0 <= k < 17 ==> path[k].ceiling == depthMax
    ensures forall selfHosts, reader: nat ::
              ReadInbound(Outbound(path[16]), selfHosts, reader) == ChainMalformed(TooLong)
  {
    hide ReadInbound, BuildOutbound, Outbound;
    var hosts := SeventeenLongestHosts();
    path := HonestLineage(hosts, depthMax);
    forall selfHosts, reader: nat
      ensures ReadInbound(Outbound(path[16]), selfHosts, reader) == ChainMalformed(TooLong)
    {
      LastLinkOverflows(hosts, selfHosts, reader);
    }
  }

  // With ceilings that differ by two, a lineage one link longer than the reader admits.
  lemma LowerCeilingRefuses(sender: nat, reader: nat, selfHosts: seq<string>) returns (path: seq<Hop>)
    requires reader + 2 <= sender <= DEPTH_MAX_ENV_CEILING && reader <= 14
    ensures HonestUnder(path, sender) && |path| == reader + 2
    ensures ReadInbound(Outbound(path[reader + 1]), selfHosts, reader).ChainMalformed?
  {
    hide ReadInbound, BuildOutbound, Outbound, HonestUnder;
    var all := SeventeenLongestHosts();
    var hosts := all[..reader + 2];
    path := HonestLineage(hosts, sender);
    var chain := hosts[..reader + 1];
    assert chain + [hosts[reader + 1]] == hosts;
    HonestReadBack(chain, reader + 1, hosts[reader + 1], selfHosts, reader);
  }

  // Up to a ceiling of 16, what is printed at the end of an honest lineage is malformed
  // for a reader exactly when the lineage is longer than the reader's ceiling and one.
  lemma ShortLineageReads(path: seq<Hop>, ceiling: nat, selfHosts: seq<string>, reader: nat)
    requires HonestUnder(path, ceiling) && ceiling <= 16
    ensures |path| <= ceiling
    ensures ReadInbound(Outbound(path[|path| - 1]), selfHosts, reader).ChainMalformed? <==> |path| > reader + 1
  {
    hide ReadInbound, IsLink, Accepts, BuildOutbound;
    var n := |path| - 1;
    ChainIsThePath(path, n);
    var whole := PrintedBy(path[n]);
    assert AllLinks(whole);
    IdIsOwned(path[n]);
    HonestReadBack(path[n].chain, n, IdOf(path[n]), selfHosts, reader);
  }

  predicate RefusedAsMalformed(path: seq<Hop>, sender: nat, selfHosts: seq<string>, reader: nat) {
    HonestUnder(path, sender) && ReadInbound(Outbound(path[|path| - 1]), selfHosts, reader).ChainMalformed?
  }

  // A gateway can be sent a malformed chain by honest gateways of ceilings up to
  // `sender` exactly when these admit two hops more than it does, or seventeen.
  lemma MalformedAmongHonestIff(sender: nat, reader: nat, selfHosts: seq<string>)
    requires sender <= DEPTH_MAX_ENV_CEILING
    ensures (exists path: seq<Hop> :: RefusedAsMalformed(path, sender, selfHosts, reader)) <==>
              sender >= reader + 2 || sender >= 17
  {
    hide ReadInbound, Outbound, HonestPath;
    if sender >= 17 {
      var path := HonestLineageOverflows(sender);
      assert RefusedAsMalformed(path, sender, selfHosts, reader);
    } else if sender >= reader + 2 {
      var path := LowerCeilingRefuses(sender, reader, selfHosts);
      assert RefusedAsMalformed(path, sender, selfHosts, reader);
    } else if path: seq<Hop> :| RefusedAsMalformed(path, sender, selfHosts, reader) {
      ShortLineageReads(path, sender, selfHosts, reader);
      assert false;
    }
  }

  // ---- identities that are not recognised ----

  // Short hosts of two letters, dots and commas.
  lemma TinyHost(h: string)
    requires 0 < |h| < 5 && forall i :: 0 <= i < |h| ==> h[i] in {'a', 'b', ',', '.'}
    ensures IsHost(h)
    ensures h[|h| - 1] != '.' ==> CanonicalizeHost(h) == Some(h)
    ensures h[|h| - 1] == '.' && |h| > 1 ==> CanonicalizeHost(h) == Some(h[..|h| - 1])
  {
    assert Lower(h) == h;
    TrimIsFixed(h);
    assert IsHostText(h);
    HostTextIsTrimmed(h);
  }

  // A gateway whose own request is not recognised, and that request accepted again.
  lemma OwnRequestTwice(configured: seq<string>, depthMax: nat) returns (hop: Hop, again: Hop)
    requires |configured| > 0 && IsHost(configured[0])
    requires 2 <= depthMax <= DEPTH_MAX_ENV_CEILING && |Split(configured[0], ',')| <= 3
    requires forall i :: 0 <= i < |Split(configured[0], ',')| ==>
               var host := CanonicalizeHost(Trim(Split(configured[0], ',')[i]));
               host.Some? && host.value !in configured
    ensures hop.configured == again.configured == configured && hop.ceiling == again.ceiling == depthMax
    ensures hop.headers == NO_HEADERS && again.headers == Outbound(hop)
    ensures Accepts(hop) && Accepts(again)
  {
    hide CanonicalizeHost, Split, ReadInbound, BuildOutbound, Trim, IsHost;
    hop := OwnRequestAgainIff(configured, depthMax, None, None);
    var verdict := ReadInbound(Outbound(hop), configured, depthMax);
    again := Hop(configured, depthMax, Outbound(hop), None, verdict.chain, verdict.depth);
  }

  // A comma in the announced host: the chain reads back as two hosts, neither of them
  // the one that was announced.
  lemma CommaHidesTheLoop(x: string, y: string, depthMax: nat) returns (hop: Hop, again: Hop)
    requires IsLink(x) && IsLink(y) && IsCanonical(x + "," + y)
    requires 2 <= depthMax <= DEPTH_MAX_ENV_CEILING
    ensures hop.configured == again.configured == [x + "," + y] && hop.ceiling == again.ceiling == depthMax
    ensures hop.headers == NO_HEADERS && again.headers == Outbound(hop)
    ensures Accepts(hop) && Accepts(again)
  {
    hide CanonicalizeHost, Trim, Lower, Split;
    var id := x + "," + y;
    LinkIsHost(x);
    LinkIsHost(y);
    var host := CanonicalizedShape(id);
    SplitPrefix(x, y, ',');
    LinkIsOnePart(y);
    assert Split(id, ',') == [x, y];
    assert |x| < |id| && |y| < |id|;
    hop, again := OwnRequestTwice([id], depthMax);
  }

  // A2A_SELF_HOSTS cannot hold a comma, but BASE_URL can: a gateway configured by
  // BASE_URL alone, to "a,b", accepts its own request again.
  lemma BaseUrlCanHoldAComma(depthMax: nat) returns (hop: Hop, again: Hop)
    requires 2 <= depthMax <= DEPTH_MAX_ENV_CEILING
    ensures hop.configured == again.configured == ConfiguredHosts(Some("a,b"), None, _ => None)
    ensures hop.ceiling == again.ceiling == depthMax
    ensures hop.headers == NO_HEADERS && again.headers == Outbound(hop)
    ensures Accepts(hop) && Accepts(again)
  {
    hide CanonicalizeHost, Trim, ReadInbound;
    TinyHost("a");
    TinyHost("b");
    TinyHost("a,b");
    assert "a" + "," + "b" == "a,b";
    assert ConfiguredHosts(Some("a,b"), None, _ => None) == ["a,b"];
    hop, again := CommaHidesTheLoop("a", "b", depthMax);
  }

  // No comma is needed: of two final dots one stays, and is dropped by the reader.
  lemma TwoFinalDotsHideTheLoop(depthMax: nat) returns (hop: Hop, again: Hop)
    requires 2 <= depthMax <= DEPTH_MAX_ENV_CEILING
    ensures ConfiguredHosts(Some("a.."), None, _ => None) == ["a."]
    ensures ConfiguredHosts(None, Some("a.."), _ => None) == ["a."]
    ensures hop.configured == again.configured == ["a."] && hop.ceiling == again.ceiling == depthMax
    ensures hop.headers == NO_HEADERS && again.headers == Outbound(hop)
    ensures Accepts(hop) && Accepts(again)
  {
    hide CanonicalizeHost, Trim, ReadInbound, Split;
    TinyHost("a.");
    TinyHost("a..");
    SplitPrefix("a..", "", ',');
    SplitPrefix("a.", "", ',');
    assert "a.."[..2] == "a." && "a."[..1] == "a";
    assert [""][0] == "";
    assert ClassifyEntries(["a.."], []) == Configured(["a."]);
    hop, again := OwnRequestTwice(["a."], depthMax);
  }

  // Nor does every comma hide the loop: two in a row leave a part that no reader
  // accepts as a host.
  lemma EmptyPartIsRefused(depthMax: nat, selfHosts: seq<string>)
    requires 2 <= depthMax <= DEPTH_MAX_ENV_CEILING
    ensures ConfiguredHosts(Some("a,,b"), None, _ => None) == ["a,,b"]
    ensures ReadInbound(BuildOutbound([], 0, Some("a,,b")), selfHosts, depthMax) == ChainMalformed(UnreadableLink)
  {
    hide CanonicalizeHost, Trim, Split;
    TinyHost("a,,b");
    TrimIsFixed("");
    SplitPrefix("a", ",b", ',');
    SplitPrefix("", "b", ',');
    SplitPrefix("b", "", ',');
    assert "a" + "," + ",b" == "a,,b" && "" + "," + "b" == ",b";
    var parts := Split("a,,b", ',');
    assert parts == ["a", "", "b"];
    NoHost();
    assert parts[1..] == ["", "b"];
    assert CanonicalizeAll(parts[1..]).None?;
    assert [] + ["a,,b"] == ["a,,b"];
  }

  lemma NoHost()
    ensures CanonicalizeHost("").None?
  {
  }

  // A gateway can recognise its own request and miss it one hop further on: known as
  // "a.." and "a.", it refuses the request it sends itself, yet takes it from "b".
  lemma DotsHideTheLoopLater(depthMax: nat) returns (first: Hop)
    requires 3 <= depthMax <= DEPTH_MAX_ENV_CEILING
    ensures ConfiguredHosts(None, Some("a...,a.."), _ => None) == ["a..", "a."] == first.configured
    ensures Begun([first]) && first.ceiling == depthMax
    ensures !ReadInbound(Outbound(first), first.configured, depthMax).Accepted?
    ensures exists path: seq<Hop> :: RoundTrip(path, first.configured, ["b"], depthMax)
  {
    hide CanonicalizeHost, Trim, ReadInbound, Split, Outbound, CanonicalizeAll, Begun;
    DottedIdentity();
    first := OwnRequestAgainIff(["a..", "a."], depthMax, None, None);
    RereadDots();
    assert !OwnsAny(["a"], ["a..", "a."]);
    StrangerToDots(depthMax);
    RoundTripIff(["a..", "a."], ["b"], depthMax);
  }

  lemma StrangerToDots(depthMax: nat)
    requires 3 <= depthMax
    ensures Strangers(["b"], ["a..", "a."], depthMax)
  {
    hide CanonicalizeHost, Trim, Split, Reread;
    TinyHost("b");
    RereadDots();
    assert Join(["a..", "b"], ',') == "a..,b";
    assert ["a.."] + ["b"] == ["a..", "b"];
  }

  lemma DottedIdentity()
    ensures ConfiguredHosts(None, Some("a...,a.."), _ => None) == ["a..", "a."] && IsHost("a..")
    ensures Split("a..", ',') == ["a.."] && CanonicalizeHost(Trim("a..")) == Some("a.")
  {
    hide CanonicalizeHost, Trim, Split;
    TinyHost("a...");
    TinyHost("a..");
    assert "a..."[..3] == "a.." && "a.."[..2] == "a.";
    SplitPrefix("a...", "a..", ',');
    SplitPrefix("a..", "", ',');
    assert "a..." + "," + "a.." == "a...,a..";
    TrimIsFixed("a...,a..");
    assert ["a...", "a.."][1..] == ["a.."];
    assert ClassifyEntries(["a.."], ["a.."]) == Configured(["a..", "a."]);
    assert ClassifyEntries(["a...", "a.."], []) == Configured(["a..", "a."]);
    assert ["a..", "a."][1..] == ["a."] && ["a."][1..] == [];
    assert AddAll(["a.."], ["a."]) == ["a..", "a."];
  }

  // "a.." is read as "a." first and as "a" from then on.
  lemma RereadDots()
    ensures Reread("a..", 1) == Some(["a."]) && Reread("a..", 2) == Some(["a"])
  {
    hide CanonicalizeHost, Trim, Split, CanonicalizeAll;
    DottedIdentity();
    TinyHost("a.");
    assert "a."[..1] == "a";
    CanonicalizeAllMeaning(["a.."], ["a."]);
    CanonicalizeAllMeaning(["a."], ["a"]);
    assert Reread("a..", 0) == Some(["a.."]);
  }
}
