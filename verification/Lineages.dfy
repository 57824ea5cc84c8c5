// What a lineage of requests carries when the gateways on it announce hosts of any
// kind, and when one of them can come back: src/lib/contracting-chain.ts:769-842.
module Lineages {
  import opened Wrappers
  import opened Positional
  import opened Text
  import opened Decimal
  import opened Contracting
  import opened Network

  // ---- reading and printing, again and again ----

  // What is read, `reads` hops later, of a host announced as id: its parts between
  // commas, each canonicalized once per hop.
  function Reread(id: string, hops: nat): (r: Option<seq<string>>)
    ensures r.Some? ==> |r.value| == |Split(id, ',')|
  {
    if hops == 0 then Some(Split(id, ','))
    else
      match Reread(id, hops - 1)
      case None => None
      case Some(hosts) => CanonicalizeAll(hosts)
  }

  function Both(a: Option<seq<string>>, b: Option<seq<string>>): Option<seq<string>> {
    if a.Some? && b.Some? then Some(a.value + b.value) else None
  }

  // The chain read after gateways announced as ids, oldest first, were passed.
  function Carried(ids: seq<string>): Option<seq<string>> {
    if |ids| == 0 then Some([]) else Both(Reread(ids[0], |ids|), Carried(ids[1..]))
  }

  lemma {:induction false} CanonicalizeBoth(a: seq<string>, b: seq<string>)
    ensures CanonicalizeAll(a + b) == Both(CanonicalizeAll(a), CanonicalizeAll(b))
  {
    hide CanonicalizeHost, Trim;
    if |a| == 0 {
      assert a + b == b;
      if CanonicalizeAll(b).Some? { assert [] + CanonicalizeAll(b).value == CanonicalizeAll(b).value; }
    } else {
      assert (a + b)[1..] == a[1..] + b;
      CanonicalizeBoth(a[1..], b);
      var head, rest, back := CanonicalizeHost(Trim(a[0])), CanonicalizeAll(a[1..]), CanonicalizeAll(b);
      if head.Some? && rest.Some? && back.Some? {
        assert [head.value] + (rest.value + back.value) == [head.value] + rest.value + back.value;
      }
    }
  }

  // One more hop: everything carried so far is read once more, and the new host is
  // split and read for the first time.
  lemma {:induction false} CarriedNext(ids: seq<string>, id: string)
    requires Carried(ids).Some?
    ensures Carried(ids + [id]) == CanonicalizeAll(Carried(ids).value + Split(id, ','))
  {
    hide Split, CanonicalizeAll;
    var all := ids + [id];
    var first := Split(id, ',');
    if |ids| == 0 {
      assert all[0] == id && all[1..] == [];
      assert Reread(id, 1) == CanonicalizeAll(first);
      assert [] + first == first;
      assert Reread(id, 1).Some? ==> Reread(id, 1).value + [] == Reread(id, 1).value;
    } else {
      assert all[1..] == ids[1..] + [id];
      CarriedNext(ids[1..], id);
      var old0, rest := Reread(ids[0], |ids|).value, Carried(ids[1..]).value;
      CanonicalizeBoth(old0, rest + first);
      assert old0 + (rest + first) == Carried(ids).value + first;
    }
  }

  // What was announced by the i-th gateway is among it, read once per hop since.
  lemma {:induction false} CarriedHolds(ids: seq<string>, i: nat)
    requires i < |ids| && Carried(ids).Some?
    ensures var part := Reread(ids[i], |ids| - i);
            part.Some? && forall h :: h in part.value ==> h in Carried(ids).value
  {
    hide Reread;
    if i > 0 { CarriedHolds(ids[1..], i - 1); }
  }

  // ---- the verdict on any lineage ----

  lemma ElementsOfPrinted(chain: seq<string>, id: string)
    requires forall h :: h in chain ==> ',' !in h && IsHost(h)
    requires IsHost(id)
    ensures ChainElements(Some(Join(chain + [id], ','))) == chain + Split(id, ',')
  {
    hide Split, Join, Trim;
    var whole := chain + [id];
    SplitJoinLast(chain, id, ',');
    assert IsHost(whole[0]) by { if |chain| > 0 { assert whole[0] in chain; } }
    JoinKeepsFirst(whole);
    TrimIsFixed(whole[0]);
    TrimKeepsFirst(Join(whole, ','));
  }

  lemma JoinKeepsFirst(hosts: seq<string>)
    requires |hosts| > 0 && |hosts[0]| > 0
    ensures |Join(hosts, ',')| > 0 && Join(hosts, ',')[0] == hosts[0][0]
  {
  }

  // What the gateways announced as ids print last, the oldest of them having
  // started without headers.
  function Printed(ids: seq<string>): string
    requires |ids| > 0 && Carried(ids[..|ids| - 1]).Some?
  {
    Join(Carried(ids[..|ids| - 1]).value + [ids[|ids| - 1]], ',')
  }

  function LinksPrinted(ids: seq<string>): nat
    requires |ids| > 0 && Carried(ids[..|ids| - 1]).Some?
  {
    |Carried(ids[..|ids| - 1]).value| + |Split(ids[|ids| - 1], ',')|
  }

  lemma NextChain(a: Hop, text: string, links: nat, selfHosts: seq<string>, depthMax: nat)
    requires SoundHop(a) && a.ceiling <= DEPTH_MAX_ENV_CEILING && (forall h :: h in a.chain ==> IsHost(h))
    requires Announces(a) && IsHost(IdOf(a))
    requires text == Join(a.chain + [IdOf(a)], ',') && links == |a.chain| + |Split(IdOf(a), ',')|
    ensures ReadInbound(Outbound(a), selfHosts, depthMax) ==
            if |text| > ChainHeaderMaxChars(depthMax) then ChainMalformed(TooLong)
            else if links > depthMax + 1 then ChainMalformed(TooManyLinks)
            else
              match CanonicalizeAll(a.chain + Split(IdOf(a), ','))
              case None => ChainMalformed(UnreadableLink)
              case Some(chain) =>
                if OwnsAny(chain, selfHosts) then LoopDetected
                else if a.depth + 1 >= depthMax then DepthExceeded(a.depth + 1, depthMax)
                else Accepted(chain, a.depth + 1)
  {
    hide Split, Join, ChainElements, CanonicalizeAll, OwnsAny, NumberText, IsShortNumber, Number;
    var whole := PrintedBy(a);
    ElementsOfPrinted(a.chain, IdOf(a));
    DepthText(a.depth + 1);
  }

  lemma SoundChain(a: Hop)
    requires Accepts(a)
    ensures SoundHop(a) && forall h :: h in a.chain ==> IsHost(h)
  {
    AcceptedIsSound(a);
    ReadChainShape(PickSingle(a.headers.chain), a.chain);
  }

  predicate Begun(path: seq<Hop>) { |path| > 0 && Lineage(path) && path[0].headers == NO_HEADERS }

  // The hosts announced along a path, oldest first.
  function Announced(path: seq<Hop>): seq<string>
    requires Lineage(path)
  {
    PassedIds(path, |path|)
  }

  lemma FirstReadsNothing(first: Hop)
    requires Accepts(first) && first.headers == NO_HEADERS
    ensures first.chain == [] && first.depth == 0
  {
    AcceptedIsSound(first);
    ReadsNothing(IdentityOf(first), first.ceiling);
  }

  lemma NextReads(a: Hop, b: Hop, before: seq<string>)
    requires Accepts(a) && Accepts(b) && b.headers == Outbound(a) && a.ceiling <= DEPTH_MAX_ENV_CEILING
    requires Announces(a) && IsHost(IdOf(a)) && Carried(before) == Some(a.chain)
    ensures Carried(before + [IdOf(a)]) == Some(b.chain) && b.depth == a.depth + 1
  {
    hide ReadInbound, Carried, CanonicalizeAll, Split, BuildOutbound;
    SoundChain(a);
    var id := IdOf(a);
    NextChain(a, Join(a.chain + [id], ','), |a.chain| + |Split(id, ',')|, IdentityOf(b), b.ceiling);
    CarriedNext(before, id);
  }

  lemma OneHopBack(path: seq<Hop>) returns (front: seq<Hop>, a: Hop, b: Hop)
    requires Begun(path) && |path| > 1
    ensures front == path[..|path| - 1] && Begun(front) && a == front[|front| - 1] && b == path[|path| - 1]
    ensures Accepts(a) && Accepts(b) && b.headers == Outbound(a) && a.ceiling <= DEPTH_MAX_ENV_CEILING
    ensures Announces(a) && IsHost(IdOf(a))
    ensures Lineage(front[..|front| - 1]) && Announced(front) == Announced(front[..|front| - 1]) + [IdOf(a)]
  {
    hide Accepts, Outbound, IsHost, Announces, IdOf, IdentityOf;
    front := path[..|path| - 1];
    a, b := front[|front| - 1], path[|path| - 1];
  }

  // The chain and the depth at the end of a lineage are what its announced hosts
  // have become, and their number.
  lemma {:induction false} ChainIsCarried(path: seq<Hop>)
    requires Begun(path)
    ensures var last := path[|path| - 1];
            Carried(Announced(path[..|path| - 1])) == Some(last.chain) && last.depth == |path| - 1
    decreases |path|
  {
    hide Accepts, Outbound, IsHost, Announces, IdOf, IdentityOf;
    if |path| == 1 {
      FirstReadsNothing(path[0]);
      assert Announced(path[..0]) == [];
    } else {
      hide Lineage, Carried;
      var front, a, b := OneHopBack(path);
      ChainIsCarried(front);
      NextReads(a, b, Announced(front[..|front| - 1]));
    }
  }

  lemma LastAnnounced(path: seq<Hop>) returns (ids: seq<string>, last: Hop)
    requires Begun(path)
    ensures ids == Announced(path) && last == path[|path| - 1]
    ensures |ids| == |path| && ids == ids[..|ids| - 1] + [IdOf(last)] && ids[|ids| - 1] == IdOf(last)
    ensures Carried(ids[..|ids| - 1]) == Some(last.chain) && last.depth == |path| - 1
    ensures SoundHop(last) && (forall h :: h in last.chain ==> IsHost(h))
    ensures last.ceiling <= DEPTH_MAX_ENV_CEILING && Announces(last) && IsHost(IdOf(last))
  {
    hide Accepts, Outbound, Carried, IsHost, SoundHop;
    ids, last := Announced(path), path[|path| - 1];
    ChainIsCarried(path);
    assert ids[..|ids| - 1] == Announced(path[..|path| - 1]);
    assert ids == ids[..|ids| - 1] + [ids[|ids| - 1]];
    SoundChain(last);
  }

  // What any gateway makes of what the last gateway of a lineage printed, in terms
  // of the hosts announced along it, whatever those hosts are.
  lemma VerdictOnLineage(path: seq<Hop>, selfHosts: seq<string>, depthMax: nat)
    requires Begun(path)
    ensures var ids := Announced(path);
            && Carried(ids[..|ids| - 1]).Some?
            && ReadInbound(Outbound(path[|path| - 1]), selfHosts, depthMax) ==
               if |Printed(ids)| > ChainHeaderMaxChars(depthMax) then ChainMalformed(TooLong)
               else if LinksPrinted(ids) > depthMax + 1 then ChainMalformed(TooManyLinks)
               else
                 match Carried(ids)
                 case None => ChainMalformed(UnreadableLink)
                 case Some(chain) =>
                   if OwnsAny(chain, selfHosts) then LoopDetected
                   else if |path| >= depthMax then DepthExceeded(|path|, depthMax)
                   else Accepted(chain, |path|)
  {
    hide ReadInbound, Carried, CanonicalizeAll, Split, BuildOutbound, Join, OwnsAny, Lineage, SoundHop;
    var ids, last := LastAnnounced(path);
    NextChain(last, Printed(ids), LinksPrinted(ids), selfHosts, depthMax);
    CarriedNext(ids[..|ids| - 1], IdOf(last));
  }

  // ---- who comes back ----

  // A gateway sees that a request passed it, so many hops ago, when what has become
  // of its announced host cannot be read or contains a host it knows itself by.
  predicate Recognises(selfHosts: seq<string>, id: string, hops: nat) {
    Reread(id, hops).None? || OwnsAny(Reread(id, hops).value, selfHosts)
  }

  lemma ReadSince(path: seq<Hop>, i: nat, j: nat) returns (part: seq<string>)
    requires Begun(path) && i < j < |path|
    ensures Reread(IdOf(path[i]), j - i) == Some(part) && (forall h :: h in part ==> h in path[j].chain)
    ensures path[j].depth == j
  {
    hide Reread, Accepts, Outbound, IsHost, Carried;
    var before, upTo := PassedIds(path, j), path[..j + 1];
    ChainIsCarried(upTo);
    assert Announced(upTo[..j]) == before;
    CarriedHolds(before, i);
    part := Reread(before[i], j - i).value;
  }

  // A gateway on a lineage never recognises an earlier one. A gateway that recognises
  // what has become of its announced host at every distance below its ceiling is
  // therefore on no lineage twice.
  lemma NoneIsRecognised(path: seq<Hop>, i: nat, j: nat)
    requires Begun(path) && i < j < |path|
    ensures !Recognises(IdentityOf(path[j]), IdOf(path[i]), j - i) && j < path[j].ceiling
  {
    hide Reread, Outbound, IsHost, IdentityOf, Accepts;
    var part := ReadSince(path, i, j);
    AcceptedIsSound(path[j]);
    forall k | 0 <= k < |part| ensures part[k] !in IdentityOf(path[j]) {
      assert part[k] in path[j].chain;
    }
  }

  // A link is recognised at every distance.
  lemma {:induction false} LinkIsRecognised(h: string, hops: nat)
    requires IsLink(h)
    ensures Reread(h, hops) == Some([h])
  {
    hide CanonicalizeHost;
    if hops == 0 {
      SplitPrefix(h, "", ',');
    } else {
      LinkIsRecognised(h, hops - 1);
      LinkIsHost(h);
      CanonicalizeAllMeaning([h], [h]);
    }
  }

  lemma OwnLinkIsRecognised(h: string, hops: nat, selfHosts: seq<string>)
    requires IsLink(h) && h in selfHosts
    ensures Recognises(selfHosts, h, hops)
  {
    LinkIsRecognised(h, hops);
    assert [h][0] == h;
  }

  // One gateway with a link is enough: on a lineage of gateways of any kind, no later
  // one knows itself by its link.
  lemma LinkIsNeverPassedTwice(path: seq<Hop>, i: nat, j: nat)
    requires Begun(path) && i < j < |path| && IsLink(IdOf(path[i]))
    ensures IdOf(path[i]) !in IdentityOf(path[j])
    ensures |path[i].configured| > 0 ==> path[i].configured != path[j].configured
  {
    hide IsLink, IsHost, Recognises, Accepts, Outbound;
    NoneIsRecognised(path, i, j);
    if IdOf(path[i]) in IdentityOf(path[j]) { OwnLinkIsRecognised(IdOf(path[i]), j - i, IdentityOf(path[j])); }
    IdIsOwned(path[j]);
    if |path[i].configured| > 0 { ConfiguredId(path[i]); }
    if |path[j].configured| > 0 { ConfiguredId(path[j]); }
  }

  // A gateway that starts a lineage accepts the request it sends itself, whatever the
  // hints of the two requests, exactly when its ceiling is above 1 and the host it
  // announced falls, at its commas, into no more parts than the ceiling and one, each
  // of which can be read as a host and none of them as one of its own.
  lemma OwnRequestAgainIff(configured: seq<string>, ceiling: nat, hint: Option<string>, later: Option<string>)
      returns (first: Hop)
    requires |WithHint(configured, hint)| > 0 && IsHost(WithHint(configured, hint)[0])
    requires DEPTH_MAX_ENV_FLOOR <= ceiling <= DEPTH_MAX_ENV_CEILING
    ensures first == Hop(configured, ceiling, NO_HEADERS, hint, [], 0) && Begun([first])
    ensures ReadInbound(Outbound(first), WithHint(configured, later), ceiling).Accepted? <==>
              && ceiling > 1
              && var parts := Split(WithHint(configured, hint)[0], ',');
                 && |parts| <= ceiling + 1
                 && forall i :: 0 <= i < |parts| ==>
                      var host := CanonicalizeHost(Trim(parts[i]));
                      host.Some? && host.value !in WithHint(configured, later)
  {
    hide CanonicalizeHost, Split, ReadInbound, BuildOutbound, Trim, WithHint;
    var id := WithHint(configured, hint)[0];
    var parts := Split(id, ',');
    ReadsNothing(WithHint(configured, hint), ceiling);
    first := Hop(configured, ceiling, NO_HEADERS, hint, [], 0);
    assert Announced([first]) == [id];
    VerdictOnLineage([first], WithHint(configured, later), ceiling);
    PassedOne(id);
    match CanonicalizeAll(parts) {
      case Some(chain) => CanonicalizeAllMeaning(parts, chain);
      case None => var k := Unreadable(parts);
    }
  }

  lemma NothingCarried()
    ensures Carried([]) == Some([])
  {
  }

  lemma JoinedAlone(id: string)
    ensures Join([id], ',') == id
  {
  }

  lemma CarriedOne(id: string)
    ensures Carried([id]) == CanonicalizeAll(Split(id, ','))
  {
    hide Split, CanonicalizeAll, Carried;
    NothingCarried();
    CarriedNext([], id);
    var first := Split(id, ',');
    assert [] + [id] == [id] && [] + first == first;
  }

  lemma PrintedOne(ids: seq<string>, id: string)
    requires ids == [id] && Carried(ids[..0]) == Some([])
    ensures Printed(ids) == id && LinksPrinted(ids) == |Split(id, ',')|
  {
    hide Split, CanonicalizeAll, Carried, Reread, Join;
    assert [] + [id] == [id];
    JoinedAlone(id);
  }

  lemma PassedOne(id: string)
    ensures Carried([]) == Some([]) && Carried([id]) == CanonicalizeAll(Split(id, ','))
    ensures Printed([id]) == id && LinksPrinted([id]) == |Split(id, ',')|
  {
    hide Split, CanonicalizeAll, Carried, Reread, Join, Printed, LinksPrinted;
    NothingCarried();
    CarriedOne(id);
    var ids := [id];
    assert ids[..0] == [];
    PrintedOne(ids, id);
  }

  lemma {:induction false} Unreadable(elements: seq<string>) returns (k: nat)
    requires CanonicalizeAll(elements).None?
    ensures k < |elements| && CanonicalizeHost(Trim(elements[k])).None?
  {
    hide CanonicalizeHost, Trim;
    if CanonicalizeHost(Trim(elements[0])).None? {
      k := 0;
    } else {
      k := Unreadable(elements[1..]);
      k := k + 1;
    }
  }
}
