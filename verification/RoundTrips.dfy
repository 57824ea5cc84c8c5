// When a gateway accepts a request that it sent itself, directly or around through
// strangers: src/lib/contracting-chain.ts:769-842.
module RoundTrips {
  import opened Wrappers
  import opened Positional
  import opened Text
  import opened Decimal
  import opened Contracting
  import opened Network
  import opened Lineages

  // ---- what is carried past links ----

  lemma {:induction false} LinksCarried(links: seq<string>)
    requires AllLinks(links)
    ensures Carried(links) == Some(links)
  {
    if links == [] {
    } else {
      LinkIsRecognised(links[0], |links|);
      LinksCarried(links[1..]);
      assert [links[0]] + links[1..] == links;
    }
  }

  lemma CarriedPastLinks(id: string, links: seq<string>)
    requires AllLinks(links)
    ensures Carried([id] + links) == Both(Reread(id, |links| + 1), Some(links))
  {
    hide Reread, IsLink;
    LinksCarried(links);
    assert ([id] + links)[1..] == links;
  }

  lemma {:induction false} ReadableBefore(id: string, m: nat, n: nat)
    requires m <= n && Reread(id, n).Some?
    ensures Reread(id, m).Some?
  {
    if m < n { ReadableBefore(id, m, n - 1); }
  }

  // ---- how long it gets ----

  lemma {:induction false} JoinedTogether(a: seq<string>, b: seq<string>)
    requires |a| > 0 && |b| > 0
    ensures |Join(a + b, ',')| == |Join(a, ',')| + 1 + |Join(b, ',')|
  {
    if |a| == 1 {
      assert (a + b)[1..] == b;
    } else {
      assert (a + b)[1..] == a[1..] + b;
      JoinedTogether(a[1..], b);
    }
  }

  lemma {:induction false} CanonicalIsShorter(hosts: seq<string>)
    requires CanonicalizeAll(hosts).Some?
    ensures |Join(CanonicalizeAll(hosts).value, ',')| <= |Join(hosts, ',')|
  {
    hide Trim, CanonicalizeHost;
    if |hosts| == 0 {
    } else {
      var h := CanonicalizedShape(Trim(hosts[0]));
      TrimShape(hosts[0]);
      CanonicalIsShorter(hosts[1..]);
    }
  }

  lemma TrimShape(s: string)
    ensures |Trim(s)| <= |s|
  {
    TrimStartShape(s);
    TrimEndShape(TrimStart(s));
  }

  lemma {:induction false} RereadIsShorter(id: string, hops: nat)
    requires Reread(id, hops).Some?
    ensures |Join(Reread(id, hops).value, ',')| <= |id|
  {
    hide CanonicalizeAll, Split, Join;
    if hops == 0 {
      JoinSplit(id, ',');
    } else {
      RereadIsShorter(id, hops - 1);
      CanonicalIsShorter(Reread(id, hops - 1).value);
    }
  }

  // ---- around and back ----

  // The gateway that is visited k-th: the first one, the others in their order, and
  // the first one again.
  function Visited(configured: seq<string>, others: seq<string>, k: nat): seq<string> {
    if 0 < k <= |others| then [others[k - 1]] else configured
  }

  // An accepted lineage, begun without headers, through these gateways, all with one
  // ceiling and without hints.
  predicate Visits(path: seq<Hop>, configured: seq<string>, others: seq<string>, ceiling: nat) {
    && Begun(path)
    && forall k :: 0 <= k < |path| ==>
         path[k].configured == Visited(configured, others, k) && path[k].ceiling == ceiling && path[k].hint == None
  }

  predicate RoundTrip(path: seq<Hop>, configured: seq<string>, others: seq<string>, ceiling: nat) {
    Visits(path, configured, others, ceiling) && |path| == |others| + 2
  }

  // Different gateways known by one link each, which is neither a host of the first
  // gateway nor part of what becomes of its announced host on the way; and their
  // names fit a header.
  predicate Strangers(others: seq<string>, configured: seq<string>, ceiling: nat)
    requires |configured| > 0
  {
    && AllLinks(others) && Distinct(others)
    && (forall o :: o in others ==> o !in configured)
    && (forall o, hops :: o in others && 0 < hops <= |others| && Reread(configured[0], hops).Some? ==>
          o !in Reread(configured[0], hops).value)
    && |Join([configured[0]] + others, ',')| <= ChainHeaderMaxChars(ceiling)
  }

  // The strangers passed so far fit as well.
  lemma PrintedFits(id: string, others: seq<string>, m: nat)
    requires AllLinks(others) && m <= |others| && Reread(id, m).Some?
    ensures Carried(([id] + others[..m])[..m]).Some?
    ensures |Printed([id] + others[..m])| <= |Join([id] + others, ',')|
    ensures LinksPrinted([id] + others[..m]) == |Split(id, ',')| + m
  {
    hide Join, Reread, Carried, Split, IsLink;
    var ids := [id] + others[..m];
    if m == 0 {
      assert ids == [id];
      PassedOne(id);
      assert [id][..0] == [];
      JoinedAlone(id);
      if |others| > 0 { JoinedTogether([id], others); } else { assert [id] + others == [id]; }
    } else {
      var before := others[..m - 1];
      assert ids[..m] == [id] + before;
      CarriedPastLinks(id, before);
      var part := Reread(id, m).value;
      assert part + before + [others[m - 1]] == part + others[..m];
      LinkIsOnePart(others[m - 1]);
      RereadIsShorter(id, m);
      JoinedTogether(part, others[..m]);
      JoinedAlone(id);
      JoinedTogether([id], others);
      if m < |others| {
        JoinedTogether(others[..m], others[m..]);
        assert others[..m] + others[m..] == others;
      } else {
        assert others[..m] == others;
      }
    }
  }

  lemma LinkIsOnePart(h: string)
    requires IsLink(h)
    ensures Split(h, ',') == [h]
  {
    SplitPrefix(h, "", ',');
  }

  // What is made of the request after m strangers.
  lemma VerdictAfter(path: seq<Hop>, configured: seq<string>, others: seq<string>, ceiling: nat, selfHosts: seq<string>)
    requires |configured| > 0 && Strangers(others, configured, ceiling)
    requires Visits(path, configured, others, ceiling) && |path| <= |others| + 1
    ensures var m := |path| - 1; var id := configured[0];
            && Reread(id, m).Some?
            && ReadInbound(Outbound(path[m]), selfHosts, ceiling) ==
               if |Split(id, ',')| + m > ceiling + 1 then ChainMalformed(TooManyLinks)
               else
                 match Reread(id, m + 1)
                 case None => ChainMalformed(UnreadableLink)
                 case Some(part) =>
                   if OwnsAny(part + others[..m], selfHosts) then LoopDetected
                   else if m + 1 >= ceiling then DepthExceeded(m + 1, ceiling)
                   else Accepted(part + others[..m], m + 1)
  {
    hide Reread, Carried, Split, Join, ReadInbound, OwnsAny, IsLink, BuildOutbound, Accepts, Outbound, IsHost;
    var m, id := |path| - 1, configured[0];
    var ids := Announced(path);
    assert ids == [id] + others[..m];
    VerdictOnLineage(path, selfHosts, ceiling);
    if m > 0 {
      var part := ReadSince(path, 0, m);
    } else {
      StartsReadable(id);
    }
    PrintedFits(id, others, m);
    CarriedPastLinks(id, others[..m]);
  }

  lemma StartsReadable(id: string)
    ensures Reread(id, 0).Some?
  {
  }

  // A stranger does not know what is carried; the first gateway does exactly when it
  // recognises its own host.
  lemma WhoKnows(configured: seq<string>, others: seq<string>, ceiling: nat, m: nat, part: seq<string>)
    requires |configured| > 0 && Strangers(others, configured, ceiling)
    requires m <= |others| && Reread(configured[0], m + 1) == Some(part)
    ensures OwnsAny(part + others[..m], Visited(configured, others, m + 1)) <==>
              m == |others| && OwnsAny(part, configured)
  {
    hide Reread, AllLinks, Join;
    var whole, owner := part + others[..m], Visited(configured, others, m + 1);
    if m < |others| {
      assert others[m] in others;
      forall i | 0 <= i < |whole| ensures whole[i] !in owner {
        if i < |part| { assert part[i] in part; } else { assert whole[i] == others[i - |part|]; }
      }
    } else if OwnsAny(part, configured) {
      var i :| 0 <= i < |part| && part[i] in configured;
      assert whole[i] in owner;
    } else {
      forall i | 0 <= i < |whole| ensures whole[i] !in owner {
        if i >= |part| { assert whole[i] in others; }
      }
    }
  }

  lemma OneMore(path: seq<Hop>, hop: Hop) returns (longer: seq<Hop>)
    requires Begun(path) && Announces(hop) && IsHost(IdOf(hop)) && hop.ceiling <= DEPTH_MAX_ENV_CEILING
    requires Accepts(hop) && hop.headers == Outbound(path[|path| - 1])
    ensures longer == path + [hop] && Begun(longer)
  {
    hide Accepts, Outbound, IsHost;
    longer := path + [hop];
  }

  lemma VisitNext(path: seq<Hop>, configured: seq<string>, others: seq<string>, ceiling: nat) returns (longer: seq<Hop>)
    requires |configured| > 0 && IsHost(configured[0]) && Strangers(others, configured, ceiling)
    requires ceiling <= DEPTH_MAX_ENV_CEILING && Visits(path, configured, others, ceiling)
    requires 0 < |path| <= |others| + 1 < ceiling && |Split(configured[0], ',')| + |others| <= ceiling + 1
    requires !Recognises(configured, configured[0], |others| + 1)
    ensures Visits(longer, configured, others, ceiling) && |longer| == |path| + 1
  {
    hide Reread, ReadInbound, OwnsAny, Outbound, IsHost, Split, Begun, Strangers;
    var m, owner := |path| - 1, Visited(configured, others, |path|);
    ReadableBefore(configured[0], m + 1, |others| + 1);
    var part := Reread(configured[0], m + 1).value;
    VerdictAfter(path, configured, others, ceiling, owner);
    WhoKnows(configured, others, ceiling, m, part);
    var hop := Hop(owner, ceiling, Outbound(path[m]), None, part + others[..m], m + 1);
    OwnerIsHost(configured, others, ceiling, m + 1);
    longer := OneMore(path, hop);
  }

  lemma OwnerIsHost(configured: seq<string>, others: seq<string>, ceiling: nat, k: nat)
    requires |configured| > 0 && IsHost(configured[0]) && Strangers(others, configured, ceiling)
    ensures |Visited(configured, others, k)| > 0 && IsHost(Visited(configured, others, k)[0])
  {
    if 0 < k <= |others| { LinkIsHost(others[k - 1]); }
  }

  // A gateway accepts its own request again, around through these strangers, exactly
  // when the ceiling admits that many hops and links and it does not recognise what
  // has become of its announced host by then.
  lemma RoundTripIff(configured: seq<string>, others: seq<string>, ceiling: nat)
    requires |configured| > 0 && IsHost(configured[0]) && Strangers(others, configured, ceiling)
    requires DEPTH_MAX_ENV_FLOOR <= ceiling <= DEPTH_MAX_ENV_CEILING
    ensures (exists path: seq<Hop> :: RoundTrip(path, configured, others, ceiling)) <==>
              && |others| + 1 < ceiling && |Split(configured[0], ',')| + |others| <= ceiling + 1
              && !Recognises(configured, configured[0], |others| + 1)
  {
    hide Strangers, Reread, ReadInbound, OwnsAny, IsHost, Split, Visits;
    if path: seq<Hop> :| RoundTrip(path, configured, others, ceiling) {
      RoundTripMeans(path, configured, others, ceiling);
    }
    if && |others| + 1 < ceiling && |Split(configured[0], ',')| + |others| <= ceiling + 1
       && !Recognises(configured, configured[0], |others| + 1)
    {
      var path := StartVisit(configured, others, ceiling);
      while |path| < |others| + 2
        invariant 0 < |path| <= |others| + 2 && Visits(path, configured, others, ceiling)
      {
        path := VisitNext(path, configured, others, ceiling);
      }
      assert RoundTrip(path, configured, others, ceiling);
    }
  }

  lemma StartVisit(configured: seq<string>, others: seq<string>, ceiling: nat) returns (path: seq<Hop>)
    requires |configured| > 0 && IsHost(configured[0])
    requires DEPTH_MAX_ENV_FLOOR <= ceiling <= DEPTH_MAX_ENV_CEILING
    ensures |path| == 1 && Visits(path, configured, others, ceiling)
  {
    hide ReadInbound, IsHost;
    ReadsNothing(configured, ceiling);
    path := [Hop(configured, ceiling, NO_HEADERS, None, [], 0)];
  }

  lemma RoundTripMeans(path: seq<Hop>, configured: seq<string>, others: seq<string>, ceiling: nat)
    requires |configured| > 0 && Strangers(others, configured, ceiling)
    requires RoundTrip(path, configured, others, ceiling)
    ensures |others| + 1 < ceiling && |Split(configured[0], ',')| + |others| <= ceiling + 1
    ensures !Recognises(configured, configured[0], |others| + 1)
  {
    hide Strangers, Reread, ReadInbound, OwnsAny, IsHost, Split, Outbound;
    var n := |others| + 1;
    var out := path[..n];
    assert Visits(out, configured, others, ceiling);
    VerdictAfter(out, configured, others, ceiling, configured);
    assert Accepts(path[n]) && IdentityOf(path[n]) == configured;
    WhoKnows(configured, others, ceiling, n - 1, Reread(configured[0], n).value);
    assert others[..n - 1] == others;
  }
}
