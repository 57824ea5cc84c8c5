// What one request can cost a network of honest gateways: the exponential bound
// behind the default depth ceiling. src/lib/contracting-chain.ts:100-127.
module ContractingCost {
  import opened Wrappers
  import opened Positional
  import opened Decimal
  import opened Contracting
  import Network

  // src/lib/compose-limits.ts:38.
  const MAX_COMPOSE_STEPS := 5

  // A request on its way to a gateway with the given configured identity and depth
  // ceiling.
  datatype Request = Request(configured: seq<string>, ceiling: nat, headers: Headers, hint: Option<string>)

  // Requests in flight, requests handled so far, step debits so far.
  datatype State = State(inFlight: seq<Request>, handled: nat, debits: nat)

  function Identity(r: Request): seq<string> { WithHint(r.configured, r.hint) }

  // The gateway has a host to announce itself with, configured or taken from the
  // request's Host.
  predicate IsGateway(r: Request, depthMax: nat) { CanonicalId(Identity(r)).Some? && r.ceiling <= depthMax }

  function Read(r: Request): Verdict { ReadInbound(r.headers, Identity(r), r.ceiling) }

  function Printed(r: Request, v: Verdict): Headers
    requires v.Accepted?
  {
    BuildOutbound(v.chain, v.depth, CanonicalId(Identity(r)))
  }

  // A gateway's answer to a request. If it accepts, it debits and invokes at most
  // MAX_COMPOSE_STEPS steps; any number of the invoked agents may themselves be
  // gateways, anywhere in the network, and each of those receives the headers this
  // one printed. If it rejects, nothing happens.
  predicate Answers(r: Request, steps: nat, sent: seq<Request>) {
    var v := Read(r);
    if v.Accepted? then
      |sent| <= steps <= MAX_COMPOSE_STEPS && forall k :: 0 <= k < |sent| ==> sent[k].headers == Printed(r, v)
    else steps == 0 && sent == []
  }

  // The i-th request in flight is handled.
  predicate Handles(s: State, t: State, i: nat, steps: nat, sent: seq<Request>) {
    && i < |s.inFlight|
    && Answers(s.inFlight[i], steps, sent)
    && t == State(s.inFlight[..i] + s.inFlight[i + 1..] + sent, s.handled + 1, s.debits + steps)
  }

  ghost predicate Next(s: State, t: State) {
    exists i, steps, sent :: Handles(s, t, i, steps, sent)
  }

  ghost predicate IsRun(states: seq<State>) {
    forall k :: 0 < k < |states| ==> Next(states[k - 1], states[k])
  }

  // Every gateway has a host to announce and a ceiling of at most depthMax.
  predicate Honest(s: State, depthMax: nat) { forall r :: r in s.inFlight ==> IsGateway(r, depthMax) }

  // ---- the weight of a request ----

  // Requests, and step debits, in a full tree with `levels` levels of acceptance
  // below a request.
  function Requests(levels: nat): nat { if levels == 0 then 1 else 1 + MAX_COMPOSE_STEPS * Requests(levels - 1) }

  function Debits(levels: nat): nat {
    if levels == 0 then 0 else MAX_COMPOSE_STEPS + MAX_COMPOSE_STEPS * Debits(levels - 1)
  }

  // The levels a request still has under the ceiling, going by the depth its
  // header declares.
  function Levels(h: Headers, depthMax: nat): nat {
    var raw := PickSingle(h.depth);
    var depth := if raw.None? then 0 else if IsShortNumber(raw.value) then Number(raw.value) else depthMax;
    if depth < depthMax then depthMax - depth else 0
  }

  function AllLevels(rs: seq<Request>, depthMax: nat): (ls: seq<nat>)
    ensures |ls| == |rs|
  {
    seq(|rs|, i requires 0 <= i < |rs| => Levels(rs[i].headers, depthMax))
  }

  function TotalRequests(ls: seq<nat>): nat {
    if |ls| == 0 then 0 else Requests(ls[0]) + TotalRequests(ls[1..])
  }

  function TotalDebits(ls: seq<nat>): nat {
    if |ls| == 0 then 0 else Debits(ls[0]) + TotalDebits(ls[1..])
  }

  lemma {:induction false} TotalsOfConcat(a: seq<nat>, b: seq<nat>)
    ensures TotalRequests(a + b) == TotalRequests(a) + TotalRequests(b)
    ensures TotalDebits(a + b) == TotalDebits(a) + TotalDebits(b)
  {
    if |a| == 0 {
      assert a + b == b;
    } else {
      TotalsOfConcat(a[1..], b);
      assert (a + b)[1..] == a[1..] + b;
    }
  }

  lemma OneMore(n: int, w: int)
    ensures (n + 1) * w == w + n * w
  {
  }

  lemma {:induction false} TotalsOfEqual(ls: seq<nat>, level: nat)
    requires forall k :: 0 <= k < |ls| ==> ls[k] == level
    ensures TotalRequests(ls) == |ls| * Requests(level) && TotalDebits(ls) == |ls| * Debits(level)
  {
    if |ls| == 0 {
    } else {
      TotalsOfEqual(ls[1..], level);
      OneMore(|ls| - 1, Requests(level));
      OneMore(|ls| - 1, Debits(level));
    }
  }

  lemma AtMostSteps(n: nat, w: nat)
    requires n <= MAX_COMPOSE_STEPS
    ensures n * w <= MAX_COMPOSE_STEPS * w
  {
  }

  // At most MAX_COMPOSE_STEPS requests one level down weigh less than one.
  lemma OneLevelDown(own: nat, steps: nat, below: seq<nat>)
    requires |below| <= steps <= if own > 0 then MAX_COMPOSE_STEPS else 0
    requires forall k :: 0 <= k < |below| ==> below[k] + 1 == own
    ensures 1 + TotalRequests(below) <= Requests(own)
    ensures steps + TotalDebits(below) <= Debits(own)
  {
    if own > 0 {
      TotalsOfEqual(below, own - 1);
      AtMostSteps(|below|, Requests(own - 1));
      AtMostSteps(|below|, Debits(own - 1));
    }
  }

  // An accepted request has a level left, and the headers printed for it declare
  // one less.
  lemma PrintedIsOneDeeper(r: Request, depthMax: nat) returns (printed: Headers)
    requires IsGateway(r, depthMax) && depthMax <= DEPTH_MAX_ENV_CEILING && Read(r).Accepted?
    ensures printed == Printed(r, Read(r))
    ensures Levels(printed, depthMax) + 1 == Levels(r.headers, depthMax)
  {
    var v := Read(r);
    printed := Printed(r, v);
    assert PickSingle(printed.depth) == Some(NumberText(v.depth + 1));
    Network.DepthText(v.depth + 1);
  }

  lemma AnswerIsOneDeeper(r: Request, steps: nat, sent: seq<Request>, depthMax: nat) returns (own: nat, below: seq<nat>)
    requires IsGateway(r, depthMax) && depthMax <= DEPTH_MAX_ENV_CEILING && Answers(r, steps, sent)
    ensures own == Levels(r.headers, depthMax) && below == AllLevels(sent, depthMax)
    ensures |below| <= steps <= if own > 0 then MAX_COMPOSE_STEPS else 0
    ensures forall k :: 0 <= k < |below| ==> below[k] + 1 == own
  {
    own, below := Levels(r.headers, depthMax), AllLevels(sent, depthMax);
    if Read(r).Accepted? {
      var printed := PrintedIsOneDeeper(r, depthMax);
      assert forall k :: 0 <= k < |sent| ==> sent[k].headers == printed;
    }
  }

  lemma TotalsOfReplaced(before: seq<nat>, own: nat, after: seq<nat>, below: seq<nat>)
    ensures TotalRequests(before + after + below) + Requests(own) ==
            TotalRequests(before + [own] + after) + TotalRequests(below)
    ensures TotalDebits(before + after + below) + Debits(own) ==
            TotalDebits(before + [own] + after) + TotalDebits(below)
  {
    TotalsOfConcat(before, after);
    TotalsOfConcat(before + after, below);
    TotalsOfConcat(before, [own]);
    TotalsOfConcat(before + [own], after);
    assert [own][1..] == [];
  }

  function RequestWeight(s: State, depthMax: nat): nat { s.handled + TotalRequests(AllLevels(s.inFlight, depthMax)) }

  function DebitWeight(s: State, depthMax: nat): nat { s.debits + TotalDebits(AllLevels(s.inFlight, depthMax)) }

  lemma LevelsOfReplaced(before: seq<Request>, r: Request, after: seq<Request>, sent: seq<Request>, depthMax: nat)
    returns (b: seq<nat>, a: seq<nat>)
    ensures AllLevels(before + [r] + after, depthMax) == b + [Levels(r.headers, depthMax)] + a
    ensures AllLevels(before + after + sent, depthMax) == b + a + AllLevels(sent, depthMax)
  {
    b, a := AllLevels(before, depthMax), AllLevels(after, depthMax);
  }

  // Every step of the network pays for itself out of the weight in flight.
  lemma StepPaysForItself(s: State, t: State, i: nat, steps: nat, sent: seq<Request>, depthMax: nat)
    requires Honest(s, depthMax) && depthMax <= DEPTH_MAX_ENV_CEILING && Handles(s, t, i, steps, sent)
    ensures t.handled == s.handled + 1
    ensures RequestWeight(t, depthMax) <= RequestWeight(s, depthMax)
    ensures DebitWeight(t, depthMax) <= DebitWeight(s, depthMax)
  {
    assert s.inFlight[i] in s.inFlight;
    var own, below := AnswerIsOneDeeper(s.inFlight[i], steps, sent, depthMax);
    WeightsAfterAnswer(s, t, i, steps, sent, own, below, depthMax);
  }

  lemma WeightsAfterAnswer(s: State, t: State, i: nat, steps: nat, sent: seq<Request>,
                           own: nat, below: seq<nat>, depthMax: nat)
    requires i < |s.inFlight|
    requires t == State(s.inFlight[..i] + s.inFlight[i + 1..] + sent, s.handled + 1, s.debits + steps)
    requires own == Levels(s.inFlight[i].headers, depthMax) && below == AllLevels(sent, depthMax)
    requires |below| <= steps <= if own > 0 then MAX_COMPOSE_STEPS else 0
    requires forall k :: 0 <= k < |below| ==> below[k] + 1 == own
    ensures RequestWeight(t, depthMax) <= RequestWeight(s, depthMax)
    ensures DebitWeight(t, depthMax) <= DebitWeight(s, depthMax)
  {
    var b, a := LevelsOfReplaced(s.inFlight[..i], s.inFlight[i], s.inFlight[i + 1..], sent, depthMax);
    assert s.inFlight == s.inFlight[..i] + [s.inFlight[i]] + s.inFlight[i + 1..];
    OneLevelDown(own, steps, below);
    TotalsOfReplaced(b, own, a, below);
  }

  lemma {:induction false} RunPaysForItself(states: seq<State>, depthMax: nat, k: nat)
    requires IsRun(states) && depthMax <= DEPTH_MAX_ENV_CEILING
    requires forall j :: 0 <= j < |states| ==> Honest(states[j], depthMax)
    requires k < |states|
    ensures states[k].handled == states[0].handled + k
    ensures RequestWeight(states[k], depthMax) <= RequestWeight(states[0], depthMax)
    ensures DebitWeight(states[k], depthMax) <= DebitWeight(states[0], depthMax)
  {
    if k == 0 {
    } else {
      var s, t := states[k - 1], states[k];
      RunPaysForItself(states, depthMax, k - 1);
      assert Next(s, t);
      var i, steps, sent :| Handles(s, t, i, steps, sent);
      StepPaysForItself(s, t, i, steps, sent, depthMax);
    }
  }

  // ---- the bound ----

  // The sum of MAX_COMPOSE_STEPS^k for k from `from` to `to`.
  function PowerSum(from: nat, to: nat): int {
    if to < from then 0
    else Pow(MAX_COMPOSE_STEPS, to) + if to == 0 then 0 else PowerSum(from, to - 1)
  }

  lemma {:induction false} BoundInClosedForm(depthMax: nat)
    ensures Requests(depthMax) == PowerSum(0, depthMax) && Debits(depthMax) == PowerSum(1, depthMax)
    ensures 4 * Requests(depthMax) == Pow(5, depthMax + 1) - 1
    ensures 4 * Debits(depthMax) == Pow(5, depthMax + 1) - 5
  {
    if depthMax > 0 { BoundInClosedForm(depthMax - 1); }
    else { assert Pow(5, 1) == 5; }
  }

  lemma FreshWeight(r: Request, depthMax: nat)
    requires r.headers == NO_HEADERS
    ensures RequestWeight(State([r], 0, 0), depthMax) == Requests(depthMax)
    ensures DebitWeight(State([r], 0, 0), depthMax) == Debits(depthMax)
  {
    var s := State([r], 0, 0);
    assert AllLevels(s.inFlight, depthMax) == [depthMax];
    assert TotalRequests([depthMax]) == Requests(depthMax) + TotalRequests([]);
    assert TotalDebits([depthMax]) == Debits(depthMax) + TotalDebits([]);
  }

  // With ceilings of at most D, however the network is wired and however it
  // interleaves, one request without contracting headers causes at most
  // (5^(D+1)-1)/4 requests and (5^(D+1)-5)/4 step debits; and as every step handles a
  // request, every run ends.
  lemma CostIsBounded(states: seq<State>, r: Request, depthMax: nat)
    requires 0 < depthMax <= DEPTH_MAX_ENV_CEILING
    requires |states| > 0 && states[0] == State([r], 0, 0) && r.headers == NO_HEADERS
    requires IsRun(states) && forall j :: 0 <= j < |states| ==> Honest(states[j], depthMax)
    ensures var last := states[|states| - 1];
            && last.handled == |states| - 1
            && 4 * last.handled <= Pow(5, depthMax + 1) - 1
            && 4 * last.debits <= Pow(5, depthMax + 1) - 5
  {
    RunPaysForItself(states, depthMax, |states| - 1);
    FreshWeight(r, depthMax);
    BoundInClosedForm(depthMax);
  }

  // The published table: 6/5, 31/30 and 156/155 requests and debits.
  lemma PublishedTable()
    ensures Requests(1) == 6 && Debits(1) == 5
    ensures Requests(DEFAULT_DEPTH_MAX) == 31 && Debits(DEFAULT_DEPTH_MAX) == 30
    ensures Requests(3) == 156 && Debits(3) == 155
  {
    assert Requests(2) == 31 && Debits(2) == 30;
  }

  // The bound needs every gateway to have a host to announce. One without prints no
  // headers, so the next reader starts again at depth 0: a gateway that keeps
  // invoking itself handles as many requests as one likes.
  lemma NoIdentityNoBound(r: Request, n: nat) returns (states: seq<State>)
    requires CanonicalId(Identity(r)).None? && r.ceiling > 0 && r.headers == NO_HEADERS
    ensures |states| == n + 1 && IsRun(states) && forall k :: 0 <= k <= n ==> states[k] == State([r], k, k)
  {
    states := seq(n + 1, k requires 0 <= k <= n => State([r], k, k));
    hide ReadInbound;
    forall k | 0 < k < |states| ensures Next(states[k - 1], states[k]) {
      Network.ReadsNothing(Identity(r), r.ceiling);
      assert [r][..0] + [r][1..] + [r] == [r];
      assert Answers(r, 1, [r]);
      assert Handles(states[k - 1], states[k], 0, 1, [r]);
    }
  }

  // A run that starts from r and never leaves r's gateway: only the headers differ.
  ghost predicate IsRunOf(states: seq<State>, r: Request) {
    && |states| > 0 && states[0] == State([r], 0, 0) && IsRun(states)
    && forall k, q :: 0 <= k < |states| && q in states[k].inFlight ==> q.(headers := r.headers) == r
  }

  ghost predicate BoundedBy(r: Request, bound: nat) {
    forall states: seq<State> :: IsRunOf(states, r) ==> states[|states| - 1].handled <= bound
  }

  // Whether a gateway that may invoke itself is bounded at all depends on one thing a
  // caller can check: whether it has a host to announce.
  lemma BoundedIffAnnounced(r: Request)
    requires 0 < r.ceiling <= DEPTH_MAX_ENV_CEILING && r.headers == NO_HEADERS
    ensures (exists bound: nat :: BoundedBy(r, bound)) <==> CanonicalId(Identity(r)).Some?
  {
    if CanonicalId(Identity(r)).Some? {
      var bound := Requests(r.ceiling);
      BoundInClosedForm(r.ceiling);
      forall states: seq<State> | IsRunOf(states, r) ensures states[|states| - 1].handled <= bound {
        forall k, q | 0 <= k < |states| && q in states[k].inFlight ensures IsGateway(q, r.ceiling) {
          assert q.(headers := r.headers) == r;
        }
        CostIsBounded(states, r, r.ceiling);
      }
      assert BoundedBy(r, bound);
    } else if bound: nat :| BoundedBy(r, bound) {
      var states := NoIdentityNoBound(r, bound + 1);
      assert IsRunOf(states, r);
      assert false;
    }
  }
}
