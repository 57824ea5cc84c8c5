// What the downstream leg promises about money: at most one settlement, no real
// money without an opt-in, and "unknown" never told as "unpaid".
module DownstreamSafety {
  import opened Wrappers
  import opened Text
  import opened Chains
  import opened SettleErrors
  import opened SkipCodes
  import opened Downstream
  import OnChain
  import Registries

  function Settlements(calls: seq<Call>): seq<Call> {
    if calls == [] then []
    else (if calls[0].SettleCall? then [calls[0]] else []) + Settlements(calls[1..])
  }

  predicate ReachesSettle(leg: Leg) {
    && FirstClosed(Before(leg)).None?
    && (IsSolanaLeg(leg) || (leg.answers.signs && leg.answers.verify == VerifyAnswered(true)))
  }

  // A leg settles at most once: on the card's chain, to the card's address, a positive amount.
  lemma SettlesAtMostOnce(leg: Leg)
    ensures Settlements(CallsOf(leg)) ==
            if ReachesSettle(leg) && KeyOf(leg).Some? then [SettleCall(KeyOf(leg).value, PayTo(leg), Amount(leg))]
            else []
    ensures ReachesSettle(leg) ==> KeyOf(leg).Some? && Amount(leg) > 0 && GoodPrice(leg.agent.price)
  {
    hide Before, Normalize;
    if FirstClosed(Before(leg)).None? {
      BeforeIsOpen(leg);
      var key := KeyOf(leg).value;
      var sign, check := SignCall(key, PayTo(leg), Amount(leg)), VerifyCall(key);
      var settle := SettleCall(key, PayTo(leg), Amount(leg));
      OneSettlement(settle);
      AskingFirst(check, []);
      AskingFirst(check, [settle]);
      AskingFirst(sign, []);
      AskingFirst(sign, [check]);
      AskingFirst(sign, [check, settle]);
      assert [check] + [] == [check] && [check] + [settle] == [check, settle];
    }
  }

  lemma AskingFirst(c: Call, rest: seq<Call>)
    requires !c.SettleCall?
    ensures Settlements([c] + rest) == Settlements(rest)
  {
    assert ([c] + rest)[1..] == rest;
  }

  lemma OneSettlement(c: Call)
    requires c.SettleCall?
    ensures Settlements([c]) == [c]
  {
  }

  lemma BeforeIsOpen(leg: Leg)
    requires FirstClosed(Before(leg)).None?
    ensures FirstClosed(RoutingGates(leg)).None? && BundleOf(leg).Some?
    ensures Amount(leg) > 0 && GoodPrice(leg.agent.price)
  {
    var own := if IsSolanaLeg(leg) then SolanaGates(leg) else EvmGates(leg);
    FirstClosedOfConcat(RoutingGates(leg), own);
    RoutedLegHasBundle(leg);
    var i := if IsSolanaLeg(leg) then 1 else 2;
    AllOpen(own, i);
    AllOpen(own, i + 2);
  }

  // What a leg has when a settlement is asked for, read off its own fields: the switch
  // is on, the card is an x402 card on a chain with a bundle, money goes to a well-formed
  // address that is not the zero address, in a positive amount, and a balance that was
  // looked at covers it.
  lemma SettlingNeeds(leg: Leg)
    ensures ReachesSettle(leg) <==>
              && leg.env.flag
              && leg.agent.payment.Some? && leg.agent.payment.value.payMethod == "x402"
              && Connected(leg)
              && Classify(ConnectedBundle(leg).Destination()) == Declared(ConnectedKey(leg))
              && (Classify(ConnectedBundle(leg).Destination()) == Mainnet ==>
                    && leg.env.mainnetAllow.Some?
                    && Names(Split(leg.env.mainnetAllow.value, ','), ConnectedKey(leg)))
              && leg.agent.price.Usd? && leg.agent.price.amount > 0.0
              && leg.answers.hasToken && leg.answers.atomic.Some? && leg.answers.atomic.value > 0
              && var payTo, balance := leg.agent.payment.value.contract, leg.answers.balance;
                 var amount := leg.answers.atomic.value;
                 if OnEvm(leg) then
                   && OnChain.IsEvmAddress(payTo) && (exists i :: 2 <= i < 42 && payTo[i] != '0')
                   && (leg.env.hasRpc && leg.env.hexKey ==> balance.Some? && balance.value >= amount)
                   && leg.answers.signs && leg.answers.verify == VerifyAnswered(true)
                 else
                   && IsSolanaAddress(payTo) && leg.intentId.Some? && leg.intentId.value != ""
                   && leg.answers.ledger != LedgerUnknown
                   && (leg.answers.ledger == LedgerNone && !leg.env.viaFacilitator && balance.Some? ==>
                         balance.value >= amount)
  {
    hide Normalize, RoutingGates, SolanaGates, EvmGates, BundleOf, KeyOf, IsSolanaAddress, OnChain.IsEvmAddress;
    hide Classify, Declared, Names, FirstClosed, Connected, OnEvm, OnSolana, IsSolanaLeg;
    ConnectedMeaning(leg);
    RoutingNeeds(leg);
    var own := if IsSolanaLeg(leg) then SolanaGates(leg) else EvmGates(leg);
    FirstClosedOfConcat(RoutingGates(leg), own);
    if Connected(leg) {
      if OnEvm(leg) { EvmNeeds(leg); } else { SolanaNeeds(leg); }
    }
  }

  lemma RoutingNeeds(leg: Leg)
    ensures FirstClosed(RoutingGates(leg)).None? <==>
              && leg.env.flag
              && leg.agent.payment.Some? && leg.agent.payment.value.payMethod == "x402"
              && Connected(leg)
              && Classify(ConnectedBundle(leg).Destination()) == Declared(ConnectedKey(leg))
              && (Classify(ConnectedBundle(leg).Destination()) == Mainnet ==>
                    && leg.env.mainnetAllow.Some?
                    && Names(Split(leg.env.mainnetAllow.value, ','), ConnectedKey(leg)))
  {
    hide Normalize, RoutingGates, Classify, Declared, Names, FirstClosed, FirstFault;
    RoutingFaults(leg);
    NoFault(leg, ROUTING_ORDER);
    var order := ROUTING_ORDER;
    assert order[0] == FlagOff && order[1] == NoPaymentField && order[2] == MethodNotSupported
           && order[3] == ChainNotSupported && order[4] == ChainEnvironmentDrift && order[5] == MainnetNotAllowed;
  }

  lemma EvmNeeds(leg: Leg)
    requires OnEvm(leg)
    ensures Connected(leg)
    ensures FirstClosed(EvmGates(leg)).None? <==>
              && leg.agent.price.Usd? && leg.agent.price.amount > 0.0
              && leg.answers.hasToken && leg.answers.atomic.Some? && leg.answers.atomic.value > 0
              && OnChain.IsEvmAddress(leg.agent.payment.value.contract)
              && (exists i :: 2 <= i < 42 && leg.agent.payment.value.contract[i] != '0')
              && (leg.env.hasRpc && leg.env.hexKey ==>
                    leg.answers.balance.Some? && leg.answers.balance.value >= leg.answers.atomic.value)
  {
    hide Normalize, EvmGates, FirstClosed, FirstFault, OnChain.IsEvmAddress, IsSolanaAddress;
    EvmFaults(leg);
    NoFault(leg, CHECK_ORDER);
    var order := CHECK_ORDER;
    assert order[0] == InvalidPayToFormat && order[1] == ZeroPayTo && order[2] == InvalidPrice
           && order[3] == MissingIntentId && order[4] == SettleLedgerUnavailable && order[5] == BalanceReadFailed
           && order[6] == InsufficientBalance;
    assert OnChain.IsEvmAddress(leg.agent.payment.value.contract) ==> |leg.agent.payment.value.contract| == 42 by {
      OnChain.AddressShape(leg.agent.payment.value.contract);
    }
  }

  lemma SolanaNeeds(leg: Leg)
    requires OnSolana(leg)
    ensures Connected(leg)
    ensures FirstClosed(SolanaGates(leg)).None? <==>
              && leg.agent.price.Usd? && leg.agent.price.amount > 0.0
              && leg.answers.hasToken && leg.answers.atomic.Some? && leg.answers.atomic.value > 0
              && IsSolanaAddress(leg.agent.payment.value.contract)
              && leg.intentId.Some? && leg.intentId.value != ""
              && leg.answers.ledger != LedgerUnknown
              && (leg.answers.ledger == LedgerNone && !leg.env.viaFacilitator && leg.answers.balance.Some? ==>
                    leg.answers.balance.value >= leg.answers.atomic.value)
  {
    hide Normalize, IsSolanaAddress;
    SolanaIsNotEvm(leg);
    var gates := SolanaGates(leg);
    if FirstClosed(gates).None? {
      AllOpen(gates, 0);
      AllOpen(gates, 1);
      AllOpen(gates, 2);
      AllOpen(gates, 3);
      AllOpen(gates, 4);
      AllOpen(gates, 5);
      AllOpen(gates, 6);
    } else {
      var i := ClosedGate(gates);
    }
  }

  // Settling on real money takes a card and an allow-list entry that both spell out
  // that same mainnet.
  lemma MainnetNeedsOptIn(leg: Leg)
    requires ReachesSettle(leg)
    ensures BundleOf(leg).Some?
    ensures Classify(DestinationOf(leg)) == Mainnet ==>
              var key := KeyOf(leg).value;
              && IsMainnetKey(key) && !IsAmbiguous(leg.agent.payment.value.chain)
              && leg.env.mainnetAllow.Some?
              && exists i :: 0 <= i < |Split(leg.env.mainnetAllow.value, ',')|
                             && Normalize(Split(leg.env.mainnetAllow.value, ',')[i]) == Some(key)
                             && !IsAmbiguous(Split(leg.env.mainnetAllow.value, ',')[i])
  {
    BeforeIsOpen(leg);
    RoutedLegHasBundle(leg);
    if Classify(DestinationOf(leg)) == Mainnet {
      var key, entries := KeyOf(leg).value, Split(leg.env.mainnetAllow.value, ',');
      AllowedIffNamed(leg.env.mainnetAllow, key);
      MainnetIsSpelledOut(leg.agent.payment.value.chain, key);
      var i :| 0 <= i < |entries| && Normalize(entries[i]) == Some(key);
      MainnetIsSpelledOut(entries[i], key);
    }
  }

  // In every registry reachable by start-ups, no leg is refused as incoherent, and an
  // EVM leg whose adapter signs on real money was opted in.
  lemma AdapterMoneyNeedsOptIn(trace: seq<Registries.State>, events: seq<Registries.Event>, n: nat, leg: Leg)
    requires Registries.IsRun(trace, events) && n < |trace| && leg.registry == trace[n] && BundleOf(leg).Some?
    ensures !Drifts(KeyOf(leg).value, DestinationOf(leg))
    ensures ReachesSettle(leg) && BundleOf(leg).value.payment.EvmPayment?
            && ClassifyEvm(BundleOf(leg).value.payment.chainId) == Mainnet ==>
              leg.env.mainnetAllow.Some? && Names(Split(leg.env.mainnetAllow.value, ','), KeyOf(leg).value)
  {
    Registries.SlugsTellTheTruth(trace, events, n, KeyOf(leg).value);
    if ReachesSettle(leg) {
      BeforeIsOpen(leg);
      RoutedLegHasBundle(leg);
      AllowedIffNamed(leg.env.mainnetAllow, KeyOf(leg).value);
    }
  }

  // ---- every refusal leaves its reason ----

  lemma {:induction false} ClosedGate(gates: seq<Gate>) returns (i: nat)
    requires FirstClosed(gates).Some?
    ensures i < |gates| && !gates[i].open && FirstClosed(gates) == Some(gates[i].code)
    ensures forall j :: 0 <= j < i ==> gates[j].open
  {
    if gates[0].open {
      i := ClosedGate(gates[1..]);
      i := i + 1;
    } else {
      i := 0;
    }
  }

  predicate Only(gates: seq<Gate>, codes: set<SkipCode>) { forall i :: 0 <= i < |gates| ==> gates[i].code in codes }

  lemma OnlyOfConcat(a: seq<Gate>, b: seq<Gate>, codes: set<SkipCode>)
    requires Only(a, codes) && Only(b, codes)
    ensures Only(a + b, codes)
  {
  }

  lemma VerdictIsOneOf(gates: seq<Gate>, codes: set<SkipCode>)
    requires Only(gates, codes)
    ensures FirstClosed(gates).Some? ==> FirstClosed(gates).value in codes
  {
    if FirstClosed(gates).Some? {
      var i := ClosedGate(gates);
    }
  }

  const EVM_REFUSALS: set<SkipCode> :=
    {FlagOff, NoPaymentField, MethodNotSupported, ChainNotSupported, ChainEnvironmentDrift, MainnetNotAllowed,
     InvalidPayToFormat, ZeroPayTo, InvalidPrice, BalanceReadFailed, InsufficientBalance}

  const SOLANA_REFUSALS: set<SkipCode> := EVM_REFUSALS + {MissingIntentId, SettleLedgerUnavailable}

  // Why a leg is refused before the adapter is asked anything.
  lemma RefusedBefore(leg: Leg)
    ensures Only(Before(leg), if IsSolanaLeg(leg) then SOLANA_REFUSALS else EVM_REFUSALS)
  {
    var codes := if IsSolanaLeg(leg) then SOLANA_REFUSALS else EVM_REFUSALS;
    RoutingCodes(leg);
    EvmCodes(leg);
    SolanaCodes(leg);
    OnlyOfConcat(RoutingGates(leg), if IsSolanaLeg(leg) then SolanaGates(leg) else EvmGates(leg), codes);
  }

  lemma RoutingCodes(leg: Leg)
    ensures Only(RoutingGates(leg), EVM_REFUSALS)
  {
    hide KeyOf, BundleOf, IsMainnetAllowed, Drifts, Classify;
  }

  lemma EvmCodes(leg: Leg)
    ensures Only(EvmGates(leg), EVM_REFUSALS)
  {
    hide OnChain.IsEvmAddress, IsZeroAddress;
  }

  lemma SolanaCodes(leg: Leg)
    ensures Only(SolanaGates(leg), SOLANA_REFUSALS)
  {
    hide IsSolanaAddress;
  }

  // A leg that is not paid never leaves a mere remark as its reason.
  lemma RefusalsCutTheLeg(leg: Leg)
    requires Verdict(leg).Some?
    ensures CutsTheLeg(Verdict(leg).value)
  {
    hide Before;
    FirstClosedOfConcat(Before(leg), AdapterGates(leg));
    RefusedBefore(leg);
    VerdictIsOneOf(Before(leg), if IsSolanaLeg(leg) then SOLANA_REFUSALS else EVM_REFUSALS);
    VerdictIsOneOf(AdapterGates(leg), {InsufficientBalance, SigningFailed, VerifyFailed, SettleUnknown, SettleFailed});
  }

  // ---- unknown is not unpaid ----

  // On an EVM leg the operator is sent to look at the chain exactly when the
  // settlement was asked for and may have paid without coming back as paid.
  lemma EvmUnknownIsNotUnpaid(leg: Leg)
    requires BundleOf(leg).Some? && !IsSolanaLeg(leg)
    ensures Verdict(leg).Some? && ToAction(Verdict(leg).value) == ReconcileOnChain
            <==> ReachesSettle(leg) && MayHavePaid(leg.answers.settle)
  {
    hide Before, AdapterGates, IsSolanaLeg;
    FirstClosedOfConcat(Before(leg), AdapterGates(leg));
    RefusedBefore(leg);
    VerdictIsOneOf(Before(leg), EVM_REFUSALS);
    EvmAdapterVerdict(leg);
  }

  lemma EvmAdapterVerdict(leg: Leg)
    requires BundleOf(leg).Some? && !IsSolanaLeg(leg)
    ensures FirstClosed(AdapterGates(leg)) ==
            if !leg.answers.signs then Some(SigningFailed)
            else if leg.answers.verify != VerifyAnswered(true) then Some(VerifyFailed)
            else if MayHavePaid(leg.answers.settle) then Some(SettleUnknown)
            else if !Paid(leg.answers.settle) then Some(SettleFailed)
            else None
  {
    var gates := AdapterGates(leg);
    FirstClosedAt(gates, if !gates[0].open then 0 else if !gates[1].open then 1
                         else if !gates[2].open then 2 else if !gates[3].open then 3 else 4);
  }

  function WithSettle(leg: Leg, answer: SettleAnswer): Leg { leg.(answers := leg.answers.(settle := answer)) }

  lemma SettleComesLast(leg: Leg, answer: SettleAnswer)
    ensures Before(WithSettle(leg, answer)) == Before(leg)
    ensures IsSolanaLeg(WithSettle(leg, answer)) == IsSolanaLeg(leg)
    ensures BundleOf(WithSettle(leg, answer)) == BundleOf(leg)
  {
    hide Normalize, Drifts, Classify, IsMainnetAllowed, IsZeroAddress, IsSolanaAddress, GoodPrice;
    hide Registries.BundleFor, OnChain.IsEvmAddress;
    var after := WithSettle(leg, answer);
    assert KeyOf(after) == KeyOf(leg) && PayTo(after) == PayTo(leg) && Amount(after) == Amount(leg);
    assert RoutingGates(after) == RoutingGates(leg) && AmountGates(after) == AmountGates(leg);
    assert EvmGates(after) == EvmGates(leg) && SolanaGates(after) == SolanaGates(leg);
  }

  // The settle request of an EVM leg fails in transport with err. The leg is told as
  // unpaid exactly when a code proves that the request never left, or when the adapter
  // is an x402 one, which does not say; else its outcome is unknown.
  method TransportFailure(leg: Leg, mode: SettleMode, err: Thrown, sameCopy: bool) returns (thrown: Thrown)
    requires BundleOf(leg).Some? && !IsSolanaLeg(leg) && ReachesSettle(leg)
    ensures var verdict := Verdict(WithSettle(leg, Threw(thrown, None)));
            && (verdict == Some(SettleFailed) <==> mode.X402? || ProvesNotSent(err))
            && (verdict != Some(SettleFailed) ==> verdict == Some(SettleUnknown))
  {
    hide Before, AdapterGates, IsSolanaLeg, ProvesNotSent;
    thrown := WrapTransportFailure(mode, err, sameCopy);
    ghost var failed := WithSettle(leg, Threw(thrown, None));
    SettleComesLast(leg, Threw(thrown, None));
    FirstClosedOfConcat(Before(failed), AdapterGates(failed));
    EvmAdapterVerdict(failed);
  }

  // The limit of the EVM rule: a settlement that came back as a success is told as
  // unpaid exactly when it came without a hash.
  lemma SuccessWithoutHashIsToldAsUnpaid(leg: Leg, txHash: Option<string>)
    requires BundleOf(leg).Some? && !IsSolanaLeg(leg) && ReachesSettle(leg)
    requires leg.answers.settle == Answered(true, txHash)
    ensures Verdict(leg) == Some(SettleFailed) <==> txHash.None? || txHash == Some("")
    ensures Verdict(leg) == None <==> txHash.Some? && txHash.value != ""
    ensures ToPublic(SettleFailed) == PublicSettleFailed
  {
    hide Before;
    FirstClosedOfConcat(Before(leg), AdapterGates(leg));
    EvmAdapterVerdict(leg);
  }

  // A Solana leg is sent to the chain when the ledger cannot tell, or when the
  // settlement threw with an unknown outcome (and not for lack of funds). The hash of
  // an answered failure is not looked at.
  lemma SolanaUnknownIsNotUnpaid(leg: Leg)
    requires IsSolanaLeg(leg)
    ensures Verdict(leg).Some? && ToAction(Verdict(leg).value) == ReconcileOnChain
            <==> || Verdict(leg) == Some(SettleLedgerUnavailable)
                 || (ReachesSettle(leg) && ThrewUnknown(leg.answers.settle)
                     && leg.answers.settle.payoutCode != Some("PAYOUT_FUNDING_LOW"))
    ensures Verdict(leg) == Some(SettleLedgerUnavailable) ==> leg.answers.ledger == LedgerUnknown && !ReachesSettle(leg)
    ensures ReachesSettle(leg) && leg.answers.settle.Answered? && !leg.answers.settle.success ==>
              Verdict(leg) == Some(SettleFailed)
  {
    hide Before, AdapterGates, IsSolanaLeg, ReadDisposition;
    FirstClosedOfConcat(Before(leg), AdapterGates(leg));
    RefusedBefore(leg);
    VerdictIsOneOf(Before(leg), SOLANA_REFUSALS);
    SolanaAdapterVerdict(leg);
    if FirstClosed(Before(leg)) == Some(SettleLedgerUnavailable) { LedgerRefusal(leg); }
  }

  lemma SolanaAdapterVerdict(leg: Leg)
    requires IsSolanaLeg(leg)
    ensures var s := leg.answers.settle;
            FirstClosed(AdapterGates(leg)) ==
            if s.Threw? && s.payoutCode == Some("PAYOUT_FUNDING_LOW") then Some(InsufficientBalance)
            else if ThrewUnknown(s) then Some(SettleUnknown)
            else if !Paid(s) then Some(SettleFailed)
            else None
  {
    var gates := AdapterGates(leg);
    FirstClosedAt(gates, if !gates[0].open then 0 else if !gates[1].open then 1 else if !gates[2].open then 2 else 3);
  }

  lemma LedgerRefusal(leg: Leg)
    requires IsSolanaLeg(leg) && FirstClosed(Before(leg)) == Some(SettleLedgerUnavailable)
    ensures leg.answers.ledger == LedgerUnknown
  {
    hide BundleOf, KeyOf, RoutingGates, IsSolanaAddress;
    RoutingCodes(leg);
    VerdictIsOneOf(RoutingGates(leg), EVM_REFUSALS);
    FirstClosedOfConcat(RoutingGates(leg), SolanaGates(leg));
    var i := ClosedGate(SolanaGates(leg));
    assert i == 5;
  }
}
