// src/lib/downstream-payment.ts: paying one downstream leg. Adapters, RPC nodes and
// the settle ledger answer arbitrarily.
module Downstream {
  import opened Wrappers
  import opened Text
  import opened Chains
  import opened SettleErrors
  import opened SkipCodes
  import Base58
  import OnChain
  import Registries

  datatype Price = NotFinite | Usd(amount: real)

  datatype PaymentField = PaymentField(payMethod: string, chain: string, contract: string)

  datatype Agent = Agent(payment: Option<PaymentField>, price: Price)

  // `hasRpc` is about the leg's chain; `hexKey` about the operator's private key.
  datatype Env = Env(flag: bool, mainnetAllow: Option<string>, hasRpc: bool, hexKey: bool, viaFacilitator: bool)

  datatype LedgerPeek = LedgerSettled | LedgerInProgress | LedgerNone | LedgerUnknown

  datatype SettleAnswer =
    | Threw(err: Thrown, payoutCode: Option<string>)
    | Answered(success: bool, txHash: Option<string>)

  datatype VerifyAnswer = VerifyThrew | VerifyAnswered(valid: bool)

  // Everything the outside answers to one leg. `atomic` is the price in atomic units
  // of the adapter's token (None: the conversion throws); `balance` is the
  // operator's (None: the read fails).
  datatype Answers = Answers(hasToken: bool, atomic: Option<nat>, balance: Option<nat>, signs: bool,
                             verify: VerifyAnswer, settle: SettleAnswer, ledger: LedgerPeek)

  datatype Leg = Leg(agent: Agent, env: Env, registry: Registries.State, intentId: Option<string>, answers: Answers)

  datatype Settled = Settled(txHash: string, amount: nat, caip2: Option<string>)

  // What the gateway asks of an adapter.
  datatype Call =
    | SignCall(key: ChainKey, payTo: string, amount: nat)
    | VerifyCall(key: ChainKey)
    | SettleCall(key: ChainKey, payTo: string, amount: nat)

  class Wire {
    var calls: seq<Call>

    method Send(c: Call)
      modifies this
      ensures calls == old(calls) + [c]
    {
      calls := calls + [c];
    }
  }

  class Process {
    var warnedFlagOff: bool
  }

  // ---- the mainnet opt-in ----

  function TrimmedParts(parts: seq<string>): seq<string> {
    if parts == [] then []
    else (if Trim(parts[0]) != "" then [Trim(parts[0])] else []) + TrimmedParts(parts[1..])
  }

  predicate Names(entries: seq<string>, k: ChainKey) {
    exists i :: 0 <= i < |entries| && Normalize(entries[i]) == Some(k)
  }

  predicate IsMainnetAllowed(allow: Option<string>, k: ChainKey) {
    allow.Some? && Trim(allow.value) != "" && Names(TrimmedParts(Split(allow.value, ',')), k)
  }

  lemma NormalizeTrims(raw: string)
    ensures Normalize(Trim(raw)) == Normalize(raw)
    ensures Trim(raw) == "" ==> Normalize(raw) == None
  {
    TrimIsFixed(raw);
    TrimIsFixed(Trim(raw));
  }

  lemma NamesOfConcat(head: string, rest: seq<string>, k: ChainKey)
    ensures Names([head] + rest, k) <==> Normalize(head) == Some(k) || Names(rest, k)
  {
    var all := [head] + rest;
    assert all[0] == head && forall i :: 0 <= i < |rest| ==> all[i + 1] == rest[i];
  }

  lemma {:induction false} TrimmedPartsMeaning(parts: seq<string>, k: ChainKey)
    ensures Names(TrimmedParts(parts), k) <==> Names(parts, k)
  {
    if parts == [] {
    } else {
      TrimmedPartsMeaning(parts[1..], k);
      NormalizeTrims(parts[0]);
      NamesOfConcat(parts[0], parts[1..], k);
      NamesOfConcat(Trim(parts[0]), TrimmedParts(parts[1..]), k);
      assert [parts[0]] + parts[1..] == parts;
      assert [] + TrimmedParts(parts[1..]) == TrimmedParts(parts[1..]);
    }
  }

  // Trimming and dropping blanks changes nothing: the gate opens exactly for the keys
  // that some comma-separated entry names.
  lemma AllowedIffNamed(allow: Option<string>, k: ChainKey)
    ensures IsMainnetAllowed(allow, k) <==> allow.Some? && Names(Split(allow.value, ','), k)
  {
    if allow.Some? {
      TrimmedPartsMeaning(Split(allow.value, ','), k);
      if Trim(allow.value) == "" {
        if ',' in allow.value { TrimKeeps(allow.value, ','); }
        SplitPrefix(allow.value, "", ',');
        NormalizeTrims(allow.value);
      }
    }
  }

  lemma {:induction false} TrimKeeps(s: string, c: char)
    requires c in s && !IsSpace(c)
    ensures Trim(s) != ""
  {
    if IsSpace(s[0]) { TrimKeeps(s[1..], c); } else { TrimKeepsFirst(s); }
  }

  // ---- the gates of a leg, in order ----

  predicate IsZeroAddress(s: string) { |s| == 42 && Lower(s) == "0x0000000000000000000000000000000000000000" }

  // Among addresses, the zero address is the one with no digit but 0.
  lemma ZeroAddressMeaning(s: string)
    requires OnChain.IsEvmAddress(s)
    ensures IsZeroAddress(s) <==> forall i :: 2 <= i < 42 ==> s[i] == '0'
  {
    var zero := "0x0000000000000000000000000000000000000000";
    assert |zero| == 42;
    assert forall i :: 2 <= i < 42 ==> zero[i] == '0';
    if IsZeroAddress(s) {
      forall i | 2 <= i < 42 ensures s[i] == '0' { assert Lower(s)[i] == zero[i]; }
    }
    if forall i :: 2 <= i < 42 ==> s[i] == '0' {
      forall i | 0 <= i < 42 ensures Lower(s)[i] == zero[i] {}
    }
  }

  predicate IsSolanaAddress(s: string) { Base58.Decoded(s).Some? && |Base58.Decoded(s).value| == Base58.PUBKEY_BYTES }

  // A Solana address is the base-58 text of 32 bytes.
  lemma SolanaAddressMeaning(s: string)
    ensures IsSolanaAddress(s) <==> exists key :: |key| == 32 && Base58.Decoded(s) == Some(key)
  {
    hide Base58.Decoded;
  }

  predicate GoodPrice(p: Price) { p.Usd? && p.amount > 0.0 }

  datatype Gate = Gate(open: bool, code: SkipCode)

  // The code of the first closed gate.
  function FirstClosed(gates: seq<Gate>): Option<SkipCode> {
    if gates == [] then None
    else if !gates[0].open then Some(gates[0].code)
    else FirstClosed(gates[1..])
  }

  function KeyOf(leg: Leg): Option<ChainKey> {
    if leg.agent.payment.Some? then Normalize(leg.agent.payment.value.chain) else None
  }

  function BundleOf(leg: Leg): Option<Registries.Bundle> {
    if KeyOf(leg).Some? then Registries.BundleFor(leg.registry, KeyOf(leg)) else None
  }

  function DestinationOf(leg: Leg): Destination
    requires BundleOf(leg).Some?
  {
    BundleOf(leg).value.Destination()
  }

  predicate IsSolanaLeg(leg: Leg) { BundleOf(leg).Some? && BundleOf(leg).value.payment.SolanaPayment? }

  function RoutingGates(leg: Leg): seq<Gate> {
    var known := BundleOf(leg).Some?;
    [Gate(leg.env.flag, FlagOff),
     Gate(leg.agent.payment.Some?, NoPaymentField),
     Gate(leg.agent.payment.Some? && leg.agent.payment.value.payMethod == "x402", MethodNotSupported),
     Gate(known, ChainNotSupported),
     Gate(known && !Drifts(KeyOf(leg).value, DestinationOf(leg)), ChainEnvironmentDrift),
     Gate(known && (|| Classify(DestinationOf(leg)) == Testnet
                    || IsMainnetAllowed(leg.env.mainnetAllow, KeyOf(leg).value)),
          MainnetNotAllowed)]
  }

  function PayTo(leg: Leg): string { if leg.agent.payment.Some? then leg.agent.payment.value.contract else "" }

  function AmountGates(leg: Leg): seq<Gate> {
    [Gate(GoodPrice(leg.agent.price), InvalidPrice),
     Gate(leg.answers.hasToken, InvalidPrice),
     Gate(leg.answers.atomic.Some? && leg.answers.atomic.value > 0, InvalidPrice)]
  }

  function Amount(leg: Leg): nat { if leg.answers.atomic.Some? then leg.answers.atomic.value else 0 }

  // An EVM leg reads the operator's balance only with an RPC and a usable key.
  function EvmGates(leg: Leg): seq<Gate> {
    var a, looks := leg.answers, leg.env.hasRpc && leg.env.hexKey;
    [Gate(OnChain.IsEvmAddress(PayTo(leg)), InvalidPayToFormat),
     Gate(!IsZeroAddress(PayTo(leg)), ZeroPayTo)]
    + AmountGates(leg)
    + [Gate(looks ==> a.balance.Some?, BalanceReadFailed),
       Gate(looks && a.balance.Some? ==> a.balance.value >= Amount(leg), InsufficientBalance)]
  }

  // A Solana leg that the ledger has already seen is not held back by a low balance.
  function SolanaGates(leg: Leg): seq<Gate> {
    var a := leg.answers;
    [Gate(IsSolanaAddress(PayTo(leg)), InvalidPayToFormat)]
    + AmountGates(leg)
    + [Gate(leg.intentId.Some? && leg.intentId.value != "", MissingIntentId),
       Gate(a.ledger != LedgerUnknown, SettleLedgerUnavailable),
       Gate(a.ledger == LedgerNone && !leg.env.viaFacilitator && a.balance.Some? ==> a.balance.value >= Amount(leg),
            InsufficientBalance)]
  }

  predicate Paid(a: SettleAnswer) { a.Answered? && a.success && a.txHash.Some? && a.txHash.value != "" }

  predicate ThrewUnknown(a: SettleAnswer) { a.Threw? && ReadDisposition(a.err) == Some(Unknown) }

  // A settlement that did not come back as paid, yet may have moved the money.
  predicate MayHavePaid(a: SettleAnswer) {
    ThrewUnknown(a) || (a.Answered? && !Paid(a) && HasBroadcastEvidence(a.txHash))
  }

  // The gates in front of the adapter, and those on the adapter's answers.
  function Before(leg: Leg): seq<Gate> {
    RoutingGates(leg) + if IsSolanaLeg(leg) then SolanaGates(leg) else EvmGates(leg)
  }

  function AdapterGates(leg: Leg): seq<Gate> {
    var a := leg.answers;
    if IsSolanaLeg(leg) then
      [Gate(!(a.settle.Threw? && a.settle.payoutCode == Some("PAYOUT_FUNDING_LOW")), InsufficientBalance),
       Gate(!ThrewUnknown(a.settle), SettleUnknown),
       Gate(Paid(a.settle), SettleFailed)]
    else
      [Gate(a.signs, SigningFailed),
       Gate(a.verify == VerifyAnswered(true), VerifyFailed),
       Gate(!MayHavePaid(a.settle), SettleUnknown),
       Gate(Paid(a.settle), SettleFailed)]
  }

  // Why a leg is not paid; None for one that is.
  function Verdict(leg: Leg): Option<SkipCode> { FirstClosed(Before(leg) + AdapterGates(leg)) }

  // What a leg asks of the adapter.
  function CallsOf(leg: Leg): seq<Call> {
    if FirstClosed(Before(leg)).Some? || KeyOf(leg).None? then [] else AdapterCalls(leg)
  }

  function AdapterCalls(leg: Leg): seq<Call>
    requires KeyOf(leg).Some?
  {
    var key, settle := KeyOf(leg).value, SettleCall(KeyOf(leg).value, PayTo(leg), Amount(leg));
    if IsSolanaLeg(leg) then [settle]
    else
      [SignCall(key, PayTo(leg), Amount(leg))]
      + if !leg.answers.signs then []
        else if leg.answers.verify != VerifyAnswered(true) then [VerifyCall(key)]
        else [VerifyCall(key), settle]
  }

  function ReceiptOf(leg: Leg): Settled
    requires BundleOf(leg).Some? && Paid(leg.answers.settle)
  {
    var payment := BundleOf(leg).value.payment;
    Settled(leg.answers.settle.txHash.value, Amount(leg), if payment.SolanaPayment? then Some(payment.caip2) else None)
  }

  // What a leg that is paid leaves in the logger: at most a remark on the balance.
  function RemarkOf(leg: Leg): Option<SkipCode> {
    if !IsSolanaLeg(leg) then (if leg.env.hasRpc then None else Some(BalancePrecheckSkipped))
    else if leg.env.viaFacilitator then None
    else if leg.answers.balance.None? then Some(BalancePrecheckSkipped)
    else if leg.answers.balance.value < Amount(leg) then Some(BalanceLowOnIdempotentReplay)
    else None
  }

  lemma {:induction false} FirstClosedAt(gates: seq<Gate>, n: nat)
    requires n <= |gates| && forall i :: 0 <= i < n ==> gates[i].open
    requires n < |gates| ==> !gates[n].open
    ensures FirstClosed(gates) == if n == |gates| then None else Some(gates[n].code)
  {
    if n == 0 {
    } else {
      FirstClosedAt(gates[1..], n - 1);
    }
  }

  lemma {:induction false} FirstClosedOfConcat(a: seq<Gate>, b: seq<Gate>)
    ensures FirstClosed(a + b) == if FirstClosed(a).Some? then FirstClosed(a) else FirstClosed(b)
  {
    if a == [] {
      assert a + b == b;
    } else {
      FirstClosedOfConcat(a[1..], b);
      assert (a + b)[1..] == a[1..] + b;
    }
  }

  // ---- why a leg is not paid, read off the leg ----

  // The card names a chain the gateway has a bundle for.
  predicate Connected(leg: Leg) {
    && leg.agent.payment.Some?
    && var key := Normalize(leg.agent.payment.value.chain);
       key.Some? && leg.registry.initialized && key.value in leg.registry.bundles
  }

  function ConnectedKey(leg: Leg): ChainKey
    requires Connected(leg)
  {
    Normalize(leg.agent.payment.value.chain).value
  }

  function ConnectedBundle(leg: Leg): Registries.Bundle
    requires Connected(leg)
  {
    leg.registry.bundles[ConnectedKey(leg)]
  }

  predicate OnSolana(leg: Leg) { Connected(leg) && ConnectedBundle(leg).payment.SolanaPayment? }

  predicate OnEvm(leg: Leg) { Connected(leg) && ConnectedBundle(leg).payment.EvmPayment? }

  // The balance the gateway looks at does not cover the amount.
  predicate ShortOf(leg: Leg, looked: bool) {
    looked && leg.answers.balance.Some? && leg.answers.atomic.Some?
    && leg.answers.balance.value < leg.answers.atomic.value
  }

  predicate CameBackPaid(a: SettleAnswer) { a.Answered? && a.success && a.txHash.Some? && a.txHash.value != "" }

  // What each code says about a leg.
  predicate Fault(leg: Leg, code: SkipCode) {
    var a := leg.answers;
    match code
    case FlagOff => !leg.env.flag
    case NoPaymentField => leg.agent.payment.None?
    case MethodNotSupported => leg.agent.payment.Some? && leg.agent.payment.value.payMethod != "x402"
    case ChainNotSupported => leg.agent.payment.Some? && !Connected(leg)
    case ChainEnvironmentDrift =>
      Connected(leg) && Classify(ConnectedBundle(leg).Destination()) != Declared(ConnectedKey(leg))
    case MainnetNotAllowed =>
      && Connected(leg) && Classify(ConnectedBundle(leg).Destination()) == Mainnet
      && !(leg.env.mainnetAllow.Some? && Names(Split(leg.env.mainnetAllow.value, ','), ConnectedKey(leg)))
    case InvalidPayToFormat =>
      || (OnEvm(leg) && !OnChain.IsEvmAddress(leg.agent.payment.value.contract))
      || (OnSolana(leg) && !IsSolanaAddress(leg.agent.payment.value.contract))
    case ZeroPayTo =>
      && OnEvm(leg) && OnChain.IsEvmAddress(leg.agent.payment.value.contract)
      && forall i :: 2 <= i < 42 ==> leg.agent.payment.value.contract[i] == '0'
    case InvalidPrice =>
      || leg.agent.price.NotFinite? || leg.agent.price.amount <= 0.0
      || !a.hasToken || a.atomic.None? || a.atomic.value == 0
    case MissingIntentId => OnSolana(leg) && (leg.intentId.None? || leg.intentId.value == "")
    case SettleLedgerUnavailable => OnSolana(leg) && a.ledger == LedgerUnknown
    case BalanceReadFailed => OnEvm(leg) && leg.env.hasRpc && leg.env.hexKey && a.balance.None?
    case InsufficientBalance =>
      || (OnEvm(leg) && ShortOf(leg, leg.env.hasRpc && leg.env.hexKey))
      || (OnSolana(leg) && ShortOf(leg, !leg.env.viaFacilitator && a.ledger == LedgerNone))
      || (OnSolana(leg) && a.settle.Threw? && a.settle.payoutCode == Some("PAYOUT_FUNDING_LOW"))
    case SigningFailed => OnEvm(leg) && !a.signs
    case VerifyFailed => OnEvm(leg) && (a.verify.VerifyThrew? || !a.verify.valid)
    case SettleUnknown =>
      || (a.settle.Threw? && ReadDisposition(a.settle.err) == Some(Unknown))
      || (OnEvm(leg) && a.settle.Answered? && !CameBackPaid(a.settle) && HasBroadcastEvidence(a.settle.txHash))
    case SettleFailed => !CameBackPaid(a.settle)
    case BalancePrecheckSkipped => false
    case BalanceLowOnIdempotentReplay => false
  }

  const ROUTING_ORDER: seq<SkipCode> :=
    [FlagOff, NoPaymentField, MethodNotSupported, ChainNotSupported, ChainEnvironmentDrift, MainnetNotAllowed]

  const CHECK_ORDER: seq<SkipCode> :=
    [InvalidPayToFormat, ZeroPayTo, InvalidPrice, MissingIntentId, SettleLedgerUnavailable, BalanceReadFailed,
     InsufficientBalance]

  const ADAPTER_ORDER: seq<SkipCode> := [SigningFailed, VerifyFailed, SettleUnknown, SettleFailed]

  // The first code whose fault the leg has.
  function FirstFault(leg: Leg, order: seq<SkipCode>): Option<SkipCode> {
    if order == [] then None else if Fault(leg, order[0]) then Some(order[0]) else FirstFault(leg, order[1..])
  }

  lemma {:induction false} FirstFaultAt(leg: Leg, order: seq<SkipCode>, n: nat)
    requires n <= |order| && forall i :: 0 <= i < n ==> !Fault(leg, order[i])
    requires n < |order| ==> Fault(leg, order[n])
    ensures FirstFault(leg, order) == if n == |order| then None else Some(order[n])
  {
    hide Fault;
    if n == 0 {
    } else {
      FirstFaultAt(leg, order[1..], n - 1);
    }
  }

  lemma {:induction false} FirstFaultOfConcat(leg: Leg, a: seq<SkipCode>, b: seq<SkipCode>)
    ensures FirstFault(leg, a + b) == if FirstFault(leg, a).Some? then FirstFault(leg, a) else FirstFault(leg, b)
  {
    hide Fault;
    if a == [] {
      assert a + b == b;
    } else {
      FirstFaultOfConcat(leg, a[1..], b);
      assert (a + b)[1..] == a[1..] + b;
    }
  }

  lemma ConnectedMeaning(leg: Leg)
    ensures Connected(leg) <==> BundleOf(leg).Some?
    ensures Connected(leg) ==> KeyOf(leg) == Some(ConnectedKey(leg)) && BundleOf(leg) == Some(ConnectedBundle(leg))
    ensures OnSolana(leg) <==> IsSolanaLeg(leg)
    ensures OnEvm(leg) <==> BundleOf(leg).Some? && !IsSolanaLeg(leg)
    ensures leg.agent.payment.Some? ==> PayTo(leg) == leg.agent.payment.value.contract
  {
    hide Normalize;
  }

  lemma RoutingFaults(leg: Leg)
    ensures FirstClosed(RoutingGates(leg)) == FirstFault(leg, ROUTING_ORDER)
  {
    hide Normalize, Classify, IsMainnetKey, IsMainnetAllowed, Names, BundleOf, KeyOf, Connected;
    hide FirstClosed, FirstFault;
    ConnectedMeaning(leg);
    if Connected(leg) { AllowedIffNamed(leg.env.mainnetAllow, ConnectedKey(leg)); }
    var n :=
      if Fault(leg, FlagOff) then 0 else if Fault(leg, NoPaymentField) then 1
      else if Fault(leg, MethodNotSupported) then 2 else if Fault(leg, ChainNotSupported) then 3
      else if Fault(leg, ChainEnvironmentDrift) then 4 else if Fault(leg, MainnetNotAllowed) then 5 else 6;
    FirstFaultAt(leg, ROUTING_ORDER, n);
    FirstClosedAt(RoutingGates(leg), n);
  }

  lemma EvmFaults(leg: Leg)
    requires OnEvm(leg)
    ensures FirstClosed(EvmGates(leg)) == FirstFault(leg, CHECK_ORDER)
  {
    hide Normalize, OnChain.IsEvmAddress, IsZeroAddress, IsSolanaAddress, Connected, OnEvm, OnSolana, KeyOf, BundleOf;
    hide FirstClosed, FirstFault;
    EvmIsNotSolana(leg);
    var gates := EvmGates(leg);
    if OnChain.IsEvmAddress(PayTo(leg)) { ZeroAddressMeaning(PayTo(leg)); }
    var n :=
      if Fault(leg, InvalidPayToFormat) then 0 else if Fault(leg, ZeroPayTo) then 1
      else if Fault(leg, InvalidPrice) then 2 else if Fault(leg, BalanceReadFailed) then 5
      else if Fault(leg, InsufficientBalance) then 6 else 7;
    FirstFaultAt(leg, CHECK_ORDER, n);
    FirstClosedAt(gates, if n == 2 then (if !gates[2].open then 2 else if !gates[3].open then 3 else 4) else n);
  }

  lemma EvmIsNotSolana(leg: Leg)
    requires OnEvm(leg)
    ensures Connected(leg) && !OnSolana(leg) && !IsSolanaLeg(leg) && PayTo(leg) == leg.agent.payment.value.contract
  {
    hide Normalize;
  }

  lemma EvmAnswerFaults(leg: Leg)
    requires OnEvm(leg)
    ensures FirstClosed(AdapterGates(leg)) == FirstFault(leg, ADAPTER_ORDER)
  {
    hide Normalize, Connected, OnEvm, OnSolana, IsSolanaLeg, ReadDisposition, HasBroadcastEvidence;
    hide FirstClosed, FirstFault;
    EvmIsNotSolana(leg);
    var n :=
      if Fault(leg, SigningFailed) then 0 else if Fault(leg, VerifyFailed) then 1
      else if Fault(leg, SettleUnknown) then 2 else if Fault(leg, SettleFailed) then 3 else 4;
    FirstFaultAt(leg, ADAPTER_ORDER, n);
    FirstClosedAt(AdapterGates(leg), n);
  }

  lemma SolanaIsNotEvm(leg: Leg)
    requires OnSolana(leg)
    ensures Connected(leg) && !OnEvm(leg) && IsSolanaLeg(leg) && PayTo(leg) == leg.agent.payment.value.contract
  {
    hide Normalize;
  }

  predicate FundingLow(leg: Leg) {
    leg.answers.settle.Threw? && leg.answers.settle.payoutCode == Some("PAYOUT_FUNDING_LOW")
  }

  lemma SolanaCheckFaults(leg: Leg)
    requires OnSolana(leg)
    ensures FirstFault(leg, CHECK_ORDER) ==
            if FirstClosed(SolanaGates(leg)).Some? then FirstClosed(SolanaGates(leg))
            else if FundingLow(leg) then Some(InsufficientBalance) else None
  {
    hide Normalize, Connected, OnEvm, OnSolana, IsSolanaLeg, IsSolanaAddress, KeyOf, BundleOf, FirstClosed, FirstFault;
    SolanaIsNotEvm(leg);
    var gates := SolanaGates(leg);
    var n := if !gates[0].open then 0 else if !gates[1].open then 1 else if !gates[2].open then 2
             else if !gates[3].open then 3 else if !gates[4].open then 4 else if !gates[5].open then 5
             else if !gates[6].open then 6 else 7;
    FirstClosedAt(gates, n);
    FirstFaultAt(leg, CHECK_ORDER,
      if n == 0 then 0 else if n <= 3 then 2 else if n == 4 then 3 else if n == 5 then 4
      else if n == 6 || FundingLow(leg) then 6 else 7);
  }

  lemma SolanaAnswerFaults(leg: Leg)
    requires OnSolana(leg)
    ensures FirstClosed(AdapterGates(leg)) ==
            if FundingLow(leg) then Some(InsufficientBalance) else FirstFault(leg, ADAPTER_ORDER)
  {
    hide Normalize, Connected, OnEvm, OnSolana, IsSolanaLeg, ReadDisposition, KeyOf, BundleOf, FirstClosed, FirstFault;
    SolanaIsNotEvm(leg);
    var n := if Fault(leg, SettleUnknown) then 1 else if Fault(leg, SettleFailed) then 2 else 3;
    FirstClosedAt(AdapterGates(leg), if FundingLow(leg) then 0 else n);
    FirstFaultAt(leg, ADAPTER_ORDER, n + 1);
  }

  lemma SolanaFaults(leg: Leg)
    requires OnSolana(leg)
    ensures FirstClosed(SolanaGates(leg) + AdapterGates(leg)) == FirstFault(leg, CHECK_ORDER + ADAPTER_ORDER)
  {
    hide SolanaGates, AdapterGates, Fault, FundingLow, OnSolana;
    SolanaCheckFaults(leg);
    SolanaAnswerFaults(leg);
    FirstClosedOfConcat(SolanaGates(leg), AdapterGates(leg));
    FirstFaultOfConcat(leg, CHECK_ORDER, ADAPTER_ORDER);
  }

  // Why a leg is not paid is the first code, in the documented order, whose fault it has.
  lemma VerdictIsFirstFault(leg: Leg)
    ensures Verdict(leg) == FirstFault(leg, ROUTING_ORDER + CHECK_ORDER + ADAPTER_ORDER)
  {
    hide Normalize, RoutingGates, SolanaGates, EvmGates, AdapterGates, Fault;
    RoutingFaults(leg);
    ConnectedMeaning(leg);
    var own := if IsSolanaLeg(leg) then SolanaGates(leg) else EvmGates(leg);
    assert RoutingGates(leg) + own + AdapterGates(leg) == RoutingGates(leg) + (own + AdapterGates(leg));
    FirstClosedOfConcat(RoutingGates(leg), own + AdapterGates(leg));
    assert ROUTING_ORDER + CHECK_ORDER + ADAPTER_ORDER == ROUTING_ORDER + (CHECK_ORDER + ADAPTER_ORDER);
    FirstFaultOfConcat(leg, ROUTING_ORDER, CHECK_ORDER + ADAPTER_ORDER);
    if FirstClosed(RoutingGates(leg)).None? {
      RoutedLegHasBundle(leg);
      if IsSolanaLeg(leg) {
        SolanaFaults(leg);
      } else {
        EvmFaults(leg);
        EvmAnswerFaults(leg);
        FirstClosedOfConcat(own, AdapterGates(leg));
        FirstFaultOfConcat(leg, CHECK_ORDER, ADAPTER_ORDER);
      }
    }
  }

  lemma {:induction false} NoFault(leg: Leg, order: seq<SkipCode>)
    ensures FirstFault(leg, order).None? <==> forall i :: 0 <= i < |order| ==> !Fault(leg, order[i])
  {
    hide Fault;
    if order != [] {
      NoFault(leg, order[1..]);
      assert forall i :: 0 < i < |order| ==> order[i] == order[1..][i - 1];
    }
  }

  lemma EveryFaultIsInOrder(leg: Leg, c: SkipCode)
    requires Fault(leg, c)
    ensures c in ROUTING_ORDER + CHECK_ORDER + ADAPTER_ORDER
  {
    assert CutsTheLeg(c) by { FaultsCut(leg, c); }
    hide Fault;
    assert c in ROUTING_ORDER || c in CHECK_ORDER || c in ADAPTER_ORDER;
  }

  lemma FaultsCut(leg: Leg, c: SkipCode)
    requires Fault(leg, c)
    ensures CutsTheLeg(c)
  {
    hide Connected, OnEvm, OnSolana, ShortOf, CameBackPaid, ReadDisposition, HasBroadcastEvidence, Classify, Names;
  }

  // A leg is paid exactly when it has none of the faults.
  lemma PaidIffFaultless(leg: Leg)
    ensures Verdict(leg).None? <==> forall c :: !Fault(leg, c)
  {
    hide Fault, Verdict;
    var order := ROUTING_ORDER + CHECK_ORDER + ADAPTER_ORDER;
    VerdictIsFirstFault(leg);
    NoFault(leg, order);
    forall c ensures Fault(leg, c) ==> c in order { if Fault(leg, c) { EveryFaultIsInOrder(leg, c); } }
    if c :| Fault(leg, c) {
      var i :| 0 <= i < |order| && order[i] == c;
    }
  }

  lemma {:induction false} FaultFound(leg: Leg, order: seq<SkipCode>)
    ensures FirstFault(leg, order).Some? ==> Fault(leg, FirstFault(leg, order).value)
  {
    hide Fault;
    if order != [] { FaultFound(leg, order[1..]); }
  }

  lemma WhatItMeans(leg: Leg)
    ensures Verdict(leg) == FirstFault(leg, ROUTING_ORDER + CHECK_ORDER + ADAPTER_ORDER)
    ensures Verdict(leg).None? <==> forall c :: !Fault(leg, c)
    ensures Verdict(leg).Some? ==> Fault(leg, Verdict(leg).value)
    ensures Verdict(leg).None? ==> leg.answers.atomic == Some(Amount(leg)) && Connected(leg)
    ensures Connected(leg) ==> BundleOf(leg) == Some(ConnectedBundle(leg))
    ensures !leg.env.flag ==> Verdict(leg) == Some(FlagOff) && CallsOf(leg) == []
  {
    hide RoutingGates, SolanaGates, EvmGates, AdapterGates, Normalize, Connected, OnEvm, OnSolana;
    VerdictIsFirstFault(leg);
    PaidIffFaultless(leg);
    FaultFound(leg, ROUTING_ORDER + CHECK_ORDER + ADAPTER_ORDER);
    ConnectedMeaning(leg);
    if Verdict(leg).None? {
      assert !Fault(leg, InvalidPrice) && !Fault(leg, ChainNotSupported) && !Fault(leg, NoPaymentField);
    }
    if !leg.env.flag { FlagIsFirst(leg); }
  }

  // The remarks: the balance was not looked at, or it was low and the ledger had seen
  // the leg before.
  lemma RemarkMeaning(leg: Leg)
    requires Connected(leg) && leg.answers.atomic.Some?
    ensures RemarkOf(leg) == Some(BalancePrecheckSkipped) <==>
              || (OnEvm(leg) && !leg.env.hasRpc)
              || (OnSolana(leg) && !leg.env.viaFacilitator && leg.answers.balance.None?)
    ensures RemarkOf(leg) == Some(BalanceLowOnIdempotentReplay) <==>
              OnSolana(leg) && ShortOf(leg, !leg.env.viaFacilitator)
    ensures RemarkOf(leg).Some? ==> !CutsTheLeg(RemarkOf(leg).value)
  {
    hide Normalize;
    ConnectedMeaning(leg);
  }

  // What the adapter is asked: nothing unless every gate in front of it is open; then,
  // on Solana, to settle, and else to sign, to verify what was signed, and to settle
  // what was verified.
  lemma CallsMeaning(leg: Leg)
    ensures FirstClosed(Before(leg)).Some? ==> CallsOf(leg) == []
    ensures FirstClosed(Before(leg)).None? ==>
              && Connected(leg)
              && var key, payTo, amount := ConnectedKey(leg), leg.agent.payment.value.contract, Amount(leg);
                 if OnSolana(leg) then CallsOf(leg) == [SettleCall(key, payTo, amount)]
                 else
                   && |CallsOf(leg)| == (if !leg.answers.signs then 1
                                         else if leg.answers.verify == VerifyAnswered(true) then 3 else 2)
                   && CallsOf(leg) <= [SignCall(key, payTo, amount), VerifyCall(key), SettleCall(key, payTo, amount)]
  {
    hide Normalize, RoutingGates, SolanaGates, EvmGates;
    ConnectedMeaning(leg);
    if FirstClosed(Before(leg)).None? {
      FirstClosedOfConcat(RoutingGates(leg), if IsSolanaLeg(leg) then SolanaGates(leg) else EvmGates(leg));
      RoutedLegHasBundle(leg);
    }
  }

  lemma FlagIsFirst(leg: Leg)
    requires !leg.env.flag
    ensures Verdict(leg) == Some(FlagOff) && FirstClosed(Before(leg)) == Some(FlagOff)
  {
    hide Normalize, SolanaGates, EvmGates, AdapterGates;
    var own := if IsSolanaLeg(leg) then SolanaGates(leg) else EvmGates(leg);
    FirstClosedAt(RoutingGates(leg), 0);
    FirstClosedOfConcat(RoutingGates(leg), own);
    FirstClosedOfConcat(Before(leg), AdapterGates(leg));
  }

  // ---- the leg ----

  // The part every leg goes through, up to the choice of chain family.
  method RouteLeg(process: Process, logger: CapturingLogger, leg: Leg) returns (passed: bool)
    modifies process, logger
    ensures process.warnedFlagOff == (old(process.warnedFlagOff) || !leg.env.flag)
    ensures passed <==> FirstClosed(RoutingGates(leg)).None?
    ensures logger.last == if passed then old(logger.last) else FirstClosed(RoutingGates(leg))
  {
    hide Normalize, IsAmbiguous, IsMainnetAllowed, Classify, Drifts;
    ghost var gates := RoutingGates(leg);
    if !leg.env.flag {
      logger.NoteSkip(FlagOff);
      if !process.warnedFlagOff {
        process.warnedFlagOff := true;
        logger.Log(Skip(FlagOff));
      }
      FirstClosedAt(gates, 0);
      return false;
    }
    if leg.agent.payment.None? {
      logger.Log(Skip(NoPaymentField));
      FirstClosedAt(gates, 1);
      return false;
    }
    var payment := leg.agent.payment.value;
    if payment.payMethod != "x402" {
      logger.Log(Skip(MethodNotSupported));
      FirstClosedAt(gates, 2);
      return false;
    }
    var key := Normalize(payment.chain);
    var bundle := if key.Some? then Registries.BundleFor(leg.registry, key) else None;
    if key.None? || bundle.None? {
      logger.Log(Skip(ChainNotSupported));
      FirstClosedAt(gates, 3);
      return false;
    }
    if IsAmbiguous(payment.chain) {
      logger.Log(AmbiguousChainAlias);
    }
    var destination := bundle.value.Destination();
    if Drifts(key.value, destination) {
      logger.Log(Skip(ChainEnvironmentDrift));
      FirstClosedAt(gates, 4);
      return false;
    }
    if Classify(destination) == Mainnet && !IsMainnetAllowed(leg.env.mainnetAllow, key.value) {
      logger.Log(Skip(MainnetNotAllowed));
      FirstClosedAt(gates, 5);
      return false;
    }
    FirstClosedAt(gates, 6);
    passed := true;
  }

  // Steps 5 to 9: what an EVM leg checks before it signs.
  method EvmChecks(logger: CapturingLogger, leg: Leg) returns (passed: bool)
    requires BundleOf(leg).Some? && !IsSolanaLeg(leg)
    modifies logger
    ensures passed <==> FirstClosed(EvmGates(leg)).None?
    ensures logger.last == if !passed then FirstClosed(EvmGates(leg))
                           else if RemarkOf(leg).Some? then RemarkOf(leg) else old(logger.last)
  {
    hide KeyOf, OnChain.IsEvmAddress, IsZeroAddress;
    ghost var gates := EvmGates(leg);
    var a := leg.answers;
    passed := false;
    if !OnChain.IsEvmAddress(PayTo(leg)) {
      logger.Log(Skip(InvalidPayToFormat));
      FirstClosedAt(gates, 0);
      return;
    }
    if IsZeroAddress(PayTo(leg)) {
      logger.Log(Skip(ZeroPayTo));
      FirstClosedAt(gates, 1);
      return;
    }
    if !GoodPrice(leg.agent.price) {
      logger.Log(Skip(InvalidPrice));
      FirstClosedAt(gates, 2);
      return;
    }
    if !a.hasToken {
      logger.Log(Skip(InvalidPrice));
      FirstClosedAt(gates, 3);
      return;
    }
    if a.atomic.None? || a.atomic.value == 0 {
      logger.Log(Skip(InvalidPrice));
      FirstClosedAt(gates, 4);
      return;
    }
    if !leg.env.hasRpc {
      logger.Log(Skip(BalancePrecheckSkipped));
    } else if leg.env.hexKey {
      if a.balance.None? {
        logger.Log(Skip(BalanceReadFailed));
        FirstClosedAt(gates, 5);
        return;
      }
      if a.balance.value < a.atomic.value {
        logger.Log(Skip(InsufficientBalance));
        FirstClosedAt(gates, 6);
        return;
      }
    }
    FirstClosedAt(gates, 7);
    passed := true;
  }

  // Steps 10 to 13: sign, check, settle.
  method SignCheckSettle(logger: CapturingLogger, wire: Wire, leg: Leg) returns (r: Option<Settled>)
    requires BundleOf(leg).Some? && !IsSolanaLeg(leg)
    modifies logger, wire
    ensures wire.calls == old(wire.calls) + AdapterCalls(leg)
    ensures FirstClosed(AdapterGates(leg)).Some? ==> r == None && logger.last == FirstClosed(AdapterGates(leg))
    ensures FirstClosed(AdapterGates(leg)).None? ==>
              Paid(leg.answers.settle) && r == Some(ReceiptOf(leg)) && logger.last == old(logger.last)
  {
    hide Normalize, HasBroadcastEvidence, ReadDisposition;
    ghost var gates := AdapterGates(leg);
    var key, s := KeyOf(leg).value, leg.answers.settle;
    r := None;
    wire.Send(SignCall(key, PayTo(leg), Amount(leg)));
    if !leg.answers.signs {
      logger.Log(Skip(SigningFailed));
      FirstClosedAt(gates, 0);
      return;
    }
    wire.Send(VerifyCall(key));
    if leg.answers.verify.VerifyThrew? || !leg.answers.verify.valid {
      logger.Log(Skip(VerifyFailed));
      FirstClosedAt(gates, 1);
      return;
    }
    wire.Send(SettleCall(key, PayTo(leg), Amount(leg)));
    if s.Threw? {
      var code := if ReadDisposition(s.err) == Some(Unknown) then SettleUnknown else SettleFailed;
      logger.Log(Skip(code));
      FirstClosedAt(gates, if code == SettleUnknown then 2 else 3);
      return;
    }
    if !s.success || s.txHash.None? || s.txHash.value == "" {
      var code := if HasBroadcastEvidence(s.txHash) then SettleUnknown else SettleFailed;
      logger.Log(Skip(code));
      FirstClosedAt(gates, if code == SettleUnknown then 2 else 3);
      return;
    }
    FirstClosedAt(gates, 4);
    r := Some(Settled(s.txHash.value, Amount(leg), None));
  }

  // settleSolanaLeg up to the settlement.
  method SolanaChecks(logger: CapturingLogger, leg: Leg) returns (passed: bool)
    requires IsSolanaLeg(leg)
    modifies logger
    ensures passed <==> FirstClosed(SolanaGates(leg)).None?
    ensures logger.last == if !passed then FirstClosed(SolanaGates(leg))
                           else if RemarkOf(leg).Some? then RemarkOf(leg) else old(logger.last)
  {
    hide KeyOf, IsSolanaAddress;
    ghost var gates := SolanaGates(leg);
    var a := leg.answers;
    passed := false;
    if !IsSolanaAddress(PayTo(leg)) {
      logger.Log(Skip(InvalidPayToFormat));
      FirstClosedAt(gates, 0);
      return;
    }
    if !GoodPrice(leg.agent.price) {
      logger.Log(Skip(InvalidPrice));
      FirstClosedAt(gates, 1);
      return;
    }
    if !a.hasToken {
      logger.Log(Skip(InvalidPrice));
      FirstClosedAt(gates, 2);
      return;
    }
    if a.atomic.None? || a.atomic.value == 0 {
      logger.Log(Skip(InvalidPrice));
      FirstClosedAt(gates, 3);
      return;
    }
    if leg.intentId.None? || leg.intentId.value == "" {
      logger.Log(Skip(MissingIntentId));
      FirstClosedAt(gates, 4);
      return;
    }
    if a.ledger == LedgerUnknown {
      logger.Log(Skip(SettleLedgerUnavailable));
      FirstClosedAt(gates, 5);
      return;
    }
    var replay := a.ledger == LedgerSettled || a.ledger == LedgerInProgress;
    var balance: Option<nat> := None;
    if !leg.env.viaFacilitator {
      balance := a.balance;
      if balance.None? {
        logger.Log(Skip(BalancePrecheckSkipped));
      }
    }
    var insufficient := balance.Some? && balance.value < a.atomic.value;
    if insufficient && replay {
      logger.Log(Skip(BalanceLowOnIdempotentReplay));
    } else if insufficient {
      logger.Log(Skip(InsufficientBalance));
      FirstClosedAt(gates, 6);
      return;
    }
    FirstClosedAt(gates, 7);
    passed := true;
  }

  method SettleSolana(logger: CapturingLogger, wire: Wire, leg: Leg) returns (r: Option<Settled>)
    requires IsSolanaLeg(leg)
    modifies logger, wire
    ensures wire.calls == old(wire.calls) + AdapterCalls(leg)
    ensures FirstClosed(AdapterGates(leg)).Some? ==> r == None && logger.last == FirstClosed(AdapterGates(leg))
    ensures FirstClosed(AdapterGates(leg)).None? ==>
              Paid(leg.answers.settle) && r == Some(ReceiptOf(leg)) && logger.last == old(logger.last)
  {
    hide Normalize, HasBroadcastEvidence, ReadDisposition;
    ghost var gates := AdapterGates(leg);
    var s := leg.answers.settle;
    r := None;
    wire.Send(SettleCall(KeyOf(leg).value, PayTo(leg), Amount(leg)));
    if s.Threw? {
      var code := if s.payoutCode == Some("PAYOUT_FUNDING_LOW") then InsufficientBalance
                  else if ReadDisposition(s.err) == Some(Unknown) then SettleUnknown
                  else SettleFailed;
      logger.Log(Skip(code));
      FirstClosedAt(gates, if code == InsufficientBalance then 0 else if code == SettleUnknown then 1 else 2);
      return;
    }
    if !s.success || s.txHash.None? || s.txHash.value == "" {
      logger.Log(Skip(SettleFailed));
      FirstClosedAt(gates, 2);
      return;
    }
    FirstClosedAt(gates, 3);
    r := Some(Settled(s.txHash.value, Amount(leg), Some(BundleOf(leg).value.payment.caip2)));
  }

  // A leg is paid exactly when every gate is open; otherwise the logger keeps the
  // code of the first closed one. The adapter is asked only what CallsOf says.
  method SignAndSettleDownstream(process: Process, logger: CapturingLogger, wire: Wire, leg: Leg)
    returns (r: Option<Settled>)
    modifies process, logger, wire
    ensures process.warnedFlagOff == (old(process.warnedFlagOff) || !leg.env.flag)
    ensures wire.calls == old(wire.calls) + CallsOf(leg)
    ensures Verdict(leg).Some? ==> r == None && logger.last == Verdict(leg)
    ensures Verdict(leg).None? ==> BundleOf(leg).Some? && Paid(leg.answers.settle) && r == Some(ReceiptOf(leg))
                                   && logger.last == if RemarkOf(leg).Some? then RemarkOf(leg) else old(logger.last)
    ensures r.Some? <==> forall c :: !Fault(leg, c)
    ensures r.None? ==> logger.last == FirstFault(leg, ROUTING_ORDER + CHECK_ORDER + ADAPTER_ORDER)
    ensures r.None? ==> logger.last.Some? && Fault(leg, logger.last.value)
    ensures r.Some? ==>
              && leg.answers.settle.txHash == Some(r.value.txHash) && leg.answers.atomic == Some(r.value.amount)
              && r.value.caip2 == if OnSolana(leg) then Some(ConnectedBundle(leg).payment.caip2) else None
    ensures !leg.env.flag ==> r == None && wire.calls == old(wire.calls) && logger.last == Some(FlagOff)
  {
    hide RoutingGates, SolanaGates, EvmGates, AdapterGates, Normalize, Fault;
    WhatItMeans(leg);
    FirstClosedOfConcat(RoutingGates(leg), if IsSolanaLeg(leg) then SolanaGates(leg) else EvmGates(leg));
    FirstClosedOfConcat(Before(leg), AdapterGates(leg));
    var routed := RouteLeg(process, logger, leg);
    if !routed {
      return None;
    }
    RoutedLegHasBundle(leg);
    if IsSolanaLeg(leg) {
      var passed := SolanaChecks(logger, leg);
      if !passed {
        return None;
      }
      r := SettleSolana(logger, wire, leg);
    } else {
      var passed := EvmChecks(logger, leg);
      if !passed {
        return None;
      }
      r := SignCheckSettle(logger, wire, leg);
    }
  }

  // ---- what that means ----

  lemma {:induction false} AllOpen(gates: seq<Gate>, i: nat)
    requires FirstClosed(gates).None? && i < |gates|
    ensures gates[i].open
  {
    if i == 0 {
    } else {
      AllOpen(gates[1..], i - 1);
    }
  }

  lemma RoutedLegHasBundle(leg: Leg)
    requires FirstClosed(RoutingGates(leg)).None?
    ensures BundleOf(leg).Some? && !Drifts(KeyOf(leg).value, DestinationOf(leg))
    ensures Classify(DestinationOf(leg)) == Testnet || IsMainnetAllowed(leg.env.mainnetAllow, KeyOf(leg).value)
  {
    AllOpen(RoutingGates(leg), 3);
    AllOpen(RoutingGates(leg), 4);
    AllOpen(RoutingGates(leg), 5);
  }
}
