// src/lib/downstream-skip-code.ts: why a downstream leg was not paid, what the
// caller is told of it, and what the operator has to do.
module SkipCodes {
  import opened Wrappers

  datatype SkipCode =
    | FlagOff | NoPaymentField | MethodNotSupported | ChainNotSupported
    | ChainEnvironmentDrift | MainnetNotAllowed
    | InvalidPayToFormat | ZeroPayTo | InvalidPrice
    | InsufficientBalance | BalanceReadFailed
    | SigningFailed | VerifyFailed | SettleFailed | SettleUnknown
    | BalancePrecheckSkipped | BalanceLowOnIdempotentReplay
    | MissingIntentId | SettleLedgerUnavailable

  // The codes that only observe: the leg goes on after them.
  predicate CutsTheLeg(c: SkipCode) { c != BalancePrecheckSkipped && c != BalanceLowOnIdempotentReplay }

  datatype PublicCode =
    | PublicNoPaymentField | PublicMethodNotSupported | PublicChainNotSupported
    | PublicInvalidPayToFormat | PublicZeroPayTo | PublicInvalidPrice
    | PublicSettleFailed | PublicSettleUnknown
    | NotConfigured | Unavailable

  function ToPublic(c: SkipCode): PublicCode {
    match c
    case NoPaymentField => PublicNoPaymentField
    case MethodNotSupported => PublicMethodNotSupported
    case ChainNotSupported => PublicChainNotSupported
    case InvalidPayToFormat => PublicInvalidPayToFormat
    case ZeroPayTo => PublicZeroPayTo
    case InvalidPrice => PublicInvalidPrice
    case SettleFailed => PublicSettleFailed
    case SettleUnknown => PublicSettleUnknown
    case FlagOff => NotConfigured
    case ChainEnvironmentDrift => NotConfigured
    case MainnetNotAllowed => NotConfigured
    case InsufficientBalance => Unavailable
    case BalanceReadFailed => Unavailable
    case BalancePrecheckSkipped => Unavailable
    case BalanceLowOnIdempotentReplay => Unavailable
    case MissingIntentId => NotConfigured
    case SettleLedgerUnavailable => Unavailable
    case SigningFailed => Unavailable
    case VerifyFailed => PublicSettleFailed
  }

  datatype Action =
    | NoneSettleDisabled | FixConfig | DecideMainnetOptIn | FixCode | ConnectChain | PublisherFixListing
    | FundWallet | BalanceUnknown | FixKey | InvestigatePaymentRejected | ReconcileOnChain

  function ToAction(c: SkipCode): Action {
    match c
    case FlagOff => NoneSettleDisabled
    case ChainEnvironmentDrift => FixConfig
    case MainnetNotAllowed => DecideMainnetOptIn
    case MissingIntentId => FixCode
    case NoPaymentField => PublisherFixListing
    case MethodNotSupported => PublisherFixListing
    case InvalidPayToFormat => PublisherFixListing
    case ZeroPayTo => PublisherFixListing
    case InvalidPrice => PublisherFixListing
    case ChainNotSupported => ConnectChain
    case InsufficientBalance => FundWallet
    case BalanceLowOnIdempotentReplay => FundWallet
    case BalanceReadFailed => BalanceUnknown
    case BalancePrecheckSkipped => BalanceUnknown
    case SigningFailed => FixKey
    case VerifyFailed => InvestigatePaymentRejected
    case SettleFailed => InvestigatePaymentRejected
    case SettleUnknown => ReconcileOnChain
    case SettleLedgerUnavailable => ReconcileOnChain
  }

  // What the caller is told and what the operator has to do agree on the money: the
  // caller hears "not paid" exactly where a payment was tried and refused, and hears
  // it of nothing the operator must first look up on chain.
  lemma CallerAndOperatorAgree(c: SkipCode)
    ensures ToPublic(c) == PublicSettleFailed <==> ToAction(c) == InvestigatePaymentRejected
    ensures ToAction(c) == ReconcileOnChain ==> ToPublic(c) in {PublicSettleUnknown, Unavailable}
    ensures ToAction(c) == PublisherFixListing ==> ToPublic(c) != NotConfigured && ToPublic(c) != Unavailable
  {
  }

  // The causes the caller sees as one "not configured" send the operator four
  // different ways.
  lemma NotConfiguredIsFourActions(c: SkipCode, d: SkipCode)
    requires ToPublic(c) == NotConfigured && ToPublic(d) == NotConfigured
    ensures ToAction(c) == ToAction(d) <==> c == d
  {
  }

  // A `code` field of a log line: a skip code, or a notice about something else.
  datatype LogCode = Skip(code: SkipCode) | AmbiguousChainAlias

  // createSkipCapturingLogger: keeps the last skip code that was logged or noted.
  class CapturingLogger {
    var last: Option<SkipCode>

    constructor ()
      ensures last == None
    {
      last := None;
    }

    method Log(code: LogCode)
      modifies this
      ensures last == if code.Skip? then Some(code.code) else old(last)
    {
      if code.Skip? {
        last := Some(code.code);
      }
    }

    method NoteSkip(code: SkipCode)
      modifies this
      ensures last == Some(code)
    {
      last := Some(code);
    }
  }
}
