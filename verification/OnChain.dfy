// src/adapters/settle-verifier.ts and src/adapters/deposit-verifier.ts: reading a
// receipt's Transfer logs, and the verdicts built on it.
module OnChain {
  import opened Wrappers
  import opened Text
  import opened Chains
  import opened SettleErrors
  import Registries

  // ---- logs ----

  datatype Transfer = Transfer(from: string, to: string, value: nat)

  // A log of a contract; None where it does not decode as a Transfer.
  datatype LogEntry = LogEntry(address: string, transfer: Option<Transfer>)

  predicate IsTransferOf(log: LogEntry, token: string) { Lower(log.address) == Lower(token) && log.transfer.Some? }

  predicate Pays(log: LogEntry, token: string, payTo: string) {
    IsTransferOf(log, token) && Lower(log.transfer.value.to) == Lower(payTo)
  }

  predicate SomeTransferOf(logs: seq<LogEntry>, token: string) {
    exists i :: 0 <= i < |logs| && IsTransferOf(logs[i], token)
  }

  predicate SomePayment(logs: seq<LogEntry>, token: string, payTo: string) {
    exists i :: 0 <= i < |logs| && Pays(logs[i], token, payTo)
  }

  // The total the logs move to payTo.
  function Total(logs: seq<LogEntry>, token: string, payTo: string): nat {
    if logs == [] then 0
    else
      var last := logs[|logs| - 1];
      Total(logs[..|logs| - 1], token, payTo) + if Pays(last, token, payTo) then last.transfer.value.value else 0
  }

  // ---- the settle verifier's reading: every matching transfer counts ----

  method SumTransfers(logs: seq<LogEntry>, token: string, payTo: string) returns (seen: bool, amount: Option<nat>)
    ensures seen <==> SomeTransferOf(logs, token)
    ensures amount == if SomePayment(logs, token, payTo) then Some(Total(logs, token, payTo)) else None
  {
    hide SomeTransferOf, SomePayment, Total, Lower;
    seen, amount := false, None;
    NoLogs(token, payTo);
    assert logs[..0] == [];
    for i := 0 to |logs|
      invariant seen <==> SomeTransferOf(logs[..i], token)
      invariant amount == if SomePayment(logs[..i], token, payTo) then Some(Total(logs[..i], token, payTo)) else None
      invariant amount.None? ==> Total(logs[..i], token, payTo) == 0
    {
      var log := logs[i];
      OneMore(logs[..i], log, token, payTo);
      assert logs[..i + 1] == logs[..i] + [log];
      if Lower(log.address) == Lower(token) && log.transfer.Some? {
        seen := true;
        if Lower(log.transfer.value.to) == Lower(payTo) {
          amount := Some((if amount.Some? then amount.value else 0) + log.transfer.value.value);
        }
      }
    }
    assert logs[..|logs|] == logs;
  }

  // One log pays exactly what it transfers, when contract and recipient are the ones
  // asked for in any spelling of their letters; else it pays nothing.
  lemma OneTransfer(log: LogEntry, token: string, payTo: string)
    ensures Total([log], token, payTo) ==
            if log.transfer.Some? && Lower(log.address) == Lower(token) && Lower(log.transfer.value.to) == Lower(payTo)
            then log.transfer.value.value else 0
    ensures SomeTransferOf([log], token) <==> log.transfer.Some? && Lower(log.address) == Lower(token)
    ensures SomePayment([log], token, payTo) <==>
              SomeTransferOf([log], token) && Lower(log.transfer.value.to) == Lower(payTo)
  {
    hide Lower;
    NoLogs(token, payTo);
    OneMore([], log, token, payTo);
    assert [] + [log] == [log];
  }

  lemma NoLogs(token: string, payTo: string)
    ensures !SomeTransferOf([], token) && !SomePayment([], token, payTo) && Total([], token, payTo) == 0
  {
  }

  lemma OneMore(logs: seq<LogEntry>, log: LogEntry, token: string, payTo: string)
    ensures SomeTransferOf(logs + [log], token) <==> SomeTransferOf(logs, token) || IsTransferOf(log, token)
    ensures SomePayment(logs + [log], token, payTo) <==> SomePayment(logs, token, payTo) || Pays(log, token, payTo)
    ensures Total(logs + [log], token, payTo) ==
            Total(logs, token, payTo) + if Pays(log, token, payTo) then log.transfer.value.value else 0
  {
    var more := logs + [log];
    assert more[..|logs|] == logs;
    assert more[|logs|] == log && forall i :: 0 <= i < |logs| ==> more[i] == logs[i];
  }

  datatype Reason =
    | Disabled | RpcUnavailable | RpcUnavailableMainnetFailClosed
    | TxNotFound | TxReverted | ChainMismatch | RecipientMismatch | TokenMismatch | AmountMismatch

  datatype Verification = Verification(ok: bool, reason: Option<Reason>, warn: bool)

  function Refused(why: Reason): Verification { Verification(false, Some(why), false) }

  // "Could not check on chain": let through by a slug that says test money only.
  function RpcUnavailableResult(k: ChainKey): Verification {
    if IsMainnetKey(k) then Verification(false, Some(RpcUnavailableMainnetFailClosed), true)
    else Verification(true, Some(RpcUnavailable), true)
  }

  predicate IsHex(c: char) { '0' <= c <= '9' || 'a' <= c <= 'f' || 'A' <= c <= 'F' }

  // ^0x[0-9a-fA-F]{40}$
  predicate IsEvmAddress(s: string) {
    |s| == 42 && s[0] == '0' && s[1] == 'x' && forall i :: 2 <= i < 42 ==> IsHex(s[i])
  }

  lemma AddressShape(s: string)
    ensures IsEvmAddress(s) <==>
              |s| == 42 && s[..2] == "0x" && forall i :: 2 <= i < 42 ==> s[i] in HEX_DIGITS
  {
    forall i | 0 <= i < |s| ensures IsHex(s[i]) <==> s[i] in HEX_DIGITS {}
    if |s| == 42 && s[..2] == "0x" { assert s[..2][0] == '0' && s[..2][1] == 'x'; }
  }

  const HEX_DIGITS: set<char> :=
    {'0', '1', '2', '3', '4', '5', '6', '7', '8', '9',
     'a', 'b', 'c', 'd', 'e', 'f', 'A', 'B', 'C', 'D', 'E', 'F'}

  datatype Receipt = Receipt(success: bool, blockNumber: int, logs: seq<LogEntry>)

  // What the node answers. Err carries what the client threw.
  datatype Node = Node(first: Result<Receipt, Thrown>, retry: Result<Receipt, Thrown>,
                       chainId: Option<int>, block: Option<int>)

  datatype SettleArgs = SettleArgs(key: ChainKey, chainId: int, payTo: string, token: string, required: nat)

  predicate SaysNotFound(err: Thrown) {
    exists i :: 0 <= i < |Links(err, CAUSE_DEPTH)| && SaysNoReceipt(Links(err, CAUSE_DEPTH)[i])
  }

  // `node` is None when no RPC is configured for the chain. The second attempt at a
  // receipt counts only when the first threw. Each verdict is given exactly when the
  // chain shows what it says.
  method VerifySettledTx(enabled: bool, a: SettleArgs, node: Option<Node>) returns (v: Verification)
    ensures v.ok <==> v.reason in {None, Some(Disabled), Some(RpcUnavailable)}
    ensures v.warn <==> v.reason in {Some(RpcUnavailable), Some(RpcUnavailableMainnetFailClosed)}
    ensures !enabled ==> v == Verification(true, Some(Disabled), false)
    ensures enabled && !(IsEvmAddress(a.payTo) && IsEvmAddress(a.token)) ==> v == Refused(RecipientMismatch)
    ensures enabled && IsEvmAddress(a.payTo) && IsEvmAddress(a.token) ==>
              && (node.None? ==> v == RpcUnavailableResult(a.key))
              && (node.Some? && node.value.first.Err? && node.value.retry.Err? ==>
                    v == if SaysNotFound(node.value.retry.error) then Refused(TxNotFound)
                         else RpcUnavailableResult(a.key))
    ensures enabled && IsEvmAddress(a.payTo) && IsEvmAddress(a.token)
            && node.Some? && (node.value.first.Ok? || node.value.retry.Ok?) ==>
              var receipt := if node.value.first.Ok? then node.value.first.value else node.value.retry.value;
              var chain, logs := node.value.chainId, receipt.logs;
              && (v == Refused(TxReverted) <==> !receipt.success)
              && (v == RpcUnavailableResult(a.key) <==> receipt.success && chain.None?)
              && (v == Refused(ChainMismatch) <==> receipt.success && chain.Some? && chain.value != a.chainId)
              && (receipt.success && chain == Some(a.chainId) ==>
                    && (v == Refused(TokenMismatch) <==> !SomeTransferOf(logs, a.token))
                    && (v == Refused(RecipientMismatch) <==>
                          SomeTransferOf(logs, a.token) && !SomePayment(logs, a.token, a.payTo))
                    && (v == Refused(AmountMismatch) <==>
                          SomePayment(logs, a.token, a.payTo) && Total(logs, a.token, a.payTo) < a.required)
                    && (v == Verification(true, None, false) <==>
                          SomePayment(logs, a.token, a.payTo) && Total(logs, a.token, a.payTo) >= a.required))
  {
    if !enabled {
      return Verification(true, Some(Disabled), false);
    }
    if !IsEvmAddress(a.payTo) || !IsEvmAddress(a.token) {
      return Refused(RecipientMismatch);
    }
    if node.None? {
      return RpcUnavailableResult(a.key);
    }
    var receipt := node.value.first;
    if receipt.Err? {
      receipt := node.value.retry;
      if receipt.Err? {
        var noReceipt := NodeSaysNoReceipt(receipt.error);
        if noReceipt {
          return Refused(TxNotFound);
        }
        return RpcUnavailableResult(a.key);
      }
    }
    if !receipt.value.success {
      return Refused(TxReverted);
    }
    if node.value.chainId.None? {
      return RpcUnavailableResult(a.key);
    }
    if node.value.chainId.value != a.chainId {
      return Refused(ChainMismatch);
    }
    var seen, amount := SumTransfers(receipt.value.logs, a.token, a.payTo);
    if !seen {
      return Refused(TokenMismatch);
    }
    if amount.None? {
      return Refused(RecipientMismatch);
    }
    if amount.value < a.required {
      return Refused(AmountMismatch);
    }
    v := Verification(true, None, false);
  }

  // In every reachable registry the gate on unchecked settlements, which looks at
  // the slug only, lets one through exactly when the real destination is test money.
  lemma UncheckedOnlyOnTestnet(trace: seq<Registries.State>, events: seq<Registries.Event>, n: nat, k: ChainKey)
    requires Registries.IsRun(trace, events) && n < |trace| && k in trace[n].bundles
    ensures RpcUnavailableResult(k).ok <==> Classify(trace[n].bundles[k].Destination()) == Testnet
    ensures RpcUnavailableResult(k).warn && RpcUnavailableResult(k).reason ==
            Some(if RpcUnavailableResult(k).ok then RpcUnavailable else RpcUnavailableMainnetFailClosed)
  {
    Registries.SlugsTellTheTruth(trace, events, n, k);
  }

  // ---- the deposit verifier's reading: the first matching transfer counts ----

  function FirstPayment(logs: seq<LogEntry>, token: string, payTo: string): Option<Transfer> {
    if logs == [] then None
    else if Pays(logs[0], token, payTo) then logs[0].transfer
    else FirstPayment(logs[1..], token, payTo)
  }

  // It is the first of them.
  lemma {:induction false} FirstPaymentMeaning(logs: seq<LogEntry>, token: string, payTo: string, i: nat)
    requires i < |logs| && Pays(logs[i], token, payTo) && forall j :: 0 <= j < i ==> !Pays(logs[j], token, payTo)
    ensures FirstPayment(logs, token, payTo) == logs[i].transfer
  {
    hide Pays;
    if i > 0 { FirstPaymentMeaning(logs[1..], token, payTo, i - 1); }
  }

  method FindDeposit(logs: seq<LogEntry>, token: string, treasury: string) returns (seen: bool, found: Option<Transfer>)
    ensures found == FirstPayment(logs, token, treasury)
    ensures found.None? ==> (seen <==> SomeTransferOf(logs, token))
    ensures found.Some? ==> seen
  {
    seen, found := false, None;
    for i := 0 to |logs|
      invariant found.None? && FirstPayment(logs[i..], token, treasury) == FirstPayment(logs, token, treasury)
      invariant seen <==> exists j :: 0 <= j < i && IsTransferOf(logs[j], token)
    {
      assert logs[i..][0] == logs[i] && logs[i..][1..] == logs[i + 1..];
      if Lower(logs[i].address) == Lower(token) && logs[i].transfer.Some? {
        seen := true;
        if Lower(logs[i].transfer.value.to) == Lower(treasury) {
          return seen, logs[i].transfer;
        }
      }
    }
  }

  datatype DepositReason =
    | NotFound | Reverted | InsufficientConfirmations | WrongRecipient | WrongToken | WrongAmount | WrongChain | NoRpc

  datatype DepositArgs = DepositArgs(
    chainId: int, minConfirmations: int, token: Option<string>, treasury: Option<string>,
    declared: Option<Option<nat>>) // the declared amount, if any; Some(None) when it does not parse

  predicate DepositShown(a: DepositArgs, node: Node, t: Transfer) {
    && node.first.Ok? && node.first.value.success && node.chainId == Some(a.chainId)
    && node.block.Some? && node.block.value - node.first.value.blockNumber + 1 >= a.minConfirmations
    && a.token.Some? && a.treasury.Some?
    && FirstPayment(node.first.value.logs, a.token.value, a.treasury.value) == Some(t)
    && (a.declared.Some? ==> a.declared.value == Some(t.value))
  }

  // A deposit is credited, with this amount and depositor, exactly when the chain shows
  // it, and each refusal is given exactly when the chain shows what it says.
  method VerifyDeposit(a: DepositArgs, node: Option<Node>) returns (r: Result<Transfer, DepositReason>)
    ensures r.Ok? ==> node.Some? && DepositShown(a, node.value, r.value)
    ensures r.Err? ==> node.None? || forall t :: !DepositShown(a, node.value, t)
    ensures node.None? ==> r == Err(NoRpc)
    ensures node.Some? && node.value.first.Err? ==> r == Err(NotFound)
    ensures node.Some? && node.value.first.Ok? ==>
              var receipt, chain, block := node.value.first.value, node.value.chainId, node.value.block;
              var here := receipt.success && chain == Some(a.chainId);
              && (r == Err(Reverted) <==> !receipt.success)
              && (r == Err(NoRpc) <==> receipt.success && (chain.None? || (chain.value == a.chainId && block.None?)))
              && (r == Err(WrongChain) <==> receipt.success && chain.Some? && chain.value != a.chainId)
              && (r == Err(InsufficientConfirmations) <==>
                    here && block.Some? && block.value - receipt.blockNumber + 1 < a.minConfirmations)
              && (here && block.Some? && block.value - receipt.blockNumber + 1 >= a.minConfirmations ==>
                    if a.token.None? then r == Err(WrongToken)
                    else if a.treasury.None? then r == Err(WrongRecipient)
                    else
                      var token, treasury := a.token.value, a.treasury.value;
                      && (r == Err(WrongToken) <==> !SomeTransferOf(receipt.logs, token))
                      && (r == Err(WrongRecipient) <==>
                            SomeTransferOf(receipt.logs, token) && !SomePayment(receipt.logs, token, treasury))
                      && (SomePayment(receipt.logs, token, treasury) ==>
                            && FirstPayment(receipt.logs, token, treasury).Some?
                            && var t := FirstPayment(receipt.logs, token, treasury).value;
                               r == if a.declared.None? || a.declared.value == Some(t.value) then Ok(t)
                                    else Err(WrongAmount)))
  {
    if node.Some? && node.value.first.Ok? && a.token.Some? && a.treasury.Some? {
      FirstIsPartOfTotal(node.value.first.value.logs, a.token.value, a.treasury.value);
    }
    if node.None? {
      return Err(NoRpc);
    }
    var n := node.value;
    if n.first.Err? {
      return Err(NotFound);
    }
    if !n.first.value.success {
      return Err(Reverted);
    }
    if n.chainId.None? {
      return Err(NoRpc);
    }
    if n.chainId.value != a.chainId {
      return Err(WrongChain);
    }
    if n.block.None? {
      return Err(NoRpc);
    }
    var confirmations := n.block.value - n.first.value.blockNumber + 1;
    if confirmations < a.minConfirmations {
      return Err(InsufficientConfirmations);
    }
    if a.token.None? {
      return Err(WrongToken);
    }
    if a.treasury.None? {
      return Err(WrongRecipient);
    }
    var seen, found := FindDeposit(n.first.value.logs, a.token.value, a.treasury.value);
    if !seen {
      return Err(WrongToken);
    }
    if found.None? {
      return Err(WrongRecipient);
    }
    if a.declared.Some? && a.declared.value != Some(found.value.value) {
      return Err(WrongAmount);
    }
    r := Ok(found.value);
  }

  // ---- the two readings agree ----

  lemma {:induction false} TotalOfFirst(logs: seq<LogEntry>, token: string, payTo: string)
    requires logs != []
    ensures Total(logs, token, payTo) ==
            (if Pays(logs[0], token, payTo) then logs[0].transfer.value.value else 0) + Total(logs[1..], token, payTo)
  {
    if |logs| > 1 {
      var front := logs[..|logs| - 1];
      TotalOfFirst(front, token, payTo);
      assert front[1..] == logs[1..][..|logs| - 2];
      assert logs[1..][|logs| - 2] == logs[|logs| - 1];
    }
  }

  // What the deposit verifier credits is part of what the settle verifier sums.
  lemma {:induction false} FirstIsPartOfTotal(logs: seq<LogEntry>, token: string, payTo: string)
    ensures FirstPayment(logs, token, payTo).Some? <==> SomePayment(logs, token, payTo)
    ensures FirstPayment(logs, token, payTo).Some? ==>
              FirstPayment(logs, token, payTo).value.value <= Total(logs, token, payTo)
  {
    if logs == [] {
    } else {
      TotalOfFirst(logs, token, payTo);
      FirstIsPartOfTotal(logs[1..], token, payTo);
      assert forall i :: 0 < i < |logs| ==> logs[i] == logs[1..][i - 1];
      assert SomePayment(logs[1..], token, payTo) ==> SomePayment(logs, token, payTo);
    }
  }

  // A credited deposit passes the settle verifier's log check, for every requirement
  // up to the amount credited.
  lemma CreditedDepositSettles(d: DepositArgs, node: Node, t: Transfer, required: nat)
    requires DepositShown(d, node, t) && required <= t.value
    ensures node.first.Ok? && node.first.value.success && node.chainId == Some(d.chainId)
    ensures SomePayment(node.first.value.logs, d.token.value, d.treasury.value)
    ensures Total(node.first.value.logs, d.token.value, d.treasury.value) >= required
  {
    FirstIsPartOfTotal(node.first.value.logs, d.token.value, d.treasury.value);
  }

  // The settle verifier accepts a deposit the deposit verifier credited, between
  // well-formed addresses and for every requirement up to the amount.
  method DepositThenSettle(d: DepositArgs, node: Option<Node>, key: ChainKey, required: nat)
    returns (deposit: Result<Transfer, DepositReason>, settle: Option<Verification>)
    ensures deposit.Ok? ==> node.Some? && DepositShown(d, node.value, deposit.value) && settle.Some?
    ensures deposit.Ok? && required <= deposit.value.value
            && IsEvmAddress(d.treasury.value) && IsEvmAddress(d.token.value) ==>
              settle == Some(Verification(true, None, false))
  {
    deposit := VerifyDeposit(d, node);
    settle := None;
    if deposit.Ok? {
      var v := VerifySettledTx(true, SettleArgs(key, d.chainId, d.treasury.value, d.token.value, required), node);
      settle := Some(v);
      if required <= deposit.value.value { CreditedDepositSettles(d, node.value, deposit.value, required); }
    }
  }
}
