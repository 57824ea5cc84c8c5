// src/adapters/errors.ts: what a failure says about where the money is.
module SettleErrors {
  import opened Wrappers
  import opened Text

  datatype Disposition = NotSent | Unknown

  // A thrown value: nothing, a value that is not an object, or an object, an Error or
  // not, with the fields the readers look at. `disposition` is None where the field holds
  // anything but one of its two values.
  datatype Thrown =
    | Nothing
    | NotAnObject
    | Object(isError: bool, ofSettleClass: bool, name: Option<string>, code: Option<string>,
             disposition: Option<Disposition>, cause: Thrown)

  const CAUSE_DEPTH := 8

  predicate IsNotSentCode(code: Option<string>) {
    code.Some? && code.value in {"ENOTFOUND", "EAI_AGAIN", "ECONNREFUSED", "ERR_INVALID_URL"}
  }

  // The first n objects of a chain of causes.
  function Links(t: Thrown, n: nat): (links: seq<Thrown>)
    ensures |links| <= n && forall i :: 0 <= i < |links| ==> links[i].Object?
  {
    if n == 0 || !t.Object? then [] else [t] + Links(t.cause, n - 1)
  }

  // A cause, at most eight deep, whose code shows that no exchange was ever established.
  predicate ProvesNotSent(err: Thrown) {
    exists i :: 0 <= i < |Links(err, CAUSE_DEPTH)| && IsNotSentCode(Links(err, CAUSE_DEPTH)[i].code)
  }

  // `not-sent` needs that proof.
  method ClassifySettleTransportError(err: Thrown) returns (d: Disposition)
    ensures d == NotSent <==> ProvesNotSent(err)
  {
    hide IsNotSentCode;
    var cursor, depth := err, 0;
    ghost var seen: seq<Thrown> := [];
    while depth < CAUSE_DEPTH && cursor.Object?
      invariant 0 <= depth <= CAUSE_DEPTH
      invariant seen + Links(cursor, CAUSE_DEPTH - depth) == Links(err, CAUSE_DEPTH)
      invariant forall i :: 0 <= i < |seen| ==> seen[i].Object? && !IsNotSentCode(seen[i].code)
    {
      if IsNotSentCode(cursor.code) {
        assert Links(err, CAUSE_DEPTH)[|seen|] == cursor;
        return NotSent;
      }
      seen := seen + [cursor];
      cursor := cursor.cause;
      depth := depth + 1;
    }
    d := Unknown;
  }

  // A failure wrapped in `wraps` objects without a code of their own.
  function Wrapped(err: Thrown, wraps: nat): Thrown {
    if wraps == 0 then err else Object(true, false, None, None, None, Wrapped(err, wraps - 1))
  }

  // The proof is found behind up to seven wrappers and no more, and there are four codes
  // that are one.
  lemma {:induction false} ProofIsFoundWithinReach(wraps: nat, code: string)
    ensures ProvesNotSent(Wrapped(Object(true, false, None, Some(code), None, Nothing), wraps)) <==>
              wraps < 8 && (code == "ENOTFOUND" || code == "EAI_AGAIN" || code == "ECONNREFUSED"
                            || code == "ERR_INVALID_URL")
  {
    hide Wrapped, Links;
    var leaf := Object(true, false, None, Some(code), None, Nothing);
    LinksOfWrapped(leaf, wraps, CAUSE_DEPTH);
    var links := Links(Wrapped(leaf, wraps), CAUSE_DEPTH);
    if wraps < 8 { assert links[wraps] == leaf; }
  }

  lemma {:induction false} LinksOfWrapped(leaf: Thrown, wraps: nat, n: nat)
    requires leaf.Object? && leaf.cause == Nothing
    ensures var links := Links(Wrapped(leaf, wraps), n);
            && |links| == (if wraps < n then wraps + 1 else n)
            && (forall i :: 0 <= i < |links| && i != wraps ==> links[i].code == None && links[i].name == None)
            && (wraps < n ==> links[wraps] == leaf)
    decreases wraps
  {
    if wraps > 0 && n > 0 {
      LinksOfWrapped(leaf, wraps - 1, n - 1);
    } else if n > 0 {
      assert Links(Nothing, n - 1) == [];
    }
  }

  predicate IsNoReceiptName(name: string) {
    name in {"TransactionReceiptNotFoundError", "TransactionNotFoundError"}
  }

  // Only the name of an Error is looked at.
  predicate SaysNoReceipt(t: Thrown) { t.Object? && t.isError && t.name.Some? && IsNoReceiptName(t.name.value) }

  // src/adapters/settle-verifier.ts: classifyReceiptError. True when the node
  // answered that it has no such transaction.
  method NodeSaysNoReceipt(err: Thrown) returns (noReceipt: bool)
    ensures noReceipt <==>
            exists i :: 0 <= i < |Links(err, CAUSE_DEPTH)| && SaysNoReceipt(Links(err, CAUSE_DEPTH)[i])
  {
    hide IsNoReceiptName;
    var cursor, depth := err, 0;
    var names: seq<Option<string>> := [];
    ghost var seen: seq<Thrown> := [];
    while depth < CAUSE_DEPTH && cursor.Object?
      invariant 0 <= depth <= CAUSE_DEPTH
      invariant seen + Links(cursor, CAUSE_DEPTH - depth) == Links(err, CAUSE_DEPTH)
      invariant |names| == |seen|
      invariant forall i :: 0 <= i < |seen| ==>
                  seen[i].Object? && names[i] == if seen[i].isError then seen[i].name else None
    {
      names := names + [if cursor.isError then cursor.name else None];
      seen := seen + [cursor];
      cursor := cursor.cause;
      depth := depth + 1;
    }
    assert seen == Links(err, CAUSE_DEPTH);
    noReceipt := exists i :: 0 <= i < |names| && names[i].Some? && IsNoReceiptName(names[i].value);
  }

  // The answer is found behind up to seven wrappers and no more, and there are two names
  // that are one, on Errors only.
  lemma NoReceiptIsFoundWithinReach(wraps: nat, isError: bool, name: string)
    ensures var err := Wrapped(Object(isError, false, Some(name), None, None, Nothing), wraps);
            (exists i :: 0 <= i < |Links(err, CAUSE_DEPTH)| && SaysNoReceipt(Links(err, CAUSE_DEPTH)[i])) <==>
              wraps < 8 && isError && (name == "TransactionReceiptNotFoundError" || name == "TransactionNotFoundError")
  {
    hide Wrapped, Links;
    var leaf := Object(isError, false, Some(name), None, None, Nothing);
    LinksOfWrapped(leaf, wraps, CAUSE_DEPTH);
    var links := Links(Wrapped(leaf, wraps), CAUSE_DEPTH);
    if wraps < 8 { assert links[wraps] == leaf; }
  }

  // readSettleValueDisposition: by class, or else by shape, so that a second copy
  // of the class reads the same.
  function ReadDisposition(t: Thrown): Option<Disposition> {
    if t.Object? && (t.ofSettleClass || t.name == Some("FacilitatorSettleError")) then t.disposition else None
  }

  // `new FacilitatorSettleError(message, d)`, possibly of another copy of the class.
  function SettleError(d: Disposition, sameCopy: bool, cause: Thrown): Thrown {
    Object(true, sameCopy, Some("FacilitatorSettleError"), Some("facilitator_settle_transport_error"), Some(d), cause)
  }

  // How an EVM adapter settles: through Pieverse, or through an x402 facilitator.
  datatype SettleMode = Pieverse | X402

  // What an adapter throws when its settle request failed with err: Pieverse's error
  // carries the disposition, an x402 adapter's is a plain Error with a message.
  method WrapTransportFailure(mode: SettleMode, err: Thrown, sameCopy: bool) returns (thrown: Thrown)
    ensures ReadDisposition(thrown) == Some(NotSent) <==> mode.Pieverse? && ProvesNotSent(err)
    ensures ReadDisposition(thrown) == Some(Unknown) <==> mode.Pieverse? && !ProvesNotSent(err)
  {
    match mode
    case Pieverse =>
      var d := ClassifySettleTransportError(err);
      thrown := SettleError(d, sameCopy, Nothing);
    case X402 =>
      thrown := Object(true, false, Some("Error"), None, None, Nothing);
  }

  // Does the hash that came with a failure show that something was broadcast?
  predicate HasBroadcastEvidence(txHash: Option<string>) { txHash.Some? && Trim(txHash.value) != "" }
}
