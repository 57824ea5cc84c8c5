// src/lib/refund-idem.ts: the key of a logical refund.
module RefundKey {
  import opened Positional
  import opened Text
  import opened Decimal

  const REFUND_IDEM_VERSION := "v1"

  datatype Parts = Parts(keyId: string, chainId: nat, operationId: string, slot: string)

  function RefundIdemKey(parts: Parts): string {
    Join([REFUND_IDEM_VERSION, parts.keyId, NumberText(parts.chainId), parts.operationId, parts.slot], ':')
  }

  lemma NumberTextHasNoColon(n: nat)
    ensures ':' !in NumberText(n)
  {
    forall i | 0 <= i < |NumberText(n)| ensures NumberText(n)[i] != ':' {
      assert IsDigit(NumberText(n)[i]);
    }
  }

  // The parts of a key, as far as the separators tell them apart: the slot, and
  // only the slot, may contain colons of its own.
  lemma SplitKey(p: Parts)
    requires ':' !in p.keyId && ':' !in p.operationId
    ensures Split(RefundIdemKey(p), ':') ==
            [REFUND_IDEM_VERSION, p.keyId, NumberText(p.chainId), p.operationId] + Split(p.slot, ':')
  {
    NumberTextHasNoColon(p.chainId);
    var front := [REFUND_IDEM_VERSION, p.keyId, NumberText(p.chainId), p.operationId];
    SplitJoinLast(front, p.slot, ':');
    assert front + [p.slot] == [REFUND_IDEM_VERSION, p.keyId, NumberText(p.chainId), p.operationId, p.slot];
  }

  // Distinct logical refunds never share a key.
  lemma KeyIsInjective(p: Parts, q: Parts)
    requires ':' !in p.keyId && ':' !in p.operationId && ':' !in q.keyId && ':' !in q.operationId
    ensures RefundIdemKey(p) == RefundIdemKey(q) <==> p == q
  {
    if RefundIdemKey(p) == RefundIdemKey(q) {
      SplitKey(p);
      SplitKey(q);
      var x, y := Split(RefundIdemKey(p), ':'), Split(RefundIdemKey(q), ':');
      assert x[1] == p.keyId && y[1] == q.keyId && x[3] == p.operationId && y[3] == q.operationId;
      assert x[2] == NumberText(p.chainId) && y[2] == NumberText(q.chainId);
      assert Number(x[2]) == p.chainId && Number(y[2]) == q.chainId;
      assert x[4..] == Split(p.slot, ':') && y[4..] == Split(q.slot, ':');
      JoinSplit(p.slot, ':');
      JoinSplit(q.slot, ':');
    }
  }

  // A colon in the key id or in the operation id would let two refunds share one.
  lemma ColonCollides(keyId: string, chainId: nat, operationId: string, slot: string)
    ensures var p := Parts(keyId + ":" + NumberText(chainId), chainId, operationId, slot);
            var q := Parts(keyId, chainId, NumberText(chainId) + ":" + operationId, slot);
            p != q && RefundIdemKey(p) == RefundIdemKey(q)
  {
    var c := NumberText(chainId);
    var p := Parts(keyId + ":" + c, chainId, operationId, slot);
    var q := Parts(keyId, chainId, c + ":" + operationId, slot);
    var same := [REFUND_IDEM_VERSION, keyId, c, c, operationId, slot];
    assert |p.keyId| > |q.keyId|;
    JoinFlattens([REFUND_IDEM_VERSION], keyId, c, [c, operationId, slot], ':');
    JoinFlattens([REFUND_IDEM_VERSION, keyId, c], c, operationId, [slot], ':');
    assert [REFUND_IDEM_VERSION] + [keyId, c] + [c, operationId, slot] == same;
    assert [REFUND_IDEM_VERSION, keyId, c] + [c, operationId] + [slot] == same;
    assert [REFUND_IDEM_VERSION] + [p.keyId] + [c, operationId, slot] ==
           [REFUND_IDEM_VERSION, p.keyId, c, operationId, slot];
    assert [REFUND_IDEM_VERSION, keyId, c] + [q.operationId] + [slot] ==
           [REFUND_IDEM_VERSION, keyId, c, q.operationId, slot];
  }
}
