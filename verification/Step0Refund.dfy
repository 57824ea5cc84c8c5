// src/lib/step0-refund.ts, with the request's refund state, the database side of
// a refund and the outbox sweep: crediting back a step-0 debit at most once.
module Step0Refund {
  import opened Wrappers
  import opened RefundKey

  const PLACEHOLDER_FEE_USD := 1.0
  const MAX_REFUND_ATTEMPTS := 5

  datatype KeyRow = KeyRow(id: string, ownerRef: string)

  // A JavaScript number as far as `amount > 0` is concerned.
  datatype Amount = NotANumber | Usd(value: real)

  datatype Request = Request(
    skipMiddlewareDebit: bool,
    keyRow: Option<KeyRow>,
    resolvedChainId: Option<nat>,
    composeEstimatedCostUsd: Option<Amount>,
    gaslessEstimatedCostUsd: Option<Amount>,
    step0RefundApplied: bool,
    refundIdemBase: Option<string>)

  // One logical refund, as it travels to the database and to the outbox. The
  // number of the request it belongs to is not transmitted; it only lets the
  // statements below speak of it.
  datatype Refund = Refund(request: nat, idemKey: string, keyId: string, chainId: nat,
                           amountUsd: real, ownerRef: string)

  // The amount the middleware debited, and the only one a refund may use.
  function Step0DebitUsd(r: Request): Amount {
    if r.composeEstimatedCostUsd.Some? then r.composeEstimatedCostUsd.value
    else if r.gaslessEstimatedCostUsd.Some? then r.gaslessEstimatedCostUsd.value
    else Usd(PLACEHOLDER_FEE_USD)
  }

  // The same, read off the request: the compose estimate, else the gasless one, else a
  // dollar.
  predicate Debited(r: Request, amount: real) {
    && (r.composeEstimatedCostUsd.Some? ==> r.composeEstimatedCostUsd == Some(Usd(amount)))
    && (r.composeEstimatedCostUsd.None? && r.gaslessEstimatedCostUsd.Some? ==>
          r.gaslessEstimatedCostUsd == Some(Usd(amount)))
    && (r.composeEstimatedCostUsd.None? && r.gaslessEstimatedCostUsd.None? ==> amount == 1.0)
  }

  // A request that was debited something positive, and has not begun a refund.
  ghost predicate RefundIsDue(r: Request) {
    && !r.skipMiddlewareDebit && r.keyRow.Some? && r.resolvedChainId.Some? && !r.step0RefundApplied
    && exists amount :: amount > 0.0 && Debited(r, amount)
  }

  lemma DebitIsExact(r: Request, amount: real)
    ensures Debited(r, amount) <==> Step0DebitUsd(r) == Usd(amount)
  {
  }

  lemma DueIffEligible(r: Request)
    ensures RefundIsDue(r) <==> Eligible(r) && !r.step0RefundApplied
  {
    if RefundIsDue(r) {
      var amount :| amount > 0.0 && Debited(r, amount);
    }
    if Eligible(r) { DebitIsExact(r, Step0DebitUsd(r).value); }
  }

  // The guards in front of a refund, except the once-only flag.
  predicate Eligible(r: Request) {
    && !r.skipMiddlewareDebit && r.keyRow.Some? && r.resolvedChainId.Some?
    && Step0DebitUsd(r).Usd? && Step0DebitUsd(r).value > 0.0
  }

  function RefundWith(r: Request, number: nat, base: string): Refund
    requires Eligible(r)
  {
    var key, chain := r.keyRow.value, r.resolvedChainId.value;
    Refund(number, RefundIdemKey(Parts(key.id, chain, base, "step0")), key.id, chain,
           Step0DebitUsd(r).value, key.ownerRef)
  }

  // `refundStep0Debit` up to its first `await`: guards, flag, key.
  function BeginRefund(r: Request, number: nat, uuid: string): (Request, Option<Refund>) {
    if !Eligible(r) || r.step0RefundApplied then (r, None)
    else
      var base := if r.refundIdemBase.Some? then r.refundIdemBase.value else uuid;
      (r.(step0RefundApplied := true, refundIdemBase := Some(base)), Some(RefundWith(r, number, base)))
  }

  class FastifyRequest {
    const skipMiddlewareDebit: bool
    const keyRow: Option<KeyRow>
    const resolvedChainId: Option<nat>
    const composeEstimatedCostUsd: Option<Amount>
    const gaslessEstimatedCostUsd: Option<Amount>
    var step0RefundApplied: bool
    var refundIdemBase: Option<string>

    function View(): Request
      reads this
    {
      Request(skipMiddlewareDebit, keyRow, resolvedChainId, composeEstimatedCostUsd, gaslessEstimatedCostUsd,
              step0RefundApplied, refundIdemBase)
    }

    constructor (r: Request)
      ensures View() == r
    {
      skipMiddlewareDebit := r.skipMiddlewareDebit;
      keyRow := r.keyRow;
      resolvedChainId := r.resolvedChainId;
      composeEstimatedCostUsd := r.composeEstimatedCostUsd;
      gaslessEstimatedCostUsd := r.gaslessEstimatedCostUsd;
      step0RefundApplied := r.step0RefundApplied;
      refundIdemBase := r.refundIdemBase;
    }

    // Memoized: the first call fixes the base for the life of the request.
    method RequestRefundIdemBase(uuid: string) returns (base: string)
      modifies this`refundIdemBase
      ensures old(refundIdemBase).Some? ==> base == old(refundIdemBase).value
      ensures old(refundIdemBase).None? ==> base == uuid
      ensures refundIdemBase == Some(base)
    {
      if refundIdemBase.Some? {
        return refundIdemBase.value;
      }
      base := uuid;
      refundIdemBase := Some(base);
    }

    method BeginStep0Refund(number: nat, uuid: string) returns (refund: Option<Refund>)
      modifies this
      ensures (View(), refund) == BeginRefund(old(View()), number, uuid)
      ensures refund.Some? <==> old(RefundIsDue(View()))
      ensures refund.Some? ==>
                && Debited(View(), refund.value.amountUsd) && step0RefundApplied
                && refund.value.request == number && refund.value.chainId == resolvedChainId.value
                && keyRow == Some(KeyRow(refund.value.keyId, refund.value.ownerRef))
      ensures refund.None? ==> View() == old(View())
    {
      DueIffEligible(View());
      if skipMiddlewareDebit || keyRow.None? || resolvedChainId.None? || step0RefundApplied {
        return None;
      }
      var amountUsd := Step0DebitUsd(View());
      if amountUsd.NotANumber? || amountUsd.value <= 0.0 {
        return None;
      }
      step0RefundApplied := true;
      var base := RequestRefundIdemBase(uuid);
      var idemKey := RefundIdemKey(Parts(keyRow.value.id, resolvedChainId.value, base, "step0"));
      var key, chain := keyRow.value, resolvedChainId.value;
      refund := Some(Refund(number, idemKey, key.id, chain, amountUsd.value, key.ownerRef));
    }
  }

  // ---- the database ----

  // Owners of the agent keys, the ledger of applied refunds by idempotency key,
  // and every credit ever made, in order.
  datatype Db = Db(owners: map<string, string>, applied: map<string, Refund>, credits: seq<Refund>)

  datatype Reply = Rows(n: nat) | Raised

  predicate SameAmount(a: real, b: real) { -0.000000001 <= a - b <= 0.000000001 }

  // One refund transaction: guards, claim of the key, credit. Claim and credit
  // commit together. A key already claimed by the same refund answers 1 row and
  // moves nothing.
  function Apply(db: Db, f: Refund): (Db, Reply) {
    if f.keyId !in db.owners || db.owners[f.keyId] != f.ownerRef then (db, Raised)
    else if f.amountUsd <= 0.0 then (db, Rows(0))
    else if f.idemKey in db.applied then
      var a := db.applied[f.idemKey];
      if || !SameAmount(a.amountUsd, f.amountUsd)
         || a.keyId != f.keyId || a.chainId != f.chainId || a.ownerRef != f.ownerRef
      then (db, Raised)
      else (db, Rows(1))
    else (db.(applied := db.applied[f.idemKey := f], credits := db.credits + [f]), Rows(1))
  }

  // `budgetService.credit*`: success only when the reply shows at least one row.
  predicate Succeeded(reply: Reply) { reply.Rows? && reply.n >= 1 }

  // ---- handlers, outbox and sweeps, interleaved ----

  datatype Outcome = CreditConfirmed | Queued | QueueWriteFailed

  datatype Progress = Crediting | Enqueueing | Finished(outcome: Outcome)

  // A run of refundStep0Debit past its guards. `reply` is what the database
  // answered, if its transaction has run, whether or not the handler hears of it.
  datatype Handler = Handler(refund: Refund, reply: Option<Reply>, progress: Progress)

  datatype RowStatus = Pending | Processing | Done | Dead

  datatype Row = Row(refund: Refund, status: RowStatus, attempts: nat)

  datatype Retry = Retry(row: nat, reply: Option<Reply>, over: bool)

  // `begun` notes, per request, the refund its one handler run has begun.
  datatype System = System(requests: seq<Request>, begun: map<nat, Refund>, db: Db,
                           handlers: seq<Handler>, rows: seq<Row>, retries: seq<Retry>)

  datatype Event =
    | Call(number: nat, uuid: string)           // refundStep0Debit is called for a request
    | RunCredit(h: nat, refused: bool)          // its transaction runs, early, late or never
    | HearReply(h: nat)                         // the handler hears the answer
    | LoseReply(h: nat)                         // the handler gets an exception instead
    // an outbox insert: whether it reaches the table, whether the handler hears of
    // it, and whether the handler then enqueues once more
    | Enqueue(h: nat, reached: bool, heard: bool, again: bool)
    | ClaimRow(row: nat)                        // a sweep takes a pending row
    | RunRetry(t: nat, refused: bool)           // the sweep's transaction runs
    | EndRetry(t: nat, heard: bool, written: bool) // the sweep marks the row, or fails to

  predicate UsesBase(r: Request, base: string) { r.refundIdemBase == Some(base) }

  // A generated UUID is new and has no colon.
  predicate IsFresh(s: System, uuid: string) {
    ':' !in uuid && forall i :: 0 <= i < |s.requests| ==> !UsesBase(s.requests[i], uuid)
  }

  predicate Enabled(s: System, e: Event) {
    match e
    case Call(number, uuid) => number < |s.requests| && IsFresh(s, uuid)
    case RunCredit(h, _) => h < |s.handlers| && s.handlers[h].reply.None?
    case HearReply(h) => h < |s.handlers| && s.handlers[h].progress == Crediting && s.handlers[h].reply.Some?
    case LoseReply(h) => h < |s.handlers| && s.handlers[h].progress == Crediting
    case Enqueue(h, _, _, _) => h < |s.handlers| && s.handlers[h].progress == Enqueueing
    case ClaimRow(row) => row < |s.rows| && s.rows[row].status == Pending
    case RunRetry(t, _) => t < |s.retries| && s.retries[t].reply.None? && s.retries[t].row < |s.rows|
    case EndRetry(t, heard, _) =>
      t < |s.retries| && !s.retries[t].over && s.retries[t].row < |s.rows| && (heard ==> s.retries[t].reply.Some?)
  }

  // The transaction of f, unless the database refuses it for a reason of its own.
  function Transact(db: Db, f: Refund, refused: bool): (Db, Reply) {
    if refused then (db, Raised) else Apply(db, f)
  }

  predicate HasRow(rows: seq<Row>, key: string) { exists i :: 0 <= i < |rows| && rows[i].refund.idemKey == key }

  // The unique index on the key: a second insert of the same refund changes nothing.
  function Inserted(rows: seq<Row>, f: Refund): seq<Row> {
    if HasRow(rows, f.idemKey) then rows else rows + [Row(f, Pending, 0)]
  }

  function Marked(row: Row, reverted: bool): Row {
    if reverted then row.(status := Done)
    else row.(attempts := row.attempts + 1,
              status := if row.attempts + 1 >= MAX_REFUND_ATTEMPTS then Dead else Pending)
  }

  function Step(s: System, e: Event): System
    requires Enabled(s, e)
  {
    match e
    case Call(number, uuid) =>
      var (r, refund) := BeginRefund(s.requests[number], number, uuid);
      s.(requests := s.requests[number := r],
         begun := if refund.Some? then s.begun[number := refund.value] else s.begun,
         handlers := if refund.Some? then s.handlers + [Handler(refund.value, None, Crediting)] else s.handlers)
    case RunCredit(h, refused) =>
      var (db, reply) := Transact(s.db, s.handlers[h].refund, refused);
      s.(db := db, handlers := s.handlers[h := s.handlers[h].(reply := Some(reply))])
    case HearReply(h) =>
      var next := if Succeeded(s.handlers[h].reply.value) then Finished(CreditConfirmed) else Enqueueing;
      s.(handlers := s.handlers[h := s.handlers[h].(progress := next)])
    case LoseReply(h) =>
      s.(handlers := s.handlers[h := s.handlers[h].(progress := Enqueueing)])
    case Enqueue(h, reached, heard, again) =>
      var f := s.handlers[h].refund;
      var next := if again then Enqueueing else Finished(if reached && heard then Queued else QueueWriteFailed);
      s.(rows := if reached then Inserted(s.rows, f) else s.rows,
         handlers := s.handlers[h := s.handlers[h].(progress := next)])
    case ClaimRow(row) =>
      s.(rows := s.rows[row := s.rows[row].(status := Processing)], retries := s.retries + [Retry(row, None, false)])
    case RunRetry(t, refused) =>
      var (db, reply) := Transact(s.db, s.rows[s.retries[t].row].refund, refused);
      s.(db := db, retries := s.retries[t := s.retries[t].(reply := Some(reply))])
    case EndRetry(t, heard, written) =>
      var i := s.retries[t].row;
      var reverted := heard && Succeeded(s.retries[t].reply.value);
      s.(rows := if written then s.rows[i := Marked(s.rows[i], reverted)] else s.rows,
         retries := s.retries[t := s.retries[t].(over := true)])
  }

  // A run: any number of events in any order, from untouched requests.
  predicate IsRun(s: System, es: seq<Event>)
    decreases |es|
  {
    |es| > 0 ==> Enabled(s, es[0]) && IsRun(Step(s, es[0]), es[1..])
  }

  function After(s: System, es: seq<Event>): System
    requires IsRun(s, es)
    decreases |es|
  {
    if |es| == 0 then s else After(Step(s, es[0]), es[1..])
  }

  // The middleware's key ids are UUIDs too, and no request starts with a refund.
  predicate IsStart(s: System) {
    && (forall i :: 0 <= i < |s.requests| ==> StartsClean(s.requests[i]))
    && s.begun == map[] && s.db.applied == map[] && s.db.credits == []
    && s.handlers == [] && s.rows == [] && s.retries == []
  }

  predicate StartsClean(r: Request) {
    !r.step0RefundApplied && r.refundIdemBase.None? && (r.keyRow.Some? ==> ':' !in r.keyRow.value.id)
  }

  // ---- the invariant ----

  predicate RequestOk(r: Request) {
    && (r.keyRow.Some? ==> ':' !in r.keyRow.value.id)
    && (r.refundIdemBase.Some? ==> ':' !in r.refundIdemBase.value)
  }

  predicate RequestsOk(rs: seq<Request>) {
    && (forall i :: 0 <= i < |rs| ==> RequestOk(rs[i]))
    && (forall i, j :: 0 <= i < j < |rs| && rs[i].refundIdemBase.Some? ==> rs[i].refundIdemBase != rs[j].refundIdemBase)
  }

  // f is what the n-th request, its guards passed and its flag spent, refunds.
  predicate IsRefundOf(rs: seq<Request>, n: nat, f: Refund) {
    && n < |rs|
    && rs[n].step0RefundApplied && Eligible(rs[n]) && rs[n].refundIdemBase.Some?
    && f == RefundWith(rs[n], n, rs[n].refundIdemBase.value)
  }

  predicate BegunOk(rs: seq<Request>, begun: map<nat, Refund>) {
    && (forall n :: n in begun ==> IsRefundOf(rs, n, begun[n]))
    && (forall n :: 0 <= n < |rs| && rs[n].step0RefundApplied ==> n in begun)
  }

  predicate Belongs(begun: map<nat, Refund>, f: Refund) { f.request in begun && begun[f.request] == f }

  predicate LedgerOk(begun: map<nat, Refund>, db: Db) {
    && (forall i :: 0 <= i < |db.credits| ==> Belongs(begun, db.credits[i]) && db.credits[i].idemKey in db.applied)
    && (forall i, j :: 0 <= i < j < |db.credits| ==> db.credits[i].idemKey != db.credits[j].idemKey)
    && (forall k :: k in db.applied ==> db.applied[k].idemKey == k && db.applied[k] in db.credits)
  }

  predicate HandlerOk(begun: map<nat, Refund>, db: Db, rows: seq<Row>, h: Handler) {
    && Belongs(begun, h.refund)
    && (h.reply.Some? && Succeeded(h.reply.value) ==> h.refund.idemKey in db.applied)
    && (h.progress == Finished(CreditConfirmed) ==> h.refund.idemKey in db.applied)
    && (h.progress == Finished(Queued) ==> HasRow(rows, h.refund.idemKey))
  }

  predicate HandlersOk(begun: map<nat, Refund>, db: Db, rows: seq<Row>, hs: seq<Handler>) {
    forall i :: 0 <= i < |hs| ==> HandlerOk(begun, db, rows, hs[i])
  }

  predicate RowsOk(begun: map<nat, Refund>, db: Db, rows: seq<Row>) {
    forall i :: 0 <= i < |rows| ==>
      Belongs(begun, rows[i].refund) && (rows[i].status == Done ==> rows[i].refund.idemKey in db.applied)
  }

  predicate OneRowPerKey(rows: seq<Row>) {
    forall i, j :: 0 <= i < j < |rows| ==> rows[i].refund.idemKey != rows[j].refund.idemKey
  }

  predicate RetryOk(db: Db, rows: seq<Row>, t: Retry) {
    t.row < |rows| && (t.reply.Some? && Succeeded(t.reply.value) ==> rows[t.row].refund.idemKey in db.applied)
  }

  predicate RetriesOk(db: Db, rows: seq<Row>, ts: seq<Retry>) {
    forall i :: 0 <= i < |ts| ==> RetryOk(db, rows, ts[i])
  }

  predicate Inv(s: System) {
    && RequestsOk(s.requests)
    && BegunOk(s.requests, s.begun)
    && LedgerOk(s.begun, s.db)
    && HandlersOk(s.begun, s.db, s.rows, s.handlers)
    && RowsOk(s.begun, s.db, s.rows) && OneRowPerKey(s.rows)
    && RetriesOk(s.db, s.rows, s.retries)
  }

  // Applied keys stay applied, whatever transaction runs.
  predicate Grows(db: Db, after: Db) { forall k :: k in db.applied ==> k in after.applied }

  lemma TransactKeepsLedger(begun: map<nat, Refund>, db: Db, f: Refund, refused: bool) returns (after: Db, reply: Reply)
    requires LedgerOk(begun, db) && Belongs(begun, f)
    ensures (after, reply) == Transact(db, f, refused)
    ensures LedgerOk(begun, after) && Grows(db, after)
    ensures Succeeded(reply) ==> f.idemKey in after.applied
  {
    var (a, r) := Transact(db, f, refused);
    after, reply := a, r;
    if after != db {
      assert after.credits[|db.credits|] == f;
      forall k | k in after.applied ensures after.applied[k].idemKey == k && after.applied[k] in after.credits {
        if k != f.idemKey {
          var i :| 0 <= i < |db.credits| && db.credits[i] == db.applied[k];
          assert after.credits[i] == db.applied[k];
        }
      }
    }
  }

  predicate Extends(begun: map<nat, Refund>, more: map<nat, Refund>) {
    forall n :: n in begun ==> n in more && more[n] == begun[n]
  }

  lemma CallKeepsBases(rs: seq<Request>, number: nat, uuid: string) returns (r: Request, refund: Option<Refund>)
    requires RequestsOk(rs) && number < |rs|
    requires ':' !in uuid && forall i :: 0 <= i < |rs| ==> !UsesBase(rs[i], uuid)
    ensures (r, refund) == BeginRefund(rs[number], number, uuid)
    ensures RequestsOk(rs[number := r])
    ensures refund.None? ==> r == rs[number]
    ensures refund.Some? ==> IsRefundOf(rs[number := r], number, refund.value) && !rs[number].step0RefundApplied
  {
    var (a, b) := BeginRefund(rs[number], number, uuid);
    r, refund := a, b;
    assert RequestOk(r);
    var after := rs[number := r];
    forall i, j | 0 <= i < j < |after| && after[i].refundIdemBase.Some?
      ensures after[i].refundIdemBase != after[j].refundIdemBase
    {
      assert !UsesBase(rs[i], uuid) && !UsesBase(rs[j], uuid);
    }
  }

  // Only a first call of an eligible request begins a refund.
  lemma CallKeepsRequests(rs: seq<Request>, begun: map<nat, Refund>, number: nat, uuid: string)
    returns (after: seq<Request>, more: map<nat, Refund>, refund: Option<Refund>)
    requires RequestsOk(rs) && BegunOk(rs, begun) && number < |rs|
    requires ':' !in uuid && forall i :: 0 <= i < |rs| ==> !UsesBase(rs[i], uuid)
    ensures refund == BeginRefund(rs[number], number, uuid).1
    ensures after == rs[number := BeginRefund(rs[number], number, uuid).0]
    ensures more == if refund.Some? then begun[number := refund.value] else begun
    ensures RequestsOk(after) && BegunOk(after, more) && Extends(begun, more)
    ensures refund.Some? ==> Belongs(more, refund.value)
  {
    var r;
    r, refund := CallKeepsBases(rs, number, uuid);
    after := rs[number := r];
    more := if refund.Some? then begun[number := refund.value] else begun;
    assert refund.Some? && number in begun ==> IsRefundOf(rs, number, begun[number]);
    forall n | n in more ensures IsRefundOf(after, n, more[n]) {
      if n in begun { assert IsRefundOf(rs, n, begun[n]); }
    }
  }

  lemma MoreBegun(begun: map<nat, Refund>, more: map<nat, Refund>, db: Db, hs: seq<Handler>, rows: seq<Row>)
    requires Extends(begun, more)
    ensures LedgerOk(begun, db) ==> LedgerOk(more, db)
    ensures HandlersOk(begun, db, rows, hs) ==> HandlersOk(more, db, rows, hs)
    ensures RowsOk(begun, db, rows) ==> RowsOk(more, db, rows)
  {
    if HandlersOk(begun, db, rows, hs) {
      forall i | 0 <= i < |hs| ensures HandlerOk(more, db, rows, hs[i]) {
        assert HandlerOk(begun, db, rows, hs[i]);
      }
    }
  }

  lemma CallKeepsInv(s: System, number: nat, uuid: string)
    requires Inv(s) && Enabled(s, Call(number, uuid))
    ensures Inv(Step(s, Call(number, uuid)))
  {
    hide BeginRefund, RequestsOk, BegunOk, LedgerOk, RowsOk, RetryOk, OneRowPerKey, UsesBase;
    var after, more, refund := CallKeepsRequests(s.requests, s.begun, number, uuid);
    MoreBegun(s.begun, more, s.db, s.handlers, s.rows);
    if refund.Some? {
      assert HandlerOk(more, s.db, s.rows, Handler(refund.value, None, Crediting));
    }
  }

  // More applied keys, and more rows, invalidate nothing.
  lemma MoreApplied(s: System, db: Db)
    requires Grows(s.db, db)
    ensures HandlersOk(s.begun, s.db, s.rows, s.handlers) ==> HandlersOk(s.begun, db, s.rows, s.handlers)
    ensures RowsOk(s.begun, s.db, s.rows) ==> RowsOk(s.begun, db, s.rows)
    ensures RetriesOk(s.db, s.rows, s.retries) ==> RetriesOk(db, s.rows, s.retries)
  {
    if HandlersOk(s.begun, s.db, s.rows, s.handlers) {
      forall i | 0 <= i < |s.handlers| ensures HandlerOk(s.begun, db, s.rows, s.handlers[i]) {
        assert HandlerOk(s.begun, s.db, s.rows, s.handlers[i]);
      }
    }
    if RetriesOk(s.db, s.rows, s.retries) {
      forall i | 0 <= i < |s.retries| ensures RetryOk(db, s.rows, s.retries[i]) {
        assert RetryOk(s.db, s.rows, s.retries[i]);
      }
    }
  }

  lemma ChangeHandler(begun: map<nat, Refund>, db: Db, rows: seq<Row>, hs: seq<Handler>, h: nat, handler: Handler)
    requires HandlersOk(begun, db, rows, hs) && h < |hs| && HandlerOk(begun, db, rows, handler)
    ensures HandlersOk(begun, db, rows, hs[h := handler])
  {
  }

  lemma ChangeRetry(db: Db, rows: seq<Row>, ts: seq<Retry>, t: nat, retry: Retry)
    requires RetriesOk(db, rows, ts) && t < |ts| && RetryOk(db, rows, retry)
    ensures RetriesOk(db, rows, ts[t := retry])
  {
  }

  lemma AddRetry(db: Db, rows: seq<Row>, ts: seq<Retry>, retry: Retry)
    requires RetriesOk(db, rows, ts) && RetryOk(db, rows, retry)
    ensures RetriesOk(db, rows, ts + [retry])
  {
  }

  lemma RunCreditKeepsInv(s: System, h: nat, refused: bool)
    requires Inv(s) && Enabled(s, RunCredit(h, refused))
    ensures Inv(Step(s, RunCredit(h, refused)))
  {
    var handler := s.handlers[h];
    assert HandlerOk(s.begun, s.db, s.rows, handler);
    var db, reply := TransactKeepsLedger(s.begun, s.db, handler.refund, refused);
    MoreApplied(s, db);
    ChangeHandler(s.begun, db, s.rows, s.handlers, h, handler.(reply := Some(reply)));
  }

  lemma RunRetryKeepsInv(s: System, t: nat, refused: bool)
    requires Inv(s) && Enabled(s, RunRetry(t, refused))
    ensures Inv(Step(s, RunRetry(t, refused)))
  {
    var retry := s.retries[t];
    var db, reply := TransactKeepsLedger(s.begun, s.db, s.rows[retry.row].refund, refused);
    MoreApplied(s, db);
    ChangeRetry(db, s.rows, s.retries, t, retry.(reply := Some(reply)));
  }

  // The rows keep their refunds: what was queued stays queued.
  predicate SameRefunds(rows: seq<Row>, after: seq<Row>) {
    |rows| <= |after| && forall i :: 0 <= i < |rows| ==> after[i].refund == rows[i].refund
  }

  lemma MoreRows(s: System, rows: seq<Row>)
    requires SameRefunds(s.rows, rows)
    ensures HandlersOk(s.begun, s.db, s.rows, s.handlers) ==> HandlersOk(s.begun, s.db, rows, s.handlers)
    ensures RetriesOk(s.db, s.rows, s.retries) ==> RetriesOk(s.db, rows, s.retries)
  {
    if HandlersOk(s.begun, s.db, s.rows, s.handlers) {
      forall i | 0 <= i < |s.handlers| ensures HandlerOk(s.begun, s.db, rows, s.handlers[i]) {
        assert HandlerOk(s.begun, s.db, s.rows, s.handlers[i]);
        StillQueued(s.rows, rows, s.handlers[i].refund.idemKey);
      }
    }
    if RetriesOk(s.db, s.rows, s.retries) {
      forall i | 0 <= i < |s.retries| ensures RetryOk(s.db, rows, s.retries[i]) {
        assert RetryOk(s.db, s.rows, s.retries[i]);
      }
    }
  }

  lemma StillQueued(rows: seq<Row>, after: seq<Row>, key: string)
    requires SameRefunds(rows, after)
    ensures HasRow(rows, key) ==> HasRow(after, key)
  {
    if HasRow(rows, key) {
      var i :| 0 <= i < |rows| && rows[i].refund.idemKey == key;
      assert after[i].refund.idemKey == key;
    }
  }

  lemma InsertKeepsRows(begun: map<nat, Refund>, db: Db, rows: seq<Row>, f: Refund) returns (after: seq<Row>)
    requires RowsOk(begun, db, rows) && OneRowPerKey(rows) && Belongs(begun, f)
    ensures after == Inserted(rows, f)
    ensures RowsOk(begun, db, after) && OneRowPerKey(after) && SameRefunds(rows, after) && HasRow(after, f.idemKey)
  {
    after := Inserted(rows, f);
    if !HasRow(rows, f.idemKey) { assert after[|rows|].refund == f; }
  }

  lemma EnqueueKeepsInv(s: System, h: nat, reached: bool, heard: bool, again: bool)
    requires Inv(s) && Enabled(s, Enqueue(h, reached, heard, again))
    ensures Inv(Step(s, Enqueue(h, reached, heard, again)))
  {
    hide Inserted;
    var t := Step(s, Enqueue(h, reached, heard, again));
    assert HandlerOk(s.begun, s.db, s.rows, s.handlers[h]);
    if reached {
      var rows := InsertKeepsRows(s.begun, s.db, s.rows, s.handlers[h].refund);
      MoreRows(s, rows);
    }
    ChangeHandler(s.begun, s.db, t.rows, s.handlers, h, t.handlers[h]);
  }

  // Enqueueing a refund that is already queued, by way of both error paths or after
  // an insert whose answer was lost, leaves the outbox as it is.
  lemma SecondEnqueueAddsNothing(s: System, h: nat, heard: bool, reached: bool, heardAgain: bool, again: bool)
    requires Enabled(s, Enqueue(h, true, heard, true))
    ensures var t := Step(s, Enqueue(h, true, heard, true));
            && Enabled(t, Enqueue(h, reached, heardAgain, again))
            && Step(t, Enqueue(h, reached, heardAgain, again)).rows == t.rows
  {
    var t := Step(s, Enqueue(h, true, heard, true));
    if !HasRow(s.rows, s.handlers[h].refund.idemKey) { assert t.rows[|s.rows|].refund == s.handlers[h].refund; }
  }

  lemma HandlerStepKeepsInv(s: System, e: Event, h: nat)
    requires Inv(s) && Enabled(s, e) && (e == HearReply(h) || e == LoseReply(h))
    ensures Inv(Step(s, e))
  {
    assert HandlerOk(s.begun, s.db, s.rows, s.handlers[h]);
    ChangeHandler(s.begun, s.db, s.rows, s.handlers, h, Step(s, e).handlers[h]);
  }

  lemma ChangeRow(s: System, i: nat, row: Row) returns (rows: seq<Row>)
    requires i < |s.rows| && row.refund == s.rows[i].refund && RowsOk(s.begun, s.db, s.rows)
    requires row.status == Done ==> row.refund.idemKey in s.db.applied
    ensures rows == s.rows[i := row] && RowsOk(s.begun, s.db, rows)
    ensures OneRowPerKey(s.rows) ==> OneRowPerKey(rows)
    ensures HandlersOk(s.begun, s.db, s.rows, s.handlers) ==> HandlersOk(s.begun, s.db, rows, s.handlers)
    ensures RetriesOk(s.db, s.rows, s.retries) ==> RetriesOk(s.db, rows, s.retries)
  {
    rows := s.rows[i := row];
    MoreRows(s, rows);
  }

  lemma ClaimRowKeepsInv(s: System, row: nat)
    requires Inv(s) && Enabled(s, ClaimRow(row))
    ensures Inv(Step(s, ClaimRow(row)))
  {
    var rows := ChangeRow(s, row, s.rows[row].(status := Processing));
    AddRetry(s.db, rows, s.retries, Retry(row, None, false));
  }

  lemma EndRetryKeepsInv(s: System, t: nat, heard: bool, written: bool)
    requires Inv(s) && Enabled(s, EndRetry(t, heard, written))
    ensures Inv(Step(s, EndRetry(t, heard, written)))
  {
    var retry := s.retries[t];
    assert RetryOk(s.db, s.rows, retry);
    var rows := s.rows;
    if written {
      rows := ChangeRow(s, retry.row, Marked(s.rows[retry.row], heard && Succeeded(retry.reply.value)));
    }
    ChangeRetry(s.db, rows, s.retries, t, retry.(over := true));
  }

  lemma StepKeepsInv(s: System, e: Event)
    requires Inv(s) && Enabled(s, e)
    ensures Inv(Step(s, e))
  {
    match e
    case Call(number, uuid) => CallKeepsInv(s, number, uuid);
    case RunCredit(h, refused) => RunCreditKeepsInv(s, h, refused);
    case HearReply(h) => HandlerStepKeepsInv(s, e, h);
    case LoseReply(h) => HandlerStepKeepsInv(s, e, h);
    case Enqueue(h, reached, heard, again) => EnqueueKeepsInv(s, h, reached, heard, again);
    case ClaimRow(row) => ClaimRowKeepsInv(s, row);
    case RunRetry(t, refused) => RunRetryKeepsInv(s, t, refused);
    case EndRetry(t, heard, written) => EndRetryKeepsInv(s, t, heard, written);
  }

  lemma {:induction false} RunKeepsInv(s: System, es: seq<Event>)
    requires Inv(s) && IsRun(s, es)
    ensures Inv(After(s, es))
    decreases |es|
  {
    if |es| == 0 {
    } else {
      StepKeepsInv(s, es[0]);
      RunKeepsInv(Step(s, es[0]), es[1..]);
    }
  }

  lemma StartKeepsInv(s: System)
    requires IsStart(s)
    ensures Inv(s)
  {
    assert forall i :: 0 <= i < |s.requests| ==> StartsClean(s.requests[i]);
  }

  // ---- what the invariant gives ----

  // Everything credited for the n-th request.
  function Credited(credits: seq<Refund>, n: nat): real {
    if |credits| == 0 then 0.0
    else Credited(credits[..|credits| - 1], n) +
         (if credits[|credits| - 1].request == n then credits[|credits| - 1].amountUsd else 0.0)
  }

  predicate CreditedOnce(credits: seq<Refund>, n: nat) { exists i :: 0 <= i < |credits| && credits[i].request == n }

  lemma {:induction false} CreditedAtMostOnce(begun: map<nat, Refund>, credits: seq<Refund>, n: nat)
    requires forall i :: 0 <= i < |credits| ==> Belongs(begun, credits[i])
    requires forall i, j :: 0 <= i < j < |credits| ==> credits[i].idemKey != credits[j].idemKey
    ensures CreditedOnce(credits, n) ==> n in begun && Credited(credits, n) == begun[n].amountUsd
    ensures !CreditedOnce(credits, n) ==> Credited(credits, n) == 0.0
  {
    if |credits| == 0 {
    } else {
      var last, front := credits[|credits| - 1], credits[..|credits| - 1];
      CreditedAtMostOnce(begun, front, n);
      if CreditedOnce(front, n) {
        var i :| 0 <= i < |front| && front[i].request == n;
        assert credits[i].request == n && credits[i] == begun[n];
      }
      if last.request == n { assert CreditedOnce(credits, n); }
      if CreditedOnce(credits, n) && last.request != n {
        var i :| 0 <= i < |credits| && credits[i].request == n;
        assert front[i].request == n;
      }
    }
  }

  // A run never changes what a request was debited for.
  predicate SameDebit(a: Request, b: Request) {
    && Eligible(a) == Eligible(b) && Step0DebitUsd(a) == Step0DebitUsd(b)
    && a.keyRow == b.keyRow && a.resolvedChainId == b.resolvedChainId
  }

  lemma StepKeepsDebits(s: System, e: Event, n: nat)
    requires Enabled(s, e) && n < |s.requests|
    ensures |Step(s, e).requests| == |s.requests| && SameDebit(s.requests[n], Step(s, e).requests[n])
    ensures Step(s, e).db.owners == s.db.owners
  {
    hide RefundIdemKey, Inserted, Marked;
  }

  lemma {:induction false} RunKeepsDebits(s: System, es: seq<Event>, n: nat)
    requires IsRun(s, es) && n < |s.requests|
    ensures |After(s, es).requests| == |s.requests| && SameDebit(s.requests[n], After(s, es).requests[n])
    ensures After(s, es).db.owners == s.db.owners
    decreases |es|
  {
    hide Step, Enabled, Eligible, Step0DebitUsd;
    if |es| == 0 {
    } else {
      StepKeepsDebits(s, es[0], n);
      RunKeepsDebits(Step(s, es[0]), es[1..], n);
    }
  }

  // The refund of a request is applied when the ledger holds its key.
  predicate IsApplied(s: System, n: nat) { n in s.begun && s.begun[n].idemKey in s.db.applied }

  // No two requests share a refund key, so an applied key is the request's own.
  lemma SameKeySameRequest(rs: seq<Request>, m: nat, f: Refund, n: nat, g: Refund)
    requires RequestsOk(rs) && IsRefundOf(rs, m, f) && IsRefundOf(rs, n, g) && f.idemKey == g.idemKey
    ensures m == n && f == g
  {
    var a, b := rs[m], rs[n];
    KeyIsInjective(Parts(a.keyRow.value.id, a.resolvedChainId.value, a.refundIdemBase.value, "step0"),
                   Parts(b.keyRow.value.id, b.resolvedChainId.value, b.refundIdemBase.value, "step0"));
    assert a.refundIdemBase == b.refundIdemBase;
  }

  lemma AppliedIsOwn(s: System, n: nat)
    requires Inv(s) && IsApplied(s, n)
    ensures s.db.applied[s.begun[n].idemKey] == s.begun[n]
  {
    var f := s.db.applied[s.begun[n].idemKey];
    assert f in s.db.credits;
    SameKeySameRequest(s.requests, f.request, f, n, s.begun[n]);
  }

  lemma CreditedMeansApplied(begun: map<nat, Refund>, db: Db, n: nat)
    requires LedgerOk(begun, db)
    ensures CreditedOnce(db.credits, n) ==> n in begun && begun[n].idemKey in db.applied
    ensures (n in begun && begun[n].request == n && begun[n].idemKey in db.applied
             && db.applied[begun[n].idemKey] == begun[n]) ==> CreditedOnce(db.credits, n)
  {
  }

  // What is credited for a request is its whole debit if its refund is applied,
  // and nothing otherwise.
  lemma CreditedIsAllOrNothing(s: System, n: nat)
    requires Inv(s)
    ensures Credited(s.db.credits, n) == if IsApplied(s, n) then s.begun[n].amountUsd else 0.0
  {
    CreditedAtMostOnce(s.begun, s.db.credits, n);
    CreditedMeansApplied(s.begun, s.db, n);
    if IsApplied(s, n) {
      AppliedIsOwn(s, n);
      BegunShape(s.requests, s.begun, n);
    }
  }

  lemma BegunShape(rs: seq<Request>, begun: map<nat, Refund>, n: nat)
    requires BegunOk(rs, begun) && n in begun
    ensures begun[n].request == n && begun[n].amountUsd > 0.0
  {
    assert IsRefundOf(rs, n, begun[n]);
  }

  // At most once: over every interleaving of handler calls, transactions that run
  // late or whose answers are lost, outbox writes and sweep retries, what is
  // credited for a request is nothing or exactly its step-0 debit, and nothing
  // unless all its guards pass.
  lemma RefundedAtMostOnce(s: System, es: seq<Event>, n: nat)
    requires IsStart(s) && IsRun(s, es) && n < |s.requests|
    ensures var t := After(s, es); var credited := Credited(t.db.credits, n);
            && (IsApplied(t, n) ==> RefundIsDue(s.requests[n]) && credited > 0.0 && Debited(s.requests[n], credited))
            && (!IsApplied(t, n) ==> credited == 0.0)
  {
    var t := After(s, es);
    StartKeepsInv(s);
    RunKeepsInv(s, es);
    RunKeepsDebits(s, es, n);
    CreditedIsAllOrNothing(t, n);
    if IsApplied(t, n) {
      assert IsRefundOf(t.requests, n, t.begun[n]);
      assert StartsClean(s.requests[n]);
      DueIffEligible(s.requests[n]);
      DebitIsExact(s.requests[n], t.begun[n].amountUsd);
    }
  }

  // ---- a refund that is due is begun, and goes through ----

  // A call begins a refund exactly when one is due, of exactly the debit, and nothing
  // else happens; any other call changes nothing.
  lemma CallBegins(s: System, number: nat, uuid: string)
    requires Enabled(s, Call(number, uuid))
    ensures var r := s.requests[number]; var t := Step(s, Call(number, uuid));
            && (|t.handlers| == |s.handlers| + 1 <==> RefundIsDue(r))
            && (!RefundIsDue(r) ==> t == s)
            && (RefundIsDue(r) ==>
                  var h := t.handlers[|s.handlers|];
                  && t.handlers == s.handlers + [h] && h.reply == None && h.progress == Crediting
                  && h.refund.request == number && Debited(r, h.refund.amountUsd)
                  && Some(KeyRow(h.refund.keyId, h.refund.ownerRef)) == r.keyRow
                  && Some(h.refund.chainId) == r.resolvedChainId
                  && h.refund.idemKey ==
                     RefundIdemKey(Parts(h.refund.keyId, h.refund.chainId,
                                         if r.refundIdemBase.Some? then r.refundIdemBase.value else uuid, "step0"))
                  && !RefundIsDue(t.requests[number])
                  && t.db == s.db && t.rows == s.rows && t.retries == s.retries)
  {
    hide RefundIsDue;
    var r := s.requests[number];
    DueIffEligible(r);
    DueIffEligible(Step(s, Call(number, uuid)).requests[number]);
    if Eligible(r) { DebitIsExact(r, Step0DebitUsd(r).value); }
    assert s.requests[number := r] == s.requests;
  }

  // What one transaction does: it succeeds exactly for the key's own owner, a positive
  // amount and a key that is new or was claimed by this refund; it credits exactly when
  // the key is new.
  lemma ApplyIsExact(db: Db, f: Refund)
    ensures var (after, reply) := Apply(db, f);
            && (Succeeded(reply) <==>
                  && f.keyId in db.owners && db.owners[f.keyId] == f.ownerRef && f.amountUsd > 0.0
                  && (f.idemKey in db.applied ==>
                        var a := db.applied[f.idemKey];
                        && a.keyId == f.keyId && a.chainId == f.chainId && a.ownerRef == f.ownerRef
                        && a.amountUsd <= f.amountUsd + 0.000000001 && f.amountUsd <= a.amountUsd + 0.000000001))
            && after.owners == db.owners
            && (if Succeeded(reply) && f.idemKey !in db.applied
                then after.credits == db.credits + [f] && after.applied == db.applied[f.idemKey := f]
                else after == db)
  {
  }

  // The same transaction again, in the state it left: success, and nothing moves.
  lemma ApplyTwice(db: Db, f: Refund)
    requires Succeeded(Apply(db, f).1)
    ensures Succeeded(Apply(Apply(db, f).0, f).1) && Apply(Apply(db, f).0, f).0 == Apply(db, f).0
  {
  }

  lemma ThreeEvents(s: System, a: System, b: System, t: System, e: Event, f: Event, g: Event)
    requires Enabled(s, e) && Step(s, e) == a && Enabled(a, f) && Step(a, f) == b && Enabled(b, g) && Step(b, g) == t
    ensures IsRun(s, [e, f, g]) && After(s, [e, f, g]) == t
  {
    hide Step, Enabled;
    assert [e, f, g][1..] == [f, g] && [f, g][1..] == [g] && [g][1..] == [];
    assert IsRun(t, []) && After(t, []) == t;
    assert IsRun(b, [g]) && After(b, [g]) == t;
    assert IsRun(a, [f, g]) && After(a, [f, g]) == t;
  }

  // The undisturbed way: a call for a due refund of a key that exists, a transaction
  // the database does not refuse, and its answer. The debit is back, nothing is queued.
  lemma UndisturbedRefund(s: System, number: nat, uuid: string) returns (t: System)
    requires Inv(s) && Enabled(s, Call(number, uuid)) && RefundIsDue(s.requests[number])
    requires var key := s.requests[number].keyRow.value; key.id in s.db.owners && s.db.owners[key.id] == key.ownerRef
    ensures var h := |s.handlers|; IsRun(s, [Call(number, uuid), RunCredit(h, false), HearReply(h)])
    ensures var h := |s.handlers|; t == After(s, [Call(number, uuid), RunCredit(h, false), HearReply(h)])
    ensures |s.handlers| < |t.handlers| && t.handlers[|s.handlers|].progress == Finished(CreditConfirmed)
    ensures t.rows == s.rows && Debited(s.requests[number], Credited(t.db.credits, number))
  {
    hide RefundIsDue, Transact, BeginRefund, Succeeded, Step, Enabled, Inv, Debited, Credited, IsRun, After;
    var h := |s.handlers|;
    var a := Begin(s, number, uuid);
    var b := CreditRun(a, h);
    t := Heard(b, h);
    ThreeEvents(s, a, b, t, Call(number, uuid), RunCredit(h, false), HearReply(h));
    CreditedIsAllOrNothing(t, number);
  }

  lemma Begin(s: System, number: nat, uuid: string) returns (t: System)
    requires Inv(s) && Enabled(s, Call(number, uuid)) && RefundIsDue(s.requests[number])
    ensures t == Step(s, Call(number, uuid)) && Inv(t) && |t.handlers| == |s.handlers| + 1
    ensures var h := t.handlers[|s.handlers|];
            && h.reply == None && h.progress == Crediting && h.refund.request == number
            && Debited(s.requests[number], h.refund.amountUsd)
            && Some(KeyRow(h.refund.keyId, h.refund.ownerRef)) == s.requests[number].keyRow
            && Belongs(t.begun, h.refund)
    ensures t.db == s.db && t.rows == s.rows
  {
    CallBegins(s, number, uuid);
    CallKeepsInv(s, number, uuid);
    t := Step(s, Call(number, uuid));
    assert HandlerOk(t.begun, t.db, t.rows, t.handlers[|s.handlers|]);
  }

  lemma CreditRun(a: System, h: nat) returns (b: System)
    requires Inv(a) && h < |a.handlers| && a.handlers[h].reply == None && a.handlers[h].progress == Crediting
    requires var f := a.handlers[h].refund; f.keyId in a.db.owners && a.db.owners[f.keyId] == f.ownerRef
    ensures Enabled(a, RunCredit(h, false)) && b == Step(a, RunCredit(h, false)) && Inv(b)
    ensures b.handlers[h] == a.handlers[h].(reply := b.handlers[h].reply)
    ensures |b.handlers| == |a.handlers| && b.rows == a.rows && b.begun == a.begun
    ensures b.handlers[h].reply.Some? && Succeeded(b.handlers[h].reply.value)
    ensures b.handlers[h].refund.idemKey in b.db.applied
  {
    assert HandlerOk(a.begun, a.db, a.rows, a.handlers[h]);
    ApplySettles(a, a.handlers[h].refund);
    RunCreditKeepsInv(a, h, false);
    b := Step(a, RunCredit(h, false));
  }

  lemma Heard(b: System, h: nat) returns (t: System)
    requires Inv(b) && h < |b.handlers| && b.handlers[h].progress == Crediting
    requires b.handlers[h].reply.Some? && Succeeded(b.handlers[h].reply.value)
    ensures Enabled(b, HearReply(h)) && t == Step(b, HearReply(h)) && Inv(t)
    ensures |t.handlers| == |b.handlers| && t.handlers[h] == b.handlers[h].(progress := Finished(CreditConfirmed))
    ensures t.db == b.db && t.rows == b.rows && t.begun == b.begun
  {
    HandlerStepKeepsInv(b, HearReply(h), h);
    t := Step(b, HearReply(h));
  }

  // A transaction the database refused, or one whose answer was lost, and an outbox
  // write that goes through: the refund waits in the outbox, unless it did so before.
  lemma FailureIsQueued(s: System, h: nat, refused: bool) returns (t: System)
    requires h < |s.handlers| && s.handlers[h].progress == Crediting && s.handlers[h].reply.None?
    ensures IsRun(s, [RunCredit(h, refused), if refused then HearReply(h) else LoseReply(h),
                      Enqueue(h, true, true, false)])
    ensures t == After(s, [RunCredit(h, refused), if refused then HearReply(h) else LoseReply(h),
                           Enqueue(h, true, true, false)])
    ensures |t.handlers| == |s.handlers| && t.handlers[h].progress == Finished(Queued)
    ensures t.rows == if HasRow(s.rows, s.handlers[h].refund.idemKey) then s.rows
                      else s.rows + [Row(s.handlers[h].refund, Pending, 0)]
  {
    hide Apply, HasRow;
    var first, second := RunCredit(h, refused), if refused then HearReply(h) else LoseReply(h);
    var third := Enqueue(h, true, true, false);
    var a := Step(s, first);
    var b := Step(a, second);
    t := Step(b, third);
    ThreeEvents(s, a, b, t, first, second, third);
  }

  // However often it is enqueued, a refund has at most one row in the outbox.
  lemma QueuedAtMostOnce(s: System, es: seq<Event>, i: nat, j: nat)
    requires IsStart(s) && IsRun(s, es) && i < j < |After(s, es).rows|
    ensures After(s, es).rows[i].refund.request != After(s, es).rows[j].refund.request
  {
    var t := After(s, es);
    StartKeepsInv(s);
    RunKeepsInv(s, es);
    assert Belongs(t.begun, t.rows[i].refund) && Belongs(t.begun, t.rows[j].refund);
  }

  // No handler run ends with the refund forgotten: it is applied, or queued under
  // the same key, or the handler was not told that the outbox write went through.
  // And a row is only marked done once its refund is applied.
  lemma NothingIsForgotten(s: System, es: seq<Event>)
    requires IsStart(s) && IsRun(s, es)
    ensures var t := After(s, es);
            && (forall h :: 0 <= h < |t.handlers| && t.handlers[h].progress.Finished? ==>
                  var n := t.handlers[h].refund.request;
                  match t.handlers[h].progress.outcome
                  case CreditConfirmed => IsApplied(t, n)
                  case Queued => n in t.begun && HasRow(t.rows, t.begun[n].idemKey)
                  case QueueWriteFailed => true)
            && (forall i :: 0 <= i < |t.rows| && t.rows[i].status == Done ==> IsApplied(t, t.rows[i].refund.request))
  {
    var t := After(s, es);
    StartKeepsInv(s);
    RunKeepsInv(s, es);
    forall h | 0 <= h < |t.handlers| ensures HandlerOk(t.begun, t.db, t.rows, t.handlers[h]) {}
  }

  lemma ApplyOwn(db: Db, f: Refund)
    requires f.keyId in db.owners && db.owners[f.keyId] == f.ownerRef && f.amountUsd > 0.0
    requires f.idemKey in db.applied ==> db.applied[f.idemKey] == f
    ensures f.idemKey in Apply(db, f).0.applied && Succeeded(Apply(db, f).1)
  {
  }

  lemma ApplySettles(s: System, f: Refund)
    requires Inv(s) && Belongs(s.begun, f) && f.keyId in s.db.owners && s.db.owners[f.keyId] == f.ownerRef
    ensures f.idemKey in Apply(s.db, f).0.applied && Succeeded(Apply(s.db, f).1)
  {
    BegunShape(s.requests, s.begun, f.request);
    if f.idemKey in s.db.applied {
      assert IsApplied(s, f.request);
      AppliedIsOwn(s, f.request);
    }
    ApplyOwn(s.db, f);
  }

  // From any state a run can reach, one sweep retry that the database does not
  // refuse settles a queued refund: credited in full if it was not yet, and left
  // alone if it was.
  lemma OneRetrySettles(s: System, row: nat) returns (t: System)
    requires Inv(s) && Enabled(s, ClaimRow(row))
    requires s.rows[row].refund.keyId in s.db.owners
    requires s.db.owners[s.rows[row].refund.keyId] == s.rows[row].refund.ownerRef
    ensures Enabled(Step(s, ClaimRow(row)), RunRetry(|s.retries|, false))
    ensures t == Step(Step(s, ClaimRow(row)), RunRetry(|s.retries|, false)) && Inv(t)
    ensures IsApplied(t, s.rows[row].refund.request)
    ensures Credited(t.db.credits, s.rows[row].refund.request) == s.rows[row].refund.amountUsd
  {
    var f := s.rows[row].refund;
    ClaimRowKeepsInv(s, row);
    var u := Step(s, ClaimRow(row));
    RunRetryKeepsInv(u, |s.retries|, false);
    t := Step(u, RunRetry(|s.retries|, false));
    ApplySettles(s, f);
    CreditedIsAllOrNothing(t, f.request);
  }

  // ---- what becomes of a queued refund ----

  predicate HasRetry(retries: seq<Retry>, i: nat) { exists t :: 0 <= t < |retries| && retries[t].row == i }

  // Where a row stands: waiting, in the hands of a sweep, done, or given up after
  // exactly MAX_REFUND_ATTEMPTS attempts.
  predicate Accounted(row: Row, retries: seq<Retry>, i: nat) {
    match row.status
    case Pending => row.attempts < MAX_REFUND_ATTEMPTS
    case Processing => row.attempts < MAX_REFUND_ATTEMPTS && HasRetry(retries, i)
    case Done => row.attempts < MAX_REFUND_ATTEMPTS
    case Dead => row.attempts == MAX_REFUND_ATTEMPTS
  }

  // A sweep that is still at work has its row to itself.
  predicate SweepsOk(rows: seq<Row>, retries: seq<Retry>) {
    && (forall i :: 0 <= i < |rows| ==> Accounted(rows[i], retries, i))
    && (forall t :: 0 <= t < |retries| ==>
          retries[t].row < |rows| && (retries[t].over || rows[retries[t].row].status == Processing))
    && (forall t, u :: 0 <= t < u < |retries| && !retries[t].over && !retries[u].over ==>
          retries[t].row != retries[u].row)
  }

  lemma RetriesStay(retries: seq<Retry>, after: seq<Retry>, i: nat)
    requires |retries| <= |after| && forall t :: 0 <= t < |retries| ==> after[t].row == retries[t].row
    ensures HasRetry(retries, i) ==> HasRetry(after, i)
  {
    if HasRetry(retries, i) {
      var t :| 0 <= t < |retries| && retries[t].row == i;
      assert after[t].row == i;
    }
  }

  lemma ClaimKeepsSweeps(rows: seq<Row>, retries: seq<Retry>, row: nat)
    requires SweepsOk(rows, retries) && row < |rows| && rows[row].status == Pending
    ensures SweepsOk(rows[row := rows[row].(status := Processing)], retries + [Retry(row, None, false)])
  {
    var after, more := rows[row := rows[row].(status := Processing)], retries + [Retry(row, None, false)];
    forall i | 0 <= i < |after| ensures Accounted(after[i], more, i) {
      assert Accounted(rows[i], retries, i);
      RetriesStay(retries, more, i);
      if i == row { assert more[|retries|].row == i; }
    }
  }

  lemma EndKeepsSweeps(rows: seq<Row>, retries: seq<Retry>, t: nat, row: Row)
    requires SweepsOk(rows, retries) && t < |retries| && !retries[t].over
    requires row == rows[retries[t].row] || exists reverted :: row == Marked(rows[retries[t].row], reverted)
    ensures SweepsOk(rows[retries[t].row := row], retries[t := retries[t].(over := true)])
  {
    var i := retries[t].row;
    var after, more := rows[i := row], retries[t := retries[t].(over := true)];
    assert Accounted(rows[i], retries, i);
    forall j | 0 <= j < |after| ensures Accounted(after[j], more, j) {
      assert Accounted(rows[j], retries, j);
      RetriesStay(retries, more, j);
    }
  }

  lemma StepKeepsSweeps(s: System, e: Event)
    requires SweepsOk(s.rows, s.retries) && Enabled(s, e)
    ensures SweepsOk(Step(s, e).rows, Step(s, e).retries)
  {
    hide SweepsOk, BeginRefund, Transact, Marked;
    match e
    case ClaimRow(row) => ClaimKeepsSweeps(s.rows, s.retries, row);
    case EndRetry(t, heard, written) =>
      var i := s.retries[t].row;
      var row := if written then Marked(s.rows[i], heard && Succeeded(s.retries[t].reply.value)) else s.rows[i];
      EndKeepsSweeps(s.rows, s.retries, t, row);
      assert s.rows[i := s.rows[i]] == s.rows;
    case RunRetry(t, refused) => RunKeepsSweeps(s.rows, s.retries, t, Step(s, e).retries[t]);
    case Enqueue(h, reached, _, _) => InsertKeepsSweeps(s.rows, s.retries, s.handlers[h].refund);
    case _ =>
  }

  lemma RunKeepsSweeps(rows: seq<Row>, retries: seq<Retry>, t: nat, retry: Retry)
    requires SweepsOk(rows, retries) && t < |retries| && retry.row == retries[t].row && retry.over == retries[t].over
    ensures SweepsOk(rows, retries[t := retry])
  {
    forall i | 0 <= i < |rows| ensures Accounted(rows[i], retries[t := retry], i) {
      assert Accounted(rows[i], retries, i);
      RetriesStay(retries, retries[t := retry], i);
    }
  }

  lemma InsertKeepsSweeps(rows: seq<Row>, retries: seq<Retry>, f: Refund)
    requires SweepsOk(rows, retries)
    ensures SweepsOk(Inserted(rows, f), retries)
  {
    var after := Inserted(rows, f);
    forall i | 0 <= i < |after| ensures Accounted(after[i], retries, i) {
      if i < |rows| { assert Accounted(rows[i], retries, i); }
    }
  }

  lemma {:induction false} RunsKeepSweeps(s: System, es: seq<Event>)
    requires SweepsOk(s.rows, s.retries) && IsRun(s, es)
    ensures SweepsOk(After(s, es).rows, After(s, es).retries)
    decreases |es|
  {
    hide SweepsOk, Step, Enabled;
    if |es| == 0 {
    } else {
      StepKeepsSweeps(s, es[0]);
      RunsKeepSweeps(Step(s, es[0]), es[1..]);
    }
  }

  // A sweep that has not ended holds the row.
  predicate AtWork(retries: seq<Retry>, i: nat) {
    exists t :: 0 <= t < |retries| && retries[t].row == i && !retries[t].over
  }

  // A claimed row whose sweeps have all ended without marking it is stranded.
  predicate Stranded(s: System, i: nat) {
    && i < |s.rows| && s.rows[i].status == Processing
    && forall t :: 0 <= t < |s.retries| && s.retries[t].row == i ==> s.retries[t].over
  }

  // In every reachable state a queued refund that is not applied is waiting, or held by
  // a sweep that has not ended, or stranded, or was given up after exactly
  // MAX_REFUND_ATTEMPTS attempts.
  lemma UnappliedRowsAreAccountedFor(s: System, es: seq<Event>, i: nat)
    requires IsStart(s) && IsRun(s, es) && i < |After(s, es).rows|
    requires !IsApplied(After(s, es), After(s, es).rows[i].refund.request)
    ensures var t := After(s, es);
            var row := t.rows[i];
            || (row.status == Pending && row.attempts < MAX_REFUND_ATTEMPTS)
            || (row.status == Processing && row.attempts < MAX_REFUND_ATTEMPTS && AtWork(t.retries, i))
            || (row.attempts < MAX_REFUND_ATTEMPTS && HasRetry(t.retries, i) && Stranded(t, i))
            || (row.status == Dead && row.attempts == MAX_REFUND_ATTEMPTS)
  {
    var t := After(s, es);
    RunsKeepSweeps(s, es);
    StartKeepsInv(s);
    RunKeepsInv(s, es);
    assert Accounted(t.rows[i], t.retries, i);
    assert Belongs(t.begun, t.rows[i].refund);
  }

  // No event ever touches a stranded row again, for only waiting rows are claimed.
  lemma {:induction false} StrandedForEver(s: System, es: seq<Event>, i: nat)
    requires Stranded(s, i) && IsRun(s, es)
    ensures Stranded(After(s, es), i) && After(s, es).rows[i] == s.rows[i]
    decreases |es|
  {
    if |es| == 0 {
    } else {
      StrandedStep(s, es[0], i);
      StrandedForEver(Step(s, es[0]), es[1..], i);
    }
  }

  lemma StrandedStep(s: System, e: Event, i: nat)
    requires Stranded(s, i) && Enabled(s, e)
    ensures Stranded(Step(s, e), i) && Step(s, e).rows[i] == s.rows[i]
  {
    hide BeginRefund, Transact, Marked, HasRow;
  }

  // One round of a sweep that is heard and marked: the row is done when its
  // transaction succeeded; else it has one attempt more, and is given up at the fifth.
  lemma SweepRound(s: System, row: nat, refused: bool) returns (t: System)
    requires SweepsOk(s.rows, s.retries) && Enabled(s, ClaimRow(row))
    ensures var n := |s.retries|; IsRun(s, [ClaimRow(row), RunRetry(n, refused), EndRetry(n, true, true)])
    ensures var n := |s.retries|; t == After(s, [ClaimRow(row), RunRetry(n, refused), EndRetry(n, true, true)])
    ensures SweepsOk(t.rows, t.retries) && |t.rows| == |s.rows| && t.rows[row].refund == s.rows[row].refund
    ensures var success := !refused && Succeeded(Apply(s.db, s.rows[row].refund).1);
            && t.rows[row].attempts == s.rows[row].attempts + (if success then 0 else 1)
            && t.rows[row].status == if success then Done else if s.rows[row].attempts == 4 then Dead else Pending
  {
    hide SweepsOk, Apply, Succeeded;
    var n := |s.retries|;
    var first, second, third := ClaimRow(row), RunRetry(n, refused), EndRetry(n, true, true);
    AttemptsLeft(s, row);
    StepKeepsSweeps(s, first);
    var a := Step(s, first);
    StepKeepsSweeps(a, second);
    var b := Step(a, second);
    assert !Succeeded(Raised) by { NotRaised(); }
    StepKeepsSweeps(b, third);
    t := Step(b, third);
    ThreeEvents(s, a, b, t, first, second, third);
  }

  lemma NotRaised()
    ensures !Succeeded(Raised)
  {
  }

  lemma AttemptsLeft(s: System, row: nat)
    requires SweepsOk(s.rows, s.retries) && row < |s.rows| && s.rows[row].status == Pending
    ensures s.rows[row].attempts < MAX_REFUND_ATTEMPTS
  {
    assert Accounted(s.rows[row], s.retries, row);
  }

  // So a row that is refused again and again is given up at its fifth round, and not
  // before.
  lemma DeadAfterFiveRounds(s: System, row: nat) returns (states: seq<System>)
    requires SweepsOk(s.rows, s.retries) && row < |s.rows| && s.rows[row].status == Pending
    requires s.rows[row].attempts == 0
    ensures |states| == 6 && states[0] == s && forall k :: 0 <= k < 6 ==> row < |states[k].rows|
    ensures forall k :: 0 <= k < 5 ==>
              var n := |states[k].retries|; var es := [ClaimRow(row), RunRetry(n, true), EndRetry(n, true, true)];
              states[k].rows[row].status == Pending && IsRun(states[k], es) && After(states[k], es) == states[k + 1]
    ensures states[5].rows[row].status == Dead
  {
    hide SweepsOk, Enabled, Step, IsRun, After, Apply;
    var a := RefusedRound(s, row);
    var b := RefusedRound(a, row);
    var c := RefusedRound(b, row);
    var d := RefusedRound(c, row);
    var e := RefusedRound(d, row);
    states := [s, a, b, c, d, e];
  }

  lemma RefusedRound(s: System, row: nat) returns (t: System)
    requires SweepsOk(s.rows, s.retries) && row < |s.rows| && s.rows[row].status == Pending
    ensures var n := |s.retries|; var es := [ClaimRow(row), RunRetry(n, true), EndRetry(n, true, true)];
            IsRun(s, es) && t == After(s, es)
    ensures SweepsOk(t.rows, t.retries) && row < |t.rows|
    ensures t.rows[row].attempts == s.rows[row].attempts + 1
    ensures t.rows[row].status == if s.rows[row].attempts == 4 then Dead else Pending
  {
    t := SweepRound(s, row, true);
  }

  // A claimed row is never touched again, whatever happens, exactly when it is
  // stranded: a sweep that has not ended may still mark it.
  lemma NeverTouchedIffStranded(s: System, i: nat)
    requires i < |s.rows| && s.rows[i].status == Processing
    ensures (forall es: seq<Event> :: IsRun(s, es) ==> i < |After(s, es).rows| && After(s, es).rows[i] == s.rows[i])
            <==> Stranded(s, i)
  {
    hide BeginRefund, Transact, HasRow;
    if Stranded(s, i) {
      forall es: seq<Event> | IsRun(s, es)
        ensures i < |After(s, es).rows| && After(s, es).rows[i] == s.rows[i]
      {
        StrandedForEver(s, es, i);
      }
    } else {
      var t :| 0 <= t < |s.retries| && s.retries[t].row == i && !s.retries[t].over;
      var e := EndRetry(t, false, true);
      var u := Step(s, e);
      assert IsRun(u, []) && After(u, []) == u;
      assert [e][1..] == [] && IsRun(s, [e]) && After(s, [e]) == u;
      assert u.rows[i].attempts == s.rows[i].attempts + 1;
      var es := [e];
      assert IsRun(s, es) && After(s, es).rows[i] != s.rows[i];
    }
  }

  // Any waiting row comes to that when the sweep that claims it dies before marking it.
  lemma DeadSweepStrands(s: System, row: nat) returns (t: System)
    requires SweepsOk(s.rows, s.retries) && Enabled(s, ClaimRow(row))
    ensures Enabled(Step(s, ClaimRow(row)), EndRetry(|s.retries|, false, false))
    ensures t == Step(Step(s, ClaimRow(row)), EndRetry(|s.retries|, false, false)) && Stranded(t, row)
  {
    t := Step(Step(s, ClaimRow(row)), EndRetry(|s.retries|, false, false));
  }
}
