# Gateway cores, verified

This project models the self-contained cores of an agent-to-agent payment gateway
and proves what the gateway relies on them for. Everything is written in Dafny 4.11;
`dafny verify dfyconfig.toml` checks it all.

The cores, and the main results about each:

- **Contracting protocol** (`Contracting`, `Network`, `Lineages`, `RoundTrips`,
  `NetworkLimits`, `ContractingCost`). Gateways that hire one another forward a chain of
  hosts and a depth. Printing and reading the chain are inverse exactly on canonical,
  comma-free hosts, the links. Whatever hosts are announced along a lineage, the verdict
  on it is determined by what becomes of them: a host is split at its commas once and
  canonicalized once per hop. A link stays itself, so no gateway on a lineage owns the
  link of an earlier one. A gateway accepts the request it sends itself exactly when its
  ceiling is above 1 and its announced host falls into parts that the ceiling admits,
  each readable and none its own; around through strangers, exactly when it does not
  recognise what has become of its host by then. Both happen in ordinary configurations:
  `BASE_URL` "a,b" and the host "a.." (of two final dots one stays) let a gateway accept
  its own request again, while "a,,b" is refused as unreadable. Among honest gateways
  with ceilings up to S, a reader of ceiling D can be sent a chain it calls malformed
  exactly when S is at least D + 2, or 17; under one shared ceiling of at most 16 it
  never is. One request causes at most (5^(D+1)-1)/4 requests and (5^(D+1)-5)/4 step
  debits however the network is wired, whatever the hosts, as long as every gateway has
  a host to announce, be it configured or taken from the request; a gateway that may
  invoke itself is bounded exactly when it has one.
- **Base-58 decoding** (`Base58`). The in-place carry loop returns the big-endian
  bytes of exactly the text's value with one zero byte per leading `1`; decoding is a
  bijection from base-58 texts onto non-empty byte strings, so no two texts name one
  key.
- **Step-0 refunds** (`RefundKey`, `Step0Refund`). Handlers, database transactions
  that commit and lose their answer, outbox writes and sweep retries interleave
  freely, enqueues repeat and lose their answers; what is credited for a request is
  nothing or exactly its debit, never twice, and it is queued at most once. A call begins
  a refund exactly when one is due, and undisturbed it is credited in full. A handler
  ends with the refund applied, queued, or without word that the outbox write went
  through. A queued refund that is not applied is waiting, held by a sweep that has not
  ended, stranded, or given up after exactly five attempts. A claimed row is never
  touched again exactly when it is stranded, that is when all its sweeps have ended
  without marking it, because only waiting rows are claimed. One unrefused retry settles.
- **Exact decimals** (`Decimal`, `AtomicAmount`, `DepositMinimum`). Expanding a
  printed exponent keeps the exact value; the deposit guard credits nothing without a
  usable minimum and otherwise decides on exact values although it truncates; amounts
  print and parse back.
- **Circuit breaker** (`CircuitBreakers`). `execute` is split where it awaits, and
  calls in flight interleave. The failure count is exact, a failure opens the breaker
  exactly at the threshold, and an open one recovers from the end of its cooldown on. In a
  reachable open state the rest of the cooldown is respected exactly when no half-open
  probe is in flight, and half-open admits more than one.
- **Money gates** (`Chains`, `Registries`, `SettleErrors`, `OnChain`, `SkipCodes`,
  `Downstream`, `DownstreamSafety`). Which chains an environment starts, what a receipt
  proves, and why a leg is not paid are each characterised exactly, from the environment,
  the receipt and the leg alone. In every registry reachable by successful and
  failing start-ups, a slug that says test money has a bundle on test money; an
  unchecked settlement is let through exactly there; a leg settles at most once, on
  real money only when the card and an allow-list entry both spell out that mainnet,
  every refusal leaves a leg-cutting code, and an EVM settlement that threw with an
  unknown outcome or failed with a hash is never told as unpaid. A settle request lost
  in transport is told as unpaid exactly on proof that it never left, or when the adapter
  speaks x402, whose error does not say.
- **Globs** (`Regex`, `Glob`, `GlobParse`, `GlobMeaning`, `GlobLimits`). The compiler
  from file globs to regular expressions preserves meaning, by way of a parser for the
  emitted expressions and their languages.
- **Input mapping** (`InputMapping`) and **resume tokens** (`Base64Url`,
  `ResumeTokens`).

`Text`, `Positional` and `Wrappers` hold the string operations, positional numbers and
result types the others share.

Conventions. A class whose methods await is split at the await into methods that do not;
each such method equals a transition on values, and runs are sequences of transitions
in any order. The environment, the clock, nodes, adapters, the facilitator and
cryptographic primitives are parameters or arbitrary answers. Strings are sequences of
characters of the basic multilingual plane. A start-up of the registry awaits each
factory: `Registry.InitAdapters` is the undisturbed start-up, and its registrations and
its end are events of their own, so that the statements about reachable registries
cover start-ups that overlap.

Where the code and its documentation differ, the model follows the code:

- `src/lib/circuit-breaker.ts:5` lists the two ways out of half-open as if one call
  decided; the code admits any number of half-open calls at once
  (`CircuitBreakers.CooldownHoldsIffNoProbe`, `CircuitBreakers.SecondProbeDefeatsCooldown`).
- `src/lib/contracting-chain.ts:713-721` sizes the header budget for links of the
  longest legal length; its absolute cap of 4096 characters is too small for them
  from a ceiling of 17 on (`NetworkLimits.HonestLineageOverflows`).
- `src/lib/contracting-chain.ts:124-125` leaves cycles to the chain; a host with a comma
  or with more than one final dot is not in it as announced
  (`Lineages.OwnRequestAgainIff`, `RoundTrips.RoundTripIff`).
- `src/adapters/errors.ts:115-141` reserves "unpaid" for proof that nothing was sent; the
  x402 adapters throw a plain error when the settle request fails
  (`src/adapters/avalanche/payment.ts:331-335` and its likes), which is told as unpaid
  whatever the cause (`DownstreamSafety.TransportFailure`).
- `test/readme-numbers.test.ts:104-105` documents `*`, `?` and `{a,b}` side by side;
  a wildcard inside braces is emitted unescaped and changes meaning
  (`GlobLimits.FaithfulIffNoWildcardInBraces`).
- `SETTLE_FAILED` is documented as "not paid", yet an EVM settlement that answers
  success with an empty hash is given it
  (`DownstreamSafety.SuccessWithoutHashIsToldAsUnpaid`), and so is a Solana one that
  answers failure with a hash (`DownstreamSafety.SolanaUnknownIsNotUnpaid`).

## Model

| member | source | states |
|---|---|---|
| Base58.CarryDigit | src/lib/ed25519.ts:82-94 | the two inner loops compute one pass of multiply-and-add in place; that the carry stays at most 57 between digits is their invariant |
| Base58.MulAddMeaning | src/lib/ed25519.ts:85-93 | that pass has exactly the value 58 * acc + carry and never a useless high byte |
| Base58.Decode | src/lib/ed25519.ts:79-101 | the whole decoder, loops, leading ones and reversal, equals radix conversion of the text, and fails exactly on texts outside the alphabet or empty |
| Base58.PushZeros | src/lib/ed25519.ts:97-99 | the last loop pushes one zero byte per leading `1` |
| Base58.DecodedMeaning | src/lib/ed25519.ts:79-101 | the bytes have exactly the text's base-58 value and as many leading zero bytes as the text has leading ones |
| Base58.DecodeEncode | src/lib/ed25519.ts:79-101 | every non-empty byte string is the decoding of some text |
| Base58.EncodeDecode | src/lib/ed25519.ts:79-101 | every text is the one text of its bytes |
| Base58.OneTextPerKey | src/lib/ed25519.ts:79-101 | two texts with the same bytes are the same text |
| Base58.AcceptedSignature | src/lib/ed25519.ts:112-145 | a signature is accepted exactly when its texts are the texts of a 32-byte key and of 64 bytes that the primitive answers true for |
| AtomicAmount.MovePointIsExact | src/lib/atomic-amount.ts:122-137 | on all three positions of the point the output is a plain decimal of exactly the shifted value |
| AtomicAmount.ExpandExponentIsExact | src/lib/atomic-amount.ts:116-137 | the expansion of a mantissa and an exponent has exactly the value mantissa * 10^exponent |
| AtomicAmount.ScientificForm | src/lib/atomic-amount.ts:116-121 | a plain mantissa, a mark in either case, a sign or none and digits are read as that mantissa and that exponent |
| AtomicAmount.ExponentMeansScientific | src/lib/atomic-amount.ts:103-106 | the exponent mark is found exactly in the exponent form |
| AtomicAmount.ToPlainDecimalStringIsExact | src/lib/atomic-amount.ts:103-113 | for every number text the output is plain, keeps the sign and denotes the same number; non-finite words pass through |
| Decimal.ComparedOnAnyGrid | src/lib/deposit-minimum.ts:44-45 | exact decimal values compare the same on every common grid |
| DepositMinimum.ToMicroUsdIsFloor | src/lib/deposit-minimum.ts:65-73 | parsing a plain decimal gives the largest micro-dollar amount not above its exact value; other texts give nothing |
| DepositMinimum.MinimumIsExact | src/lib/deposit-minimum.ts:104-113 | the environment is usable exactly when it is a plain decimal with at most six decimals and at least one micro-dollar, and then it is read without loss |
| DepositMinimum.GuardIsExact | src/lib/deposit-minimum.ts:170-190 | for every environment and amount: nothing is credited without a plain decimal of at most six decimals worth at least one micro-dollar; with one, exactly the plain amounts worth at least it are, and the others are told exactly that minimum |
| DepositMinimum.EnvStatusIsExact | src/lib/deposit-minimum.ts:132-160 | the environment is reported absent exactly when it is blank, configured exactly when it is usable |
| DepositMinimum.FormatThenParse | src/lib/deposit-minimum.ts:83-88 | a printed amount parses back to itself, for all amounts |
| DepositMinimum.FormatIsInjective | src/lib/deposit-minimum.ts:83-88 | no two amounts print alike |
| DepositMinimum.PublishedMinimum | src/lib/deposit-minimum.ts:132-190 | the published minimum is itself a valid configuration, credits, and one micro-dollar less does not |
| CircuitBreakers.CircuitBreaker.BeginExecute | src/lib/circuit-breaker.ts:44-56 | a closed breaker gives an ordinary call; an open one rejects exactly before the end of the cooldown, else goes half-open; half-open gives a probe; the counters stay |
| CircuitBreakers.CircuitBreaker.EndProbe | src/lib/circuit-breaker.ts:56-71 | success closes and clears; failure opens and restarts the cooldown, and keeps the counters |
| CircuitBreakers.CircuitBreaker.EndCall | src/lib/circuit-breaker.ts:73-89 | success clears the counters exactly when the window was over before the call began; failure is recorded |
| CircuitBreakers.CircuitBreaker.RecordFailureNow | src/lib/circuit-breaker.ts:92-110 | the failure is added to a running window or starts one, and the breaker opens exactly at the threshold |
| CircuitBreakers.CircuitBreaker.Reset | src/lib/circuit-breaker.ts:124-129 | a manual reset gives the fresh breaker |
| CircuitBreakers.FailureIsCounted | src/lib/circuit-breaker.ts:92-110 | after recording, the counter is the number of failures recorded in the current window |
| CircuitBreakers.StepKeepsInv | src/lib/circuit-breaker.ts:44-129 | every event keeps the count exact and a closed breaker below its threshold |
| CircuitBreakers.FailuresAreCounted | src/lib/circuit-breaker.ts:44-110 | in every reachable state the count is exact, and a closed breaker has fewer failures than the threshold |
| CircuitBreakers.TripsAreJustified | src/lib/circuit-breaker.ts:56-110 | each move to open is a failed probe or at least threshold failures in one window |
| CircuitBreakers.OpensAtThreshold | src/lib/circuit-breaker.ts:92-110 | in every reachable state that is not open, a failed call opens the breaker exactly when it brings its window to the threshold |
| CircuitBreakers.SuccessForgetsExpired | src/lib/circuit-breaker.ts:73-81 | in every reachable state a success forgets the failures of a window exactly when the window was over before its call began |
| CircuitBreakers.RecoversAfterCooldown | src/lib/circuit-breaker.ts:47-63 | every reachable open breaker starts a function exactly from the end of its cooldown on, as a half-open probe, whose success leaves a closed breaker without failures that lets calls through |
| CircuitBreakers.CoolingStep | src/lib/circuit-breaker.ts:47-54 | while open with no probe in flight, a wrapped function starts only once the cooldown is over, and late completions only push that later |
| CircuitBreakers.CooldownIsRespected | src/lib/circuit-breaker.ts:47-110 | along any run without a reset, from open with no probe in flight, nothing starts before cooldownMs after the last failure |
| CircuitBreakers.ProbeInFlightDefeatsCooldown | src/lib/circuit-breaker.ts:56-71 | from every open state with a probe in flight and an unfinished cooldown, that probe's success lets a call start too early |
| CircuitBreakers.CooldownHoldsIffNoProbe | src/lib/circuit-breaker.ts:44-110 | in every reachable open state with an unfinished cooldown, the rest of it is respected along every run without a reset exactly when no probe is in flight |
| CircuitBreakers.SecondProbeDefeatsCooldown | src/lib/circuit-breaker.ts:56-71 | such a state is reached from a fresh breaker, for every cooldown |
| Contracting.CanonicalizedShape | src/lib/contracting-chain.ts:345-386 | canonicalizing lower-cases and drops one final dot, nothing else; it is a fixed point exactly when no dot is left |
| Contracting.ReadAsHostIff | src/lib/contracting-chain.ts:345-386 | a text is read as a host exactly when it is nothing but a host, in lower case and less one final dot, of at most 253 characters |
| Contracting.EverySpellingIsRecognised | src/lib/contracting-chain.ts:345-386 | every case variant of a canonical host, with or without the final dot, canonicalizes to it |
| Contracting.ClassifySelfHosts | src/lib/contracting-chain.ts:410-436 | the loop over the entries equals its specification: absent, configured, or invalid on an unreadable or repeated entry |
| Contracting.ConfiguredEnv | src/lib/contracting-chain.ts:410-436 | a usable identity is non-empty, without repetition and without commas |
| Contracting.SelfHostsMeaning | src/lib/contracting-chain.ts:410-436 | the list is absent exactly when blank, and usable exactly when every entry reads as a host and no two as the same, which then are the identity in order |
| Contracting.ResolveSelfHosts | src/lib/contracting-chain.ts:584-604 | the identity is the configured hosts with the hint appended if new, and the canonical id is its first |
| Contracting.ConfiguredMeaning | src/lib/contracting-chain.ts:392-400 | the configured identity is the host of `BASE_URL`, whole URL or bare host, first, and those of the list |
| Contracting.IdentityIsHosts | src/lib/contracting-chain.ts:584-604 | whatever the configuration and the hint, every host of the identity is trimmed, not empty and at most 253 characters long |
| Contracting.HintOnlyEnlarges | src/lib/contracting-chain.ts:584-604 | the hint never removes or moves a configured host, nor the canonical id |
| Contracting.HintAloneDefinesIdentity | src/lib/contracting-chain.ts:584-604 | without configuration every readable hint becomes the whole identity, lower-cased and less one final dot, in any spelling, and every unreadable one empties it |
| Contracting.NoSpellingSlipsThrough | src/lib/contracting-chain.ts:940-956 | a destination is ours exactly when its host canonicalizes to one of our hosts; that is so in every case and with a final dot |
| Contracting.DigitsToInt | src/lib/contracting-chain.ts:262-268 | the digit loop returns the number of the digits |
| Contracting.CeilingIsObeyedInRange | src/lib/contracting-chain.ts:643-656 | a configured ceiling is obeyed exactly when it is a readable number from 1 to 64; everything else means the default, so 0 is never obeyed |
| Contracting.ReadLinks | src/lib/contracting-chain.ts:806-818 | the loop reads every element's canonical host, or none if one is unreadable |
| Contracting.ReadInboundContracting | src/lib/contracting-chain.ts:769-842 | the six steps, in their order, equal the verdict function |
| Contracting.VerdictMeaning | src/lib/contracting-chain.ts:769-842 | every verdict for every pair of headers: malformed exactly when the chain does not read within 254 characters per link and 4096 in all, or the depth is not one to three digits; a loop exactly when a host read is an own one; then the ceiling decides |
| Contracting.CanonicalizeAllMeaning | src/lib/contracting-chain.ts:806-818 | a chain is read exactly when each element trims and canonicalizes to its link |
| Network.LinksSurvive | src/lib/contracting-chain.ts:1139-1149 | a chain printed and read again is itself exactly when every host is canonical and comma-free |
| Network.ReadBack | src/lib/contracting-chain.ts:769-842 | what one gateway prints, any other reads, whatever the two ceilings, as too long for its budget, as too many links, or as the chain with the printer's link and one more depth: a loop if owned, depth exceeded at its ceiling, accepted otherwise |
| Network.FitsUpToSixteen | src/lib/contracting-chain.ts:722-727 | a chain of at most 16 links fits the budget of every reader that admits their number |
| Network.HonestReadBack | src/lib/contracting-chain.ts:769-842 | so a printed chain of at most 16 links is malformed for a reader exactly when it has more links than its ceiling and one |
| Network.NextHop | src/lib/contracting-chain.ts:769-842 | a hop that carries its predecessor's headers reads its chain with its link appended, one deeper, every host that is a link unchanged |
| Network.NoGatewayTwice | src/lib/contracting-chain.ts:829-834 | whatever headers and hints, no gateway on an honest path owns the link of an earlier one |
| Network.NoIdTwice | src/lib/contracting-chain.ts:829-834 | so the announced links along the path are pairwise different |
| Network.ChainIsThePath | src/lib/contracting-chain.ts:1139-1149 | a lineage begun without headers carries exactly the links passed, in order, and its depth is their number |
| Lineages.CarriedNext | src/lib/contracting-chain.ts:806-818 | one more hop canonicalizes everything carried so far once more, and splits and reads the new host for the first time |
| Lineages.VerdictOnLineage | src/lib/contracting-chain.ts:769-842 | what any gateway makes of a lineage begun without headers, in terms of the hosts announced along it, commas and final dots included |
| Lineages.NoneIsRecognised | src/lib/contracting-chain.ts:829-834 | a gateway on a lineage recognises no earlier one in what has become of that one's host, and is nearer than its ceiling |
| Lineages.LinkIsRecognised | src/lib/contracting-chain.ts:345-386 | a link is what it was at every distance |
| Lineages.LinkIsNeverPassedTwice | src/lib/contracting-chain.ts:829-834 | so among gateways of any kind, no later one knows itself by the link of an earlier one |
| Lineages.OwnRequestAgainIff | src/lib/contracting-chain.ts:769-842 | a gateway accepts the request it sends itself exactly when its ceiling is above 1 and the parts of its announced host are no more than the ceiling and one, all readable and none its own, hints included |
| RoundTrips.RoundTripIff | src/lib/contracting-chain.ts:769-842 | around through given strangers a gateway accepts its own request again exactly when the ceiling admits the hops and links and it does not recognise its host by then |
| NetworkLimits.SeventeenLongestHostsOverflow | src/lib/contracting-chain.ts:722-727 | from 17 on, seventeen hosts of 253 characters print a chain every reader refuses, whatever its ceiling, after a chain of sixteen that was accepted |
| NetworkLimits.HonestLineageOverflows | src/lib/contracting-chain.ts:722-727 | for every ceiling from 17 to 64 there is an honest lineage of seventeen gateways, begun without headers, whose last header no gateway of any ceiling can read |
| NetworkLimits.MalformedAmongHonestIff | src/lib/contracting-chain.ts:769-805 | among honest gateways with ceilings up to S, a reader of ceiling D can be sent a malformed chain exactly when S >= D + 2 or S >= 17 |
| NetworkLimits.CommaHidesTheLoop | src/lib/contracting-chain.ts:345-386 | an announced host of two links with a comma between them lets its gateway accept its own request again |
| NetworkLimits.BaseUrlCanHoldAComma | src/lib/contracting-chain.ts:392-400 | a gateway configured by the `BASE_URL` "a,b" accepts its own request again |
| NetworkLimits.TwoFinalDotsHideTheLoop | src/lib/contracting-chain.ts:376-385 | so does one configured as "a..", by `BASE_URL` or by `A2A_SELF_HOSTS` |
| NetworkLimits.EmptyPartIsRefused | src/lib/contracting-chain.ts:806-818 | what a gateway configured as "a,,b" prints, no gateway can read |
| NetworkLimits.DotsHideTheLoopLater | src/lib/contracting-chain.ts:376-385 | a gateway known as "a.." and "a." refuses the request it sends itself and accepts it from another gateway |
| ContractingCost.StepPaysForItself | src/lib/contracting-chain.ts:100-119 | handling a request never increases handled plus the weight in flight, and the same for debits |
| ContractingCost.RunPaysForItself | src/lib/contracting-chain.ts:100-119 | nor does any run |
| ContractingCost.BoundInClosedForm | src/lib/contracting-chain.ts:107 | the weights are the power sums, in closed form |
| ContractingCost.CostIsBounded | src/lib/contracting-chain.ts:100-119 | with ceilings of at most D and a host to announce for every gateway, configured or from the hint, one request without headers causes at most (5^(D+1)-1)/4 requests and (5^(D+1)-5)/4 debits, and every run ends |
| ContractingCost.PublishedTable | src/lib/contracting-chain.ts:109-116 | the documented figures for ceilings 1, 2 and 3 |
| ContractingCost.NoIdentityNoBound | src/lib/contracting-chain.ts:1139-1144 | every request whose gateway has no host to announce starts runs of any length |
| ContractingCost.BoundedIffAnnounced | src/lib/contracting-chain.ts:1139-1149 | a gateway that may invoke itself is bounded exactly when it has a host to announce |
| RefundKey.SplitKey | src/lib/refund-idem.ts:117-125 | what a key shows of its parts; only the slot may hold colons |
| RefundKey.KeyIsInjective | src/lib/refund-idem.ts:117-125 | distinct refunds have distinct keys when key id and operation id hold no colon |
| RefundKey.ColonCollides | src/lib/refund-idem.ts:117-125 | with a colon two refunds can share a key |
| Step0Refund.FastifyRequest.RequestRefundIdemBase | src/lib/refund-idem.ts:93-99 | the base is fixed by the first call |
| Step0Refund.FastifyRequest.BeginStep0Refund | src/lib/step0-refund.ts:82-110 | guards, flag before the await, and key, as one transition of the request: a refund of exactly the debit is begun exactly when one is due |
| Step0Refund.StepKeepsInv | src/lib/step0-refund.ts:112-202 | handler calls, credits, lost replies, outbox writes and sweeps keep the ledger invariant |
| Step0Refund.EnqueueKeepsInv | src/services/refund-outbox.ts:92-133 | an outbox insert, deduplicated by key, heard of or not, and repeated or not, keeps it |
| Step0Refund.SecondEnqueueAddsNothing | src/lib/step0-refund.ts:153-201 | once a refund is in the outbox, enqueueing it again leaves the outbox as it is |
| Step0Refund.QueuedAtMostOnce | src/services/refund-outbox.ts:92-133 | in every reachable state a request has at most one row, however often its refund was enqueued |
| Step0Refund.EndRetryKeepsInv | src/services/refund-outbox.ts:176-282 | marking a row done, pending or dead keeps it |
| Step0Refund.RunKeepsInv | src/lib/step0-refund.ts:78-203 | and so does every run |
| Step0Refund.ApplySettles | supabase/migrations/20260727000000_hu194_refund_idempotency.sql:158-316 | a transaction with the right owner leaves the refund applied and answers at least one row, whether or not it was applied before |
| Step0Refund.CreditedIsAllOrNothing | src/lib/refund-idem.ts:6-19 | what is credited for a request is the whole refund if it is applied and nothing otherwise |
| Step0Refund.RefundedAtMostOnce | src/lib/step0-refund.ts:78-203 | over every interleaving the credited total is nothing or exactly what the request was debited: its compose estimate, else its gasless one, else a dollar; and nothing unless a refund was due |
| Step0Refund.CallBegins | src/lib/step0-refund.ts:78-110 | a call begins a refund, of exactly the debit, exactly when the request was debited something, its guards pass and none was begun; any other call changes nothing |
| Step0Refund.DebitIsExact | src/lib/step0-debit.ts:28-34 | the amount is the compose estimate, else the gasless one, else a dollar |
| Step0Refund.ApplyIsExact | supabase/migrations/20260727000000_hu194_refund_idempotency.sql:158-316 | a transaction succeeds exactly for the key's owner, a positive amount and a key that is new or this refund's own, and credits exactly when the key is new |
| Step0Refund.ApplyTwice | supabase/migrations/20260727000000_hu194_refund_idempotency.sql:158-316 | the same transaction again succeeds and moves nothing |
| Step0Refund.UndisturbedRefund | src/lib/step0-refund.ts:78-184 | a due refund whose transaction is not refused and whose answer is heard is credited in full, with nothing queued |
| Step0Refund.FailureIsQueued | src/lib/step0-refund.ts:151-202 | a refused transaction or a lost answer, and an outbox write that goes through, leave the refund waiting in the outbox, once |
| Step0Refund.NothingIsForgotten | src/lib/step0-refund.ts:153-201 | every finished handler ends applied, queued under the same key, or without word that its outbox write went through; a done row is applied |
| Step0Refund.UnappliedRowsAreAccountedFor | src/services/refund-outbox.ts:145-282 | in every reachable state an unapplied row is waiting, or held by a sweep that has not ended, or claimed once and stranded, or dead after exactly MAX_REFUND_ATTEMPTS attempts |
| Step0Refund.StrandedForEver | supabase/migrations/20260627000000_wkh_audit_m6_refund_outbox.sql:57-76 | a claimed row whose sweeps have all ended without marking it is never touched again |
| Step0Refund.NeverTouchedIffStranded | supabase/migrations/20260627000000_wkh_audit_m6_refund_outbox.sql:57-76 | a claimed row is never touched again, on any run, exactly when all its sweeps have ended without marking it |
| Step0Refund.DeadSweepStrands | src/services/refund-outbox.ts:220-282 | a sweep that dies before marking its row strands it |
| Step0Refund.SweepRound | src/services/refund-outbox.ts:176-282 | one round of a sweep marks the row done exactly when its transaction succeeded, else counts an attempt and gives the row up at the fifth |
| Step0Refund.DeadAfterFiveRounds | src/services/refund-outbox.ts:220-282 | a row that is refused again and again is given up after five rounds, and not before |
| Step0Refund.OneRetrySettles | src/services/refund-outbox.ts:176-217 | one unrefused retry of a pending row leaves exactly its amount credited |
| Chains.MainnetIsSpelledOut | src/adapters/chain-resolver.ts:20-99 | an alias of a mainnet is its full slug or its chain id, and never a bare network name |
| Chains.NormalizeMeaning | src/adapters/chain-resolver.ts:20-99 | a text names a chain exactly when, trimmed and in lower case, it is one of that chain's names |
| Chains.FoldIsExact | src/adapters/chain-resolver.ts:419-423 | letters match in either case and the Kelvin sign matches a k; every other character matches itself only |
| Chains.AmbiguousMeaning | src/adapters/chain-resolver.ts:207-212 | the texts that leave the environment open are the four bare network names that are aliases |
| Chains.Caip2Meaning | src/adapters/chain-resolver.ts:351-355 | an identifier means real money exactly when its reference, with or without the `solana:` namespace in either case, begins like the mainnet cluster or has the word in it |
| Chains.SolanaMainnetIsCaught | src/adapters/chain-resolver.ts:349-355 | the mainnet cluster is recognised with and without its namespace |
| Registries.NamedMeaning | src/adapters/registry.ts:346-380 | with WASIAI_A2A_CHAINS set the named chains are those of its entries whatever the older variable says, else those of WASIAI_A2A_CHAIN, else Kite's test network alone; an entry names a chain exactly when it is its slug, trimmed and in lower case, and the rail is enabled |
| Registries.NamedInOrder | src/adapters/registry.ts:354-372 | blank entries count for nothing; every other one counts in its place, as the enabled chain whose slug it is or as unsupported |
| Registries.Registry.InitAdapters | src/adapters/registry.ts:330-394 | a start-up is the start transition over the chains the environment names; with no chain variable set it starts Kite's test network or nothing |
| Registries.Registry.StartNamed | src/adapters/registry.ts:361-391 | nothing changes unless every slug is supported; bundles registered before a throw stay |
| Registries.Registry.RegisterAll | src/adapters/registry.ts:382-388 | the loop registers the keys up to the first that fails to build or to pass the checks |
| Registries.Distinct | src/adapters/registry.ts:374-380 | the de-duplicating loop keeps first appearances |
| Registries.DistinctKeysMeaning | src/adapters/registry.ts:374-380 | each named key once, the first one first |
| Registries.Registry.GetAdaptersBundle | src/adapters/registry.ts:481-488 | the bundle of the key, or of the default key, or none |
| Registries.Registry.ResetRegistry | src/adapters/registry.ts:557-561 | back to the empty registry |
| Registries.RegisteredMeaning | src/adapters/registry.ts:382-388 | whatever is new after registering was built by its factory and passed both checks; nothing is dropped |
| Registries.StartSucceedsIff | src/adapters/registry.ts:330-394 | start-up succeeds exactly when some chain is named, all are supported and all build coherently; then each has its factory's bundle and the first is the default |
| Registries.StartFailure | src/adapters/registry.ts:359-388 | a start-up fails because nothing is named, at the first unsupported entry, or at a key whose factory or checks fail; only the last of these may have registered anything |
| Registries.BuiltIsExact | src/adapters/registry.ts:221-328 | a factory's bundle is refused exactly when its destination contradicts the slug or its adapter signs on real money under a test slug |
| Registries.LookUp | src/adapters/registry.ts:481-488 | a look-up needs a finished start-up, and a key that is not registered is not given the default's bundle |
| Registries.StepKeepsInv | src/adapters/registry.ts:221-328 | every start-up, single registration, end of a start-up or reset leaves only coherent bundles |
| Registries.RunKeepsInv | src/adapters/registry.ts:330-394 | so does every run of them |
| Registries.StartIsItsSteps | src/adapters/registry.ts:382-391 | an undisturbed start-up is a series of single registrations and, if it succeeds, its end |
| Registries.SlugsTellTheTruth | src/adapters/registry.ts:221-306 | in every reachable registry a bundle's destination is what its slug says, and a test-money slug's adapter signs on test money |
| Registries.SignsElsewhereIffMainnet | src/adapters/registry.ts:272-306 | of the EVM keys, exactly the mainnet ones can be registered with an adapter that signs in the other environment |
| SettleErrors.ClassifySettleTransportError | src/adapters/errors.ts:296-313 | the bounded walk says not-sent exactly when one of the first eight causes has a code that proves it |
| SettleErrors.ProofIsFoundWithinReach | src/adapters/errors.ts:187-313 | the proof is found behind up to seven wrappers and no more, and is one of four codes |
| SettleErrors.NodeSaysNoReceipt | src/adapters/settle-verifier.ts:167-191 | the walk says no-receipt exactly when one of the first eight causes is an Error with one of the two names |
| SettleErrors.NoReceiptIsFoundWithinReach | src/adapters/settle-verifier.ts:167-191 | the answer is found behind up to seven wrappers and no more, and is one of two names, on Errors only |
| OnChain.SumTransfers | src/adapters/settle-verifier.ts:325-350 | the loop finds whether a transfer of the token was seen and the total of all transfers to payTo |
| OnChain.OneTransfer | src/adapters/settle-verifier.ts:325-350 | one log pays exactly what it transfers when contract and recipient match in any spelling, else nothing |
| OnChain.AddressShape | src/adapters/settle-verifier.ts:255-290 | an address is 0x and forty hexadecimal digits in either case |
| OnChain.VerifySettledTx | src/adapters/settle-verifier.ts:255-364 | each verdict is given exactly when the chain shows what it says, the second attempt at a receipt counting only when the first threw; could-not-check goes by the slug |
| OnChain.UncheckedOnlyOnTestnet | src/adapters/settle-verifier.ts:228-237 | in every reachable registry an unchecked settlement is let through exactly when the real destination is test money |
| OnChain.FindDeposit | src/adapters/deposit-verifier.ts:360-388 | the loop stops at the first matching transfer |
| OnChain.FirstPaymentMeaning | src/adapters/deposit-verifier.ts:360-388 | the transfer found is that of the first log that pays |
| OnChain.VerifyDeposit | src/adapters/deposit-verifier.ts:293-426 | a deposit is credited, with this amount and depositor, exactly when the chain shows it; each refusal is given exactly when the chain shows what it says |
| OnChain.FirstIsPartOfTotal | src/adapters/deposit-verifier.ts:360-396 | the first matching transfer is at most the total, and exists exactly when some payment does |
| OnChain.CreditedDepositSettles | src/adapters/settle-verifier.ts:325-361 | a credited deposit passes the settle verifier's log check for every requirement up to its amount |
| OnChain.DepositThenSettle | src/adapters/settle-verifier.ts:255-364 | between well-formed addresses the settle verifier accepts a credited deposit for every requirement up to its amount |
| SkipCodes.CapturingLogger.Log | src/lib/downstream-skip-code.ts:532-559 | a skip code is captured, a notice is not |
| SkipCodes.CapturingLogger.NoteSkip | src/lib/downstream-skip-code.ts:515-521 | a noted code is captured without a log line |
| Downstream.AllowedIffNamed | src/lib/downstream-payment.ts:186-194 | the allow-list admits a key exactly when some comma-separated entry names it |
| Downstream.ZeroAddressMeaning | src/lib/downstream-payment.ts:216-229 | among well-formed addresses the refused one is the one with no digit but 0 |
| Downstream.RouteLeg | src/lib/downstream-payment.ts:593-748 | flag, card, method, chain, drift and mainnet gates in order; FLAG_OFF is captured on every request although logged once |
| Downstream.EvmChecks | src/lib/downstream-payment.ts:759-911 | payTo, price, amount and balance gates of an EVM leg in order |
| Downstream.SignCheckSettle | src/lib/downstream-payment.ts:916-1036 | sign, verify and settle in order, each only after the one before, and what each answer is told as |
| Downstream.SolanaChecks | src/lib/downstream-payment.ts:247-455 | the gates of a Solana leg; a leg the ledger has seen is not held back by a low balance |
| Downstream.SettleSolana | src/lib/downstream-payment.ts:457-539 | the Solana settlement and what each answer is told as |
| Downstream.SignAndSettleDownstream | src/lib/downstream-payment.ts:583-1037 | a leg is paid exactly when it has none of the faults the codes name, with exactly its amount and hash; else the logger keeps the first fault's code; exactly the listed calls are made, and none with the switch off |
| Downstream.VerdictIsFirstFault | src/lib/downstream-payment.ts:583-1037 | why a leg is not paid is the first code, in the documented order, whose fault can be read off the leg's own fields |
| Downstream.PaidIffFaultless | src/lib/downstream-payment.ts:583-1037 | a leg is paid exactly when it has no fault |
| Downstream.RemarkMeaning | src/lib/downstream-payment.ts:380-455 | a paid leg is remarked on exactly when its balance was not looked at, or was low and the ledger had seen the leg |
| Downstream.CallsMeaning | src/lib/downstream-payment.ts:916-985 | the adapter is asked to sign, then to verify what was signed, then to settle what was verified, and nothing before every gate is open |
| DownstreamSafety.SettlingNeeds | src/lib/downstream-payment.ts:593-985 | a settlement is asked for exactly with the switch on, an x402 card on a chain with a bundle, the opt-in for real money, a well-formed address that is not zero, a positive amount and a balance that was looked at covering it |
| DownstreamSafety.SettlesAtMostOnce | src/lib/downstream-payment.ts:916-1036 | a leg settles at most once, on the card's chain and address, a positive amount |
| DownstreamSafety.MainnetNeedsOptIn | src/lib/downstream-payment.ts:695-748 | a settlement on real money has a card and an allow-list entry that both spell out that mainnet |
| DownstreamSafety.AdapterMoneyNeedsOptIn | src/adapters/registry.ts:221-306 | in every reachable registry no leg drifts, and an EVM adapter signs on real money only after an opt-in |
| DownstreamSafety.RefusalsCutTheLeg | src/lib/downstream-skip-code.ts:532-559 | the code captured on a null result is never one that merely observes |
| DownstreamSafety.EvmUnknownIsNotUnpaid | src/lib/downstream-skip-code.ts:301-341 | an EVM leg is sent to the chain exactly when its settlement threw unknown or failed with a non-blank hash |
| SettleErrors.WrapTransportFailure | src/adapters/kite-ozone/payment.ts:445-453 | what the adapters throw when a settle request fails: Pieverse's error has the disposition of its cause, an x402 adapter's none |
| DownstreamSafety.TransportFailure | src/lib/downstream-payment.ts:964-994 | an EVM leg whose settle request fails is told as unpaid exactly on proof that it was not sent or through an x402 adapter, else as unknown, also across copies of the class |
| DownstreamSafety.SuccessWithoutHashIsToldAsUnpaid | src/lib/downstream-payment.ts:999-1024 | a success is told as unpaid exactly when it has no hash |
| DownstreamSafety.SolanaUnknownIsNotUnpaid | src/lib/downstream-payment.ts:465-523 | when a Solana leg is sent to the chain; the hash of an answered failure is not looked at |
| Glob.TranslateAt | test/readme-numbers.test.ts:108-137 | one turn of the loop emits the text of the construct at the position and steps past it |
| Glob.GlobToRegExp | test/readme-numbers.test.ts:106-140 | the loop builds the anchored emission of the whole glob |
| Glob.StarsRead | test/readme-numbers.test.ts:111-123 | `**/` stands for zero or more whole segments, `**` for any text and `*` for any text without a slash, told apart by what follows |
| Glob.CharactersRead | test/readme-numbers.test.ts:124-137 | `?` stands for one character but a slash, and every other character outside braces, an unclosed brace included, for itself |
| Glob.BracesRead | test/readme-numbers.test.ts:128-135 | a brace group stands for one of its comma-separated alternatives |
| GlobParse.ParseToken | test/readme-numbers.test.ts:108-137 | each construct's text parses to its tree whatever follows |
| GlobParse.CompiledTree | test/readme-numbers.test.ts:106-140 | the compiled text of a supported glob is a well-formed expression of the expected tree |
| GlobMeaning.StarSegments | test/readme-numbers.test.ts:112-113 | the `**/` expression matches exactly zero or more whole segments |
| GlobMeaning.TreeMeaning | test/readme-numbers.test.ts:104-140 | tree and glob match the same one-line paths |
| GlobMeaning.CompilerPreservesMeaning | test/readme-numbers.test.ts:104-140 | the compiled expression passes a one-line path exactly when the glob matches it |
| GlobMeaning.ExpandIsExact | test/readme-numbers.test.ts:142-152 | expansion keeps, in order, exactly the files that the first list matches and the second does not |
| GlobLimits.UnusedNeverPasses | test/readme-numbers.test.ts:128-137 | an expression of braces and characters never passes a path with a character the glob does not use |
| GlobLimits.FaithfulIffNoWildcardInBraces | test/readme-numbers.test.ts:128-137 | among globs of fewer than 40960 characters and braces the compiler is faithful exactly when no brace group holds a wildcard |
| GlobLimits.AbsorbedIsUnsupportedYetFaithful | test/readme-numbers.test.ts:106-140 | with a wildcard outside the braces the condition is not necessary: `{,a*}**` breaks it and agrees on every one-line path |
| InputMapping.CheckMappingShape | src/lib/compose-input-mapping.ts:83-156 | no problem exactly for well-shaped mappings; a problem names a rule really broken |
| InputMapping.ShapeRules | src/lib/compose-input-mapping.ts:83-156 | well-shaped is one to eight entries between texts of 1 to 128 characters that are no prototype names, onto keys that are new and not `previousOutput` |
| InputMapping.SourcesPresentMeaning | src/lib/compose-input-mapping.ts:302-356 | a source is there exactly when the previous output has its field and it is not undefined |
| InputMapping.BrokenMeansIllShaped | src/lib/compose-input-mapping.ts:83-156 | every problem that can be reported makes the mapping ill-shaped |
| InputMapping.ApplyMappingTo | src/lib/compose-input-mapping.ts:302-356 | the base with every target set to its source's value, or the failure that is there |
| InputMapping.ResolveStepInput | src/lib/compose-input-mapping.ts:267-287 | success exactly when shape and sources allow; every target has its source's value and every other declared key is untouched |
| InputMapping.ValidateInputMappingShape | src/lib/compose-input-mapping.ts:163-186 | the edge accepts exactly absent mappings and well-shaped ones past step 0 |
| InputMapping.EdgeThenRun | src/lib/compose-input-mapping.ts:163-287 | a mapping the edge accepted never fails on shape when the step runs |
| InputMapping.ApplyTwice | src/lib/compose-input-mapping.ts:302-356 | applying a mapping to its own result succeeds and changes nothing |
| InputMapping.SettledIffOwned | src/lib/compose-input-mapping.ts:218-224 | regenerating the base can change a field exactly when the mapping does not own it |
| InputMapping.GuardStopsDoomedRetries | src/lib/compose-input-mapping.ts:218-224 | the retry guard stops exactly the retries bound to send a refused value back |
| Base64Url.DecodeEncode | src/lib/resume-token.ts:344-347 | decoding undoes encoding, and an encoding has no dot |
| Base64Url.ValueMeaning | src/lib/resume-token.ts:344-347 | the decoder reads letters, digits and the last two characters of either alphabet, alike, and nothing else |
| ResumeTokens.BindingTextIsInjective | src/lib/resume-token.ts:255-261 | no two credentials share a binding text |
| ResumeTokens.DomainsNeverMeet | src/lib/resume-token.ts:289-293 | a binding text is never a token's signing text |
| ResumeTokens.ReadsBack | src/lib/resume-token.ts:409-451 | an authentic token is read back as the payload it was made from |
| ResumeTokens.RoundTrip | src/lib/resume-token.ts:321-464 | a token verifies for its caller exactly while iat - 60 <= now < exp, and names its run |
| ResumeTokens.OthersSeeAForgery | src/lib/resume-token.ts:452-464 | any other credential gets RESUME_INVALID for as long as the token has not expired |
| ResumeTokens.KeyAloneCannotResume | src/lib/resume-token.ts:229-245 | what was suspended under a delegation or a session is not resumed by the key without it |
| ResumeTokens.MaxTtl | src/lib/resume-token.ts:186-193 | the ceiling is never below the floor of 181 seconds, and is the configured number rounded down when that is usable |
| ResumeTokens.LifetimeIsExact | src/lib/resume-token.ts:186-215 | a usable ceiling is a number of at least 181, rounded down, else a day; an asked lifetime is granted as it is from 181 up to the ceiling and not else; not asking gives the ceiling |
| ResumeTokens.MostSpecificCaller | src/lib/resume-token.ts:229-245 | a delegation goes before a session and a session before a key; an empty identifier is none |
| ResumeTokens.SignedTexts | src/lib/resume-token.ts:255-293 | the texts under the signatures are the documented ones |
| ResumeTokens.IssuedIff | src/lib/resume-token.ts:321-375 | a token is issued exactly with a secret, a run and a granted lifetime, and expires when that is over |
| ResumeTokens.AcceptedMeansSigned | src/lib/resume-token.ts:409-464 | accepted is exactly what carries the secret's signature over its own text and the caller's binding, in its time; expired is told exactly of authentic tokens, to every caller |

## Left out

- The URL parser of the platform beyond ASCII host names: international names, percent-decoding, IPv4 and IPv6 normalisation, tab stripping, a trailing `?`, `#` or `\`.
- Network, RPC and database clients, the HTTP framework, timers: arbitrary answers and a monotone clock stand in for them.
- Ed25519, HMAC, UTF-8 and JSON: parameters with the round-trip laws they are used for.
- `parseUnits`, `formatUnits` and `decodeEventLog`: an amount, or nothing where they throw.
- `Number` texts: `String(number)` is taken as the source of digits; how a double is printed is not modelled.
- The ledgers of delegations, sessions and destinations, and `daily_spent`: a refund is one credit to its key.
- Outbox rows queued before idempotency keys existed.
- Reading the database as anything but atomic transactions over keys, claims and credits.
- Adaptive retries, intermediaries that drop headers, and dishonest gateways in the contracting network, which the source declares best-effort.
- `rollUpCascadedFee`, `gas-overhead.ts` and `price.ts`: floating-point sums and races.
- The map of named circuit breakers, `getState` and the breaker's name.
- `verifyDefaultChainSettle`, the confirmation wait and the client caches.
- The private key's derivation in the balance pre-check, which may throw.
- `nonEvmSettle.amountUsd`, a floating-point copy of the settled amount.
- Characters outside the basic multilingual plane, which JavaScript counts as two.
- `unsupportedGlob`, `globArray` and the numbers derived from the expansions.
- GlobLimits.FaithfulIffNoWildcardInBraces: covers globs of characters and brace groups that leave some ordinary character unused, as every one of fewer than 40960 characters does; with wildcards elsewhere the condition is sufficient (GlobMeaning.CompilerPreservesMeaning) but not necessary (GlobLimits.AbsorbedIsUnsupportedYetFaithful).
- InputMapping.CheckMappingShape: does not say which of several problems is reported, because the order of an object's keys is not modelled.
- A test-only registry reset in the middle of a start-up.
- Network.NoGatewayTwice: assumes that every gateway on the path announces a link; Lineages.LinkIsNeverPassedTwice needs it of the earlier gateway only, on lineages begun without headers.
- Lineages.VerdictOnLineage: starts where no headers are; a gateway without a host to announce prints none, and a new lineage starts behind it.
- RoundTrips.RoundTripIff: the strangers have one link each, the same ceiling as the first gateway, and no request on the way has a hint.
- Registries.SlugsTellTheTruth: assumes that what a bundle says of itself stays as registered; Kite's adapter reads its network when asked.
- Step0Refund.RefundedAtMostOnce: assumes generated UUIDs are new and, like key ids, free of colons.
- ResumeTokens.OthersSeeAForgery: takes as given that the MAC separates the two binding texts, which is the primitive's promise.
- The single-use claim of a suspended run in the database, discovery, pricing, dashboards and scripts.
