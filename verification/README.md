# Prayas in Dafny

Prayas collects recurring debits. A payment must never be taken twice, never exceed the regulator's four
attempts per billing cycle, and never be attempted without a recorded licence; the same tables are written by
several workers at once, by relays that may hear nothing back from the rail, and by projectors that replay an
event log. This project models that system and proves what it keeps, over every run, and where it does not.

| Files | Part of the system |
|---|---|
| `States`, `Projection`, `Projector`, `Convergence`, `Registration`, `Overspending` | the state vocabulary, folding the event log, writing projections, any number of projectors at once, and what a late registration or a fifth failure does to them |
| `Tables`, `Gate`, `IdemKey`, `Executor`, `Provider` | one tenant's tables, the compliance gate, key derivation, the claim, fire, notice, relay and reconcile transactions, the worker's batch, the rail |
| `Protocol`, `Budget`, `Settlement`, `Leases`, `LateCapture`, `Scenarios` | the step machine of all of them interleaved, its invariants, and runs that show why each hypothesis is there |
| `Locks` | the waits-for graph of the concurrent transactions |
| `Canonical`, `Reading`, `Chain` | the canonical printer, a reader of JSON text that knows nothing of it, and the hash-chained ledger |
| `Nowcast`, `Survival`, `Draws`, `Notices`, `Serving` | outage detection, survival statistics and the drawing without replacement behind them, notice timing, hazard expansion |

How the model is cut:

- A database transaction is one atomic step of `Protocol`, at its commit; an uncommitted transaction has no
  effect. Locks are a separate machine (`Locks`), and the projector's transaction, which reads before it
  commits, is split into its lock, read and commit steps in `Convergence`.
- A provider call is a step of its own, outside any transaction. Each relay submits a row it has picked up at most
  once and settles its answer at most once, any time later or never; several relays may pick up one row.
- Each transaction of the executor exists twice: as a method that updates the tables in place (`TenantDb`), and
  as the function its contract equates it with, which the step machine uses.
- SHA-256, the roll of the fault injector, square and k-th roots, the chi-square tail, JSON parsing, the text of a
  float and the number it stands for are function parameters. No injectivity is assumed of a hash: results say
  what holds for any function, or exhibit the collision. What a column gives back is not assumed: NUMERIC rounds to
  its scale, TIMESTAMPTZ gives UTC, JSONB reorders members,
  spells out positive exponents and drops the sign of zero.
- Statistics are over exact reals, times over whole microseconds, text over Unicode scalar values.

## What turned out not to hold

The code is modelled as it is. Where it does less than its documentation or its neighbours promise, a lemma
shows the input and another says exactly when it does hold.

- A cycle reference that events of two mandates share breaks two things at once: projecting the second mandate
  overwrites a stored payment (`Scenarios.SharedReferenceUnpays`, `Projector.PaymentSurvivesExactlyWhen`), and
  two projectors can deadlock (`Locks.SharedReferenceDeadlocks`). Nothing in the schema ties a reference to one mandate.
- Nothing in the fire transaction looks at the action's state or lease, so a claim that outlives its lease fires
  beside the claim that replaced it (`Scenarios.UntimelyRunFiresTwice`).
- The projector sets `attempts_used` to the failures on the log, whatever has been fired. A firing after that can
  derive a key that is already in use: it takes a unit of budget, records its decision and settles its action, and the
  rail hears nothing (`Scenarios.ResetBudgetReusesKey`, `Budget.QueuesExactlyWhen`).
- An outbox row in state sent can go back to ambiguous (`Settlement.SentIsLostExactlyWhen`, `Scenarios.StaleAnswerUnsettles`).
- A fifth distinct failure aborts the projection of its mandate, for the schema's CHECK, and nothing else does
  (`Projector.AbortsExactly`). The event that brings it is never stamped, so the mandate never drains
  (`Overspending.OverspentNeverDrains`), and every batch that takes it is lost with the other mandates' work in it
  (`Overspending.BatchLostExactly`). A tenant with one projector stops being projected altogether
  (`Overspending.LoneProjectorStalls`).
- Events of an unregistered mandate are stamped as processed and not looked at again when it is registered, so a
  mandate registered too late is drained and wrong (`Registration.LateRegistrationDiverges`);
  `Registration.MandateConverged` says which registrations are in time.
- Honest ledger records can fail verification (`Chain.AppendKeepsClean`, `Chain.EveryChainVerifiesExactly`). The
  propensity of the treatment arm is `1.0 - control_pct` unrounded: with a control share of 0.180 it is hashed as
  0.8200000000000001 and the NUMERIC(6,5) column gives back 0.82 (`Chain.UnroundedPropensitySpoils`). So do an instant
  given outside UTC or without an offset, a boolean or a float given for an integer column, anything but a float given
  for a NUMERIC column, a float of 1e16 or more or a negative zero inside a JSON column (`Jsonb.BackExactly`,
  `Chain.NegativeZeroSpoils`), and a JSON column whose decoded value is a string that itself reads as JSON
  (`Chain.TextOrDecoded`).
- `verify_chain` cannot see records cut off the end (`Chain.TruncationIsUnseen`).
- A late older event can bring a revoked mandate back, never an expired one (`Projection.LateEventRevivesRevoked`,
  `Projection.RevivesExactly`, `Projection.CompletionIsFinal`); a cancellation that reaches an active mandate is
  rejected (`Projection.CancellationNeedsAtRisk`).
- A rule store that cannot be read refuses a debit on the record, but makes a notice raise, for the notice
  transaction has no savepoint to go back to (`Notice.UnreadableRulesStopNotices`). A notice that is refused leaves no
  ledger record, although its documentation says the reason is recorded (`Notice.NoticeSpendsNothing`).
- The budget denial in the fire transaction cannot be reached (`Firing.BudgetDenialUnreachable`); an action
  without a cycle keeps its claim (`Firing.NoCycleKeepsItsClaim`); the executor's list of settled states omits
  the deferred intervention (`States.SettledOmitsOneTerminalState`).
- The gate accepts an `on_fail` of ALLOW; only the schema's CHECK keeps that out (`Gate.OnFailAllowFailsOpen`).
- Losing one window of the recovery streak is the same as losing all of it, and recovery can take four windows,
  not three (`Detector.RecoveryTakesTwoInARow`, `Detector.OneUnluckyWindow`).
- The planner's 23:50 rule and the rail's are different rules (`NoticePlanner.CutoffRulesDisagree`), though no notice
  the planner calls legal meets the difference. Thirty-seven hours before the debit always suffice for a notice, and nothing less does.
- A presentation on a weekend can come due before one made earlier on the Friday (`Rails.OvertakesExactly`).

## Model

| member | source | states |
|---|---|---|
| Budget.BudgetCap | prayas/executor/firing.py:186-314 | in every run at most the budget of distinct charge keys for a cycle ever reaches the provider, whatever the projector does to `attempts_used`, and none for a cycle that is not on the books |
| Budget.ChargesAreRight | prayas/executor/firing.py:298-314 | in every run whatever reaches the rail asks for the amount and the mandate of a cycle on the books, and comes under the key derived from that cycle, its attempt's number, the kind and that amount |
| Budget.ProviderSawSent | prayas/executor/outbox.py:84-90 | in every run the submissions counted are, key by key, those the provider has noted |
| Budget.EveryIntentIsLicensed | prayas/executor/firing.py:258-316 | in every run each outbox row has exactly one attempt with its key, numbered within the budget, and an ALLOW decision naming that key all of whose checks say ALLOW |
| Budget.BooksAlways | migrations/versions/0002_schema.py:130-149 | every interleaving keeps attempt keys and (cycle, sequence) pairs unique, numbers within budget, attempts and outbox paired, licences on record, and everything submitted traceable to a row |
| Budget.OutboxAlways | prayas/executor/outbox.py:51-160 | no run removes an outbox row or changes its key or request |
| Budget.SettledRows | prayas/executor/outbox.py:128-160 | settling a row moves that row's state and, keys being unique, only its own attempt's |
| Budget.QueuesExactlyWhen | prayas/executor/firing.py:274-314 | a firing queues a new intent exactly when no attempt has its key |
| Scenarios.ResetBudgetReusesKey | prayas/ingest/projector.py:276-284 | from the empty database, a run in which an event arrives and is projected between two firings, puts the number of attempts back, and the second firing reuses the first one's key: two firings, one intent |
| Budget.EveryMessageIsRecorded | prayas/executor/notice.py:252-304 | in every run each intervention traces to a ledger decision with its id, mandate and instant |
| LateCapture.LateCaptureIsFinal | prayas/executor/firing.py:166-184 | once a projection has stored a cycle as paid it stays paid and no later transaction queues an intent for it, even for an action claimed before, in runs that never name one cycle under two mandates |
| Projector.CancelsExactly | prayas/ingest/projector.py:287-334 | a projection that commits cancels exactly the pending actions whose cycle some event of the mandate names with a payment, and leaves every other action as it was |
| Leases.CancelledStayOut | prayas/executor/claiming.py:155-176 | once a cycle's actions have been cancelled, whatever runs later, none of them is ever claimed |
| Claiming.CancelledForGood | prayas/executor/claiming.py:155-176 | what was pending or claimed for the cycle becomes cancelled without a lease, what was done stays done, other cycles' actions are as they were |
| Projector.PaymentSurvivesExactlyWhen | prayas/ingest/projector.py:206-284 | one projection keeps a stored payment exactly when its own events do not name the cycle, carry no date for it, or hold a success for it |
| Scenarios.SharedReferenceUnpays | prayas/ingest/projector.py:303-334 | for any two mandates and any shared reference, a run in which a paid cycle becomes unpaid |
| Settlement.SentRowsTellTheTruth | prayas/executor/outbox.py:84-123 | in every run a row in state sent has its attempt marked fired exactly when a charge landed under its key, failed otherwise, and that was the key's fate before the first submission |
| Settlement.SentIsLostExactlyWhen | prayas/executor/outbox.py:128-135 | the one step that takes a row out of sent is a relay settling an ambiguous answer it had received for it |
| Scenarios.StaleAnswerUnsettles | prayas/executor/outbox.py:84-92 | from any claimable row whose key times out, a run of two relays and the reconciler through sent and, by the second relay's own late answer, back to ambiguous |
| Provider.AnswersNeverChange | prayas/executor/provider.py:122-169 | over any sequence of submissions and queries a definitive answer for a key is always that key's fate, and "no record" means nothing has landed |
| Provider.LandsOnce | prayas/executor/provider.py:122-174 | a charge has landed under a key exactly when the key was submitted at least once and its fate is acceptance |
| Provider.FateExactly | prayas/executor/provider.py:122-169 | the rates cut [0, 1) into bands, and in which of them the key's roll falls decides between hidden outcome, no outcome, decline and charge |
| Provider.FirstSubmission | prayas/executor/provider.py:122-150 | whatever else was called, a key's first submission times out exactly below the timeout rate and is answered for good exactly from the two bands above on |
| Provider.ReferenceIsOfKey | prayas/executor/provider.py:146-147 | a charge is referred to by `pay_` and the last twelve characters of its key |
| Provider.FakeProvider.SubmitDebit | prayas/executor/provider.py:122-150 | the in-place provider answers and changes state as the specification function of its old state |
| Provider.FakeProvider.FetchByKey | prayas/executor/provider.py:152-169 | a query reveals what a timeout hid and records it, and changes nothing else |
| Leases.NoActionFiresTwice | prayas/executor/claiming.py:57-75 | if every firing commits before its claim's lease runs out, no action is fired twice in any run with crashes, expiries and reclaims |
| Leases.SettledActionsStaySettled | prayas/executor/claiming.py:128-138 | in any run an action that is done or cancelled stays so and is in no later claim |
| Scenarios.UntimelyRunFiresTwice | prayas/executor/worker.py:104-123 | without the lease hypothesis: from the empty database, a run that fires one action twice |
| Scenarios.ExpiredClaimFiresAgain | prayas/executor/firing.py:113-184 | in any world two claims of one action can both fire it while budget remains |
| Claiming.ClaimDueActions | prayas/executor/claiming.py:78-125 | the claim stamps exactly the picked rows with the new lease and returns them as they stood; rows under a running lease or settled are never among them |
| Claiming.ClaimedAgainExactly | prayas/executor/claiming.py:57-75 | a claimed row can be claimed again exactly when it is due and its lease has run out |
| Firing.FireAction | prayas/executor/firing.py:89-318 | the transaction's table updates and outcome equal the specification function of the old tables, on every path including savepoint rollback and abort |
| Firing.Commit | prayas/executor/firing.py:258-318 | the writes after ALLOW: decision, attempt, outbox row and release together, or everything since the savepoint undone |
| Firing.RefusalSpendsNothing | prayas/executor/firing.py:224-256 | supporting fact: every outcome but a firing leaves cycles, attempts and outbox as they were although the budget is taken before the gate is asked, and records no key |
| Firing.FiresExactlyWhen | prayas/executor/firing.py:113-342 | supporting fact: a firing happens exactly when cycle and mandate are found, no stop or stage forbids it, revalidation finds nothing stale, the key is well formed and free and the gate allows |
| Firing.FiredAsks | prayas/executor/firing.py:258-314 | what a firing queues: the cycle's own amount and mandate and the action's kind, under the key of cycle, next attempt number, kind and amount |
| Firing.FiredRow | prayas/executor/claiming.py:101-125 | from the scheduled row: what fires for a claimed row is for the row's own cycle and kind, at the amount it was scheduled with |
| Firing.StaleNamesItsCause | prayas/executor/firing.py:321-342 | supporting fact: a stale refusal names a cause that holds, and that nothing checked before it explains |
| Firing.FireSettlesOwnAction | prayas/executor/firing.py:316-318 | supporting fact: the transaction touches one action row, its own, and settles it on every path that commits past the cycle check |
| Firing.NoCycleKeepsItsClaim | prayas/executor/firing.py:110-111 | supporting fact: an action without a cycle is answered with the tables unchanged and becomes claimable again only when its lease runs out |
| Firing.RecordsTellOutcome | prayas/executor/firing.py:166-316 | supporting fact: a refusal and a firing each add one decision that says which it was, with the gate's verdict and checks, every other outcome none |
| Firing.ActionTellsOutcome | prayas/executor/firing.py:166-318 | supporting fact: the action ends done exactly when it fired, cancelled when it was refused, and as it was when nothing was committed |
| Worker.DrainTenant | prayas/executor/worker.py:68-130 | one tenant's turn: the claim, one transaction per action stopping where one raises, and only if none did the relay pass; tables, provider and all four counters in terms of the old ones |
| Worker.HandledByKind | prayas/executor/worker.py:110-127 | no notice is fired as a debit and no debit sent as a message; a firing or a sending, and nothing else, counts as one |
| Worker.BatchAccounted | prayas/executor/worker.py:110-130 | a batch that raises nothing counts every action once as fired or refused, and queues at most one intent per firing |
| Worker.BatchSettled | prayas/executor/worker.py:110-127 | a batch that raises nothing settles every action in it except debits without a cycle, and touches no action outside it |
| Notice.SendNotice | prayas/executor/notice.py:136-306 | the notice transaction's updates, its decision and its intervention row, and its outcome equal the specification function of the old tables |
| Notice.SentExactlyWhen | prayas/executor/notice.py:136-230 | a message leaves exactly when the cycle is found, still waits for its notice, each of at least one messaging rule lets it, and nobody has objected |
| Notice.SentTells | prayas/executor/notice.py:243-304 | a sent notice leaves one ALLOW decision of its own kind for the action's mandate and cycle, the instant on the cycle, and once per action an intervention |
| Notice.NoticeActionTellsOutcome | prayas/executor/notice.py:147-306 | supporting fact: the action ends done when the customer has been told, now or before, and cancelled otherwise |
| Notice.UnreadableRulesStopNotices | prayas/executor/notice.py:200-219 | with a rule store that cannot be read a debit is refused, settled and recorded, while the notice for the same cycle raises and leaves everything as it was |
| Notice.NoticeSpendsNothing | prayas/executor/notice.py:136-306 | a notice touches no attempt, outbox row or budget, and sets the notice instant once, exactly when it was sent and recorded |
| Relay.RelayOnce | prayas/executor/outbox.py:51-125 | a relay pass claims the oldest claimable rows nobody else holds, submits every one's key once, in order, settles each answer, and its four counters add up to the rows claimed |
| Relay.ClaimFacts | prayas/executor/outbox.py:51-69 | the rows claimed: pending, fewer than five times answered, held by nobody, in order, and none older left out while the batch has room |
| Relay.AnswerCounts | prayas/executor/outbox.py:84-160 | an answer counts one against its own row, settles it if it is definitive, marks its own attempt and touches no other |
| Relay.RetriesAreBounded | prayas/executor/outbox.py:39-41 | while the provider is unavailable a new intent is submitted five times and then no more |
| Relay.ReconcileAmbiguous | prayas/executor/outbox.py:163-209 | reconciliation queries, never submits, and settles each ambiguous row by what the provider knows |
| Relay.ReconciliationResolvesAll | prayas/executor/outbox.py:163-209 | with nobody else at work reconciliation leaves none of the rows it was given ambiguous and resolves each one |
| IdemKey.UnambiguousExactlyWhen | prayas/executor/idempotency.py:23-43 | the key text of two different identities differs exactly for those action vocabularies in which no kind ends in a colon-separated number and another kind |
| IdemKey.ColonFreeKindsAreUnambiguous | prayas/executor/idempotency.py:23-43 | with kinds free of colons the key text determines cycle, sequence, kind and amount, even when cycle ids contain colons |
| IdemKey.KeyIsDigestOf | prayas/executor/idempotency.py:23-43 | the key is `prayas_` and the digest of a text that reads, between colons, as cycle, sequence number, kind and amount; a malformed identity has none |
| Decimal.IntReads | prayas/executor/idempotency.py:23-43 | the digits written for an integer, read by place value, are that integer |
| Gate.EvaluateRules | prayas/gate/engine.py:160-195 | one check per rule in order, even after a denial, and the verdict is the greatest check under the precedence |
| Gate.VerdictExactly | prayas/gate/engine.py:34-39 | one failing rule that denies, or whose `on_fail` is not recognised, denies; else one that escalates escalates; else one that defers defers |
| Gate.EvidenceNamesRules | prayas/gate/engine.py:160-265 | the checks name each rule and version in order, with ALLOW exactly for those that passed or answer it; a gate that could not judge says which of the two reasons and is marked degraded |
| Gate.AllowedExactlyWhen | prayas/gate/engine.py:215-283 | the gate allows exactly when the rules were read, there is one, and each passed or carries an `on_fail` of ALLOW |
| Gate.AllowedMeansAllPassed | migrations/versions/0002_schema.py:224 | under the schema's CHECK, ALLOW means every rule in force passed |
| States.SettledOmitsOneTerminalState | prayas/executor/firing.py:64-72 | supporting fact: the executor's settled states are the table's terminal states less the deferred intervention |
| States.OnlyExpiryIsFinal | prayas/domain/states.py:61-73 | supporting fact: from every mandate state but expired, revoked included, the table leads back to active in at most two transitions |
| States.SupersededFromAnywhere | prayas/domain/states.py:86-109 | supporting fact: a cycle can be superseded from every state that is not terminal |
| Projection.CycleConverges | prayas/ingest/projector.py:85-105 | the cycle projection depends only on the set of facts, not on their order or redelivery |
| Projection.CycleMeaning | prayas/ingest/projector.py:69-105 | what the projection says of the log: paid exactly when it holds a capture, a charge or a paid invoice, with the amount of the earliest; its distinct failed payments, and when the newest was |
| Projection.MandateConverges | prayas/ingest/projector.py:108-141 | the mandate state depends only on the set of facts |
| Projection.ProjectMandate | prayas/ingest/projector.py:108-141 | the loop computes the fold over the sorted events and counts the transitions it rejects |
| Projection.RevokedAndExpiredAbsorb | prayas/domain/states.py:61-73 | under the event vocabulary nothing leads out of revoked or expired |
| Projection.OneMoreEvent | prayas/ingest/envelope.py:41-48 | an event that arrives at any time is one more step between the state its predecessors in the total order amount to and the events after it |
| Projection.EndsExactly | prayas/ingest/projector.py:108-141 | a log ends a mandate exactly when it holds a completion or a cancellation that finds the mandate at risk |
| Projection.EndedBeforeStays | prayas/ingest/projector.py:108-141 | an event cannot undo a revocation or expiry that the events ordered before it had reached |
| Projection.RevivesExactly | prayas/ingest/projector.py:108-141 | exactly when an event brings an ended mandate back, from the state before it, its own step and the events after it |
| Projection.CompletionIsFinal | prayas/ingest/projector.py:108-141 | a completion is final wherever it falls: only a cancellation can be undone |
| Projection.LateEventRevivesRevoked | prayas/ingest/projector.py:108-141 | a log and a late older event whose arrival turns a revoked mandate active |
| Projector.ProjectOneMandate | prayas/ingest/projector.py:303-334 | the projector's loop writes what the specification function writes, or nothing when the schema aborts it |
| Projector.ApplyMandateFacts | prayas/ingest/projector.py:206-284 | a projection never changes a row's identity columns, rewrites exactly the dated cycles its events name, with state, attempts used, last failure and recovered amount of their events, and inserts only for its own mandate |
| Projector.InsertsExactly | prayas/ingest/projector.py:206-284 | a projection inserts exactly the dated cycles its events name that were not stored; the new row's due instant is its first event's, deadline and amount are those of the first event that has one, the amount if it is not zero |
| Projector.ApplyMandateDense | prayas/ingest/projector.py:206-284 | a projection keeps every mandate's sequence numbers 1..n without gap |
| Projector.AbortsExactly | migrations/versions/0002_schema.py:130 | with the rails' budgets a mandate's projection aborts exactly when its events name a dated cycle with a fifth distinct failure, and otherwise commits and keeps the budgets |
| Registration.MandateConverged | prayas/ingest/projector.py:337-369 | with any number of projectors and events still arriving, a drained mandate's stored state is the projection of the whole log if an event naming it was still to be dealt with when it was registered, or came later; and only if, no transaction being past it then, but for a mandate registered in the state its events had already amounted to |
| Registration.RegisteredFirst | prayas/ingest/projector.py:303-309 | a mandate registered before the first event that names it is in time |
| Registration.LateRegistrationDiverges | prayas/ingest/projector.py:303-309 | the failing run: an event is stamped before its mandate is registered, which is then drained and stored as created while its log says active |
| Overspending.BatchLostExactly | prayas/ingest/projector.py:354-367 | in every run a batch about to commit is lost exactly when one of its mandates was read with an overspent cycle, and then tables and all its events stay as they were |
| Overspending.OverspentNeverDrains | migrations/versions/0002_schema.py:130 | once an event overspends a cycle of a registered mandate it is never stamped, whatever comes later, and the mandate never drains |
| Overspending.OverspentIsNotDrained | prayas/ingest/projector.py:337-369 | in every run a mandate registered in time whose log overspends a cycle is not drained |
| Overspending.LoneProjectorStalls | prayas/ingest/projector.py:343-367 | a tenant's only projector, claiming oldest first, commits nothing ever again once an unprocessed event of a mandate with an overspent cycle is in its batch, for no mandate, whatever arrives |
| Registration.CyclesConverged | prayas/ingest/projector.py:303-369 | and its stored cycles, with a registration in time and exclusive references, are exactly the dated cycles of its log, each with the state, last failure and recovered amount of all its events |
| Convergence.SequenceNumbersAreStable | prayas/ingest/projector.py:255-284 | in every run a mandate's cycles are numbered 1..n and a number never changes |
| Concurrency.FiringIsAStep | prayas/executor/firing.py:186-318 | a fire transaction, on whatever path, is a step of the projectors' machine |
| Concurrency.NoticeIsAStep | prayas/executor/notice.py:243-306 | and so is a notice |
| Protocol.IdsStayDistinct | migrations/versions/0002_schema.py:70 | in every run an event is in the log once |
| Locks.NoDeadlock | prayas/executor/worker.py:14-20 | no reachable state of claims, fires, notices and projections has a cycle in its waits-for graph, when no cycle is named under two mandates |
| Locks.SomeoneCanProceed | prayas/executor/worker.py:14-20 | so among the transactions under way one is not waiting or can have its lock |
| Locks.WaitingClimbs | prayas/ledger/chain.py:148-150 | whoever is waited for stands strictly above the waiter in the order mandate, cycle, ledger, action |
| Locks.RegisteredAlways | prayas/ingest/projector.py:303-309 | in every run only registered mandates are locked or waited for |
| Locks.SharedReferenceDeadlocks | prayas/ingest/projector.py:322-359 | two projectors whose mandates share a reference can each wait for the other |
| Canonical.CanonicalExactly | prayas/ledger/canonical.py:30-38 | canonical bytes are equal exactly for values that agree up to the order their dicts were filled in |
| Canonical.Decodes | prayas/ledger/canonical.py:30-38 | printed values can be told apart, and told from what follows them |
| Escaping.QuoteDecodes | prayas/ledger/canonical.py:30-38 | string literals, with the escapes of section 7 of RFC 8259, have one reading |
| Reader.CanonicalReads | prayas/ledger/canonical.py:30-38 | the hashed bytes are UTF-8, as section 3 of RFC 3629 decodes it, of text that a reader after the grammar of RFC 8259 takes, to its end, as the same value with every object's keys in code point order |
| Reader.PrintedReads | prayas/ledger/canonical.py:30-38 | what is written for any value is read as that value, whatever follows it |
| Reader.EscapesWhatItMust | prayas/ledger/canonical.py:32-38 | quotes, backslashes and control characters are escaped, by their short name where section 7 of RFC 8259 has one, and nothing else is |
| Records.HashReads | prayas/ledger/chain.py:129-132 | a record's hash is that of text which is read as an object with the names of the hashed columns as its keys, in order, and under each the column's normalised value |
| Chain.BytesExactly | prayas/ledger/chain.py:108-132 | two records hash the same bytes exactly when they agree on all twenty-six hashed columns after normalisation |
| Chain.TextOrDecoded | prayas/ledger/chain.py:108-126 | a JSON column gives the same value as text and decoded, except for a string that itself reads as JSON for something else |
| Chain.OnlyJsonIsParsed | prayas/ledger/chain.py:108-126 | supporting fact: only a string in a JSON column is hashed as anything but itself |
| Chain.InstantReads | prayas/ledger/canonical.py:30-38 | an instant is written as the wall clock of its offset and that offset, whose sign, hours and minutes read back as it |
| Chain.RoundedIs | migrations/versions/0002_schema.py:252-259 | a NUMERIC column's value is the nearest with five places, and of two equally near the one further from zero |
| Chain.AcceptedNotKept | prayas/ledger/chain.py:108-126 | supporting fact: a truth value in an integer column and a wall clock without offset are accepted and do not verify |
| Chain.VerifiesExactly | prayas/ledger/chain.py:187-258 | no breaks are reported exactly when the chain is numbered from 0, linked from genesis and every hash is right |
| Chain.Walk | prayas/ledger/chain.py:212-258 | the loop, carrying the expected number and hash from what is stored, reports the breaks of the specification |
| Chain.Ledger.VerifyChain | prayas/ledger/chain.py:187-258 | the tenant's rows in order are walked, and the result is empty exactly for a clean chain |
| Chain.Ledger.Append | prayas/ledger/chain.py:135-184 | an accepted append adds one row, numbered and linked after the tenant's head, hashed before it is stored; a refused one leaves the table as it was |
| Chain.AppendKeepsClean | prayas/ledger/chain.py:152-184 | an accepted append keeps a chain clean exactly when every value passes a check a caller can make beforehand (UTC instants, integers for integer columns, NUMERIC floats that are the float of their own rounding, JSON text whose numbers JSONB writes the same), or the two forms of the record collide |
| Chain.EveryChainVerifiesExactly | prayas/ledger/chain.py:135-184 | however tenants interleave their appends, every tenant's chain verifies exactly when no accepted append failed that check |
| Chain.ChainVerifiesExactly | prayas/ledger/chain.py:135-184 | and one tenant's chain exactly when none of its own did: nobody else's appends can spoil it |
| Chain.BackExactly | prayas/ledger/chain.py:108-126 | column by column: a stored value normalises to what was hashed exactly when it passes the check, with NUMERIC as rounding to its scale, integer columns as making an integer, timestamps as UTC |
| Jsonb.BackExactly | migrations/versions/0002_schema.py:249-258 | a value comes back from a JSONB column meaning the same exactly when none of its numbers was printed with a positive exponent or is a negative zero |
| Chain.UnroundedPropensitySpoils | prayas/measure/assignment.py:58-76 | the failing append: with a control share of 0.180 the treatment arm's propensity is hashed as 0.8200000000000001 and read back as 0.82, and the chain of an honest record does not verify |
| Chain.NegativeZeroSpoils | prayas/ledger/chain.py:116-132 | and another: a JSON column holding -0.0 is read back with 0.0, and the record does not verify |
| Chain.AppendExtends | prayas/ledger/chain.py:152-184 | an append extends its own tenant's chain by one record and leaves every other chain as it was |
| Chain.InOrderMeaning | prayas/ledger/chain.py:195-203 | the query returns each of the tenant's rows as often as stored and no other, in order of number |
| Chain.HeadHashCommits | prayas/ledger/chain.py:129-258 | two clean chains with the same head hash have the same length and agree on every hashed column of every record, or contain a collision |
| Chain.TamperingIsSeenOnce | prayas/ledger/chain.py:239-256 | rewriting one record's columns is reported once, there and nowhere else, unless the hash collides |
| Chain.RemovalIsSeen | prayas/ledger/chain.py:213-237 | a record taken out of the middle is reported, as a gap first, at the record after it and nowhere else |
| Chain.TruncationIsUnseen | prayas/ledger/chain.py:187-258 | every prefix of a chain without breaks has no breaks |
| Wilson.IntervalHoldsRate | prayas/inference/nowcast.py:103-125 | over exact reals the interval lies in [0, 1] and holds the observed rate without its clamps |
| Wilson.IntervalIsScore | prayas/inference/nowcast.py:103-125 | the interval is the score interval: exactly the rates from which the observed one is at most z standard errors away |
| Wilson.ThinSampleStaysHigh | prayas/inference/nowcast.py:103-125 | however bad the outcomes the upper bound is at least z^2 / (n + z^2) |
| Detector.CusumIsLargestSuffix | prayas/inference/nowcast.py:276-289 | between recoveries `cusum_down` is the largest suffix sum of deviation less slack, or zero |
| Detector.DeclaredExactly | prayas/inference/nowcast.py:291-295 | an outage is on exactly when some confidently degraded window ended a stretch beyond the threshold, and it dates from the first |
| Detector.AlarmExactly | prayas/inference/nowcast.py:276-295 | what such a window is: thick enough, its upper bound under the line, at the end of a stretch whose upper bounds fall short of the line, all together, by more than the line times threshold and slack |
| Detector.RecoveredExactly | prayas/inference/nowcast.py:296-313 | an outage ends exactly when some stretch since has RECOVERY_WINDOWS more windows that are not degraded than windows that are |
| Detector.RecoveryTakesTwoInARow | prayas/inference/nowcast.py:296-313 | which with two recovery windows means two consecutive windows that are not degraded |
| Detector.OneUnluckyWindow | prayas/inference/nowcast.py:297-304 | one degraded window after a good one delays recovery to the fourth window |
| Detector.ThinWindowCannotAlarm | prayas/inference/nowcast.py:276-295 | one window cannot declare an outage by itself while z^2 / (n + z^2) stays above a fraction of the degradation line |
| Tracking.Tracker.Observe | prayas/inference/nowcast.py:236-249 | the new index and scored windows in terms of the old: late and current windows bumped, passed ones closed first |
| Tracking.Tracker.CloseThrough | prayas/inference/nowcast.py:251-263 | exactly the windows before the boundary are closed, in order of start, and those thick enough are scored in that order |
| Tracking.Tracker.Score | prayas/inference/nowcast.py:276-313 | one step of the detector in place |
| Tracking.Tracker.TrailingCounts | prayas/inference/nowcast.py:326-349 | the counts are a direct count of the log from the floor less what left the deque, equal to it exactly when nothing evicted starts there, and successes never exceed attempts |
| Tracking.TrailingMeaning | prayas/inference/nowcast.py:326-349 | why: open, closed and evicted windows conserve every observation wherever the line is drawn |
| Survival.KaplanMeier | prayas/measure/survival.py:62-115 | the loop computes the product-limit estimate, and which inputs are refused and why |
| Survival.CurveFalls | prayas/measure/survival.py:62-115 | the curve stays in [0, 1] and strictly falls at every event time until it is zero |
| Survival.UncensoredIsFraction | prayas/measure/survival.py:45-53 | without censoring the curve read at any time is the fraction of units that lasted longer |
| Survival.LogRankTest | prayas/measure/survival.py:130-201 | the loop with its skipped times computes the test of the specification; which arms are refused |
| Survival.TestIsOfDraws | prayas/measure/survival.py:162-201 | the statistic is the summed gap squared over the summed variance, of the first arm's deaths against a blind draw of the dead from those at risk, over every time a unit died |
| Survival.TimesAre | prayas/measure/survival.py:161 | which are, in order, the distinct times at which a unit of either arm died |
| Survival.SkippedShowsNothing | prayas/measure/survival.py:170-180 | a skipped time has gap and variance zero |
| Draws.MeanIs | prayas/measure/survival.py:184 | the expected deaths are the mean number of first-arm units among d drawn from those at risk, counted over all ways to draw |
| Draws.VarianceIs | prayas/measure/survival.py:185 | and the variance term is the mean square distance from that mean, over the same ways |
| Survival.VarianceMirrors | prayas/measure/survival.py:185 | the dead vary as the survivors do |
| Survival.Balances | prayas/measure/survival.py:162-186 | over both arms as many events are expected as are counted |
| Survival.SwapKeepsTest | prayas/measure/survival.py:130-201 | naming the arms the other way round changes neither statistic nor p-value |
| Survival.SameArmsShowNothing | prayas/measure/survival.py:130-201 | an arm compared with itself has statistic zero |
| NoticePlanner.PlanIsBest | prayas/notify/planner.py:108-169 | a planned send is a lawful candidate of 24 to 96 whole hours, and no lawful candidate is nearer the predicted funding, nor as near and later, or later when none is predicted |
| NoticePlanner.LegalSendExactly | prayas/notify/planner.py:67-92 | a send is legal exactly a day ahead and between 08:00 and 19:00 IST: there the cutoff adds nothing |
| NoticePlanner.PlanSendsExactly | prayas/notify/planner.py:108-169 | a notice is planned exactly when the cap leaves room and the decision comes a computable number of hours before the debit |
| NoticePlanner.NeededIsLeast | prayas/notify/planner.py:67-92 | that number, from the debit's minute of the day: the least whole hours that land in the contact window, at most 37 |
| NoticePlanner.ThirtySevenHours | prayas/notify/planner.py:139-154 | 37 hours always suffice, and a debit at 07:59 IST needs all of them |
| NoticePlanner.NaivePlan | prayas/notify/planner.py:172-200 | the walk from 72 hours sends the earliest lawful hour, and sends exactly when `plan` below the cap does |
| NoticePlanner.PlanBeatsNaive | prayas/notify/planner.py:108-200 | below the cap `plan` sends whenever the naive plan does, never worse placed |
| NoticePlanner.LegalOnTheRail | prayas/domain/rails.py:120-129 | what the planner calls legal the UPI rail accepts |
| NoticePlanner.CutoffRulesDisagree | prayas/notify/planner.py:73-82 | the planner's 23:50 rule and the rail's differ exactly from 23:50 on, for a debit on the day of sending or before, or one more than 24 hours away that is still on the next day |
| Rails.OutcomeDueAt | prayas/domain/rails.py:269-280 | the loop ends on the first clearing day after presentation, one to three days on, at the same time of day |
| Rails.IstClock | prayas/domain/rails.py:28-47 | the clock and the weekday of India for any instant, five and a half hours ahead of UTC |
| Rails.OvertakesExactly | prayas/domain/rails.py:269-280 | a later presentation comes due first exactly when both fall on the Friday, Saturday or Sunday of one week, the later on a later day and at an earlier time of day |
| Rails.ClearingOrderKept | prayas/domain/rails.py:269-280 | so presentations on clearing days come due in the order they were made |
| Bands.ExecutionLegalByBand | prayas/inference/bands.py:38-59 | at every minute the UPI rail allows a debit exactly when its hour lies in a band the model calls legal |
| Bands.BandHoursAre | prayas/models/serving.py:53-55 | the bands cover 10, 3, 4, 5 and 2 whole hours |
| Serving.BandToHourly | prayas/models/serving.py:58-76 | every hour of the horizon gets its band's hour hazard; which sizes are refused |
| Serving.ClipKeeps | prayas/models/serving.py:76 | hazards from one in a million to one less a millionth are kept, others moved to the nearer end |
| Serving.SegmentPrior | prayas/models/serving.py:113-128 | exactly the covered (day, band) pairs get one minus the survival of their hours |
| Serving.RoundTripExactly | prayas/models/serving.py:58-128 | expanding and aggregating gives a band's hazard back exactly when it lies between two powers of the clip |
| Serving.EvenSpreadLoses | prayas/models/serving.py:15-24 | spreading a hazard evenly over its hours loses some of it |

## Left out

- SHA-256, blake2b and HMAC: function parameters; results name the collision where one would matter.
- Claiming.ClaimDueActions: which eligible rows the statement picks is a parameter constrained by the statement's own conditions; `Protocol` allows any set of eligible rows, in any order and number.
- Relay.RelayOnce: describes a pass with nobody else at work; other relays and reconcilers between its calls are the business of `Protocol` and `Settlement`.
- Worker.DrainTenant: one turn with nobody else at work, like the relay pass in it; what the transactions read beyond the modelled tables is given for each action, and `tick` only adds up tenants.
- Projection.ProjectMandate: events arrive with their fields already read; digging them out of the provider's payloads is not modelled.
- Wilson.IntervalHoldsRate: over exact reals; floating-point rounding, which is what the source's clamps are there for, is not modelled.
- Chain.AppendKeepsClean: JSON text is taken to be what `json.dumps` writes; a date without a time, an offset with seconds and a value that a column's encoder rejects count as refused, and primary keys and NOT NULL are a parameter that may refuse any row.
- Chain.UnroundedPropensitySpoils: what a float's text stands for is assumed only between one half and one, where it is the nearest double.
- Chain.InOrderMeaning: rows with equal numbers come in table order, where the database may choose any.
- Registration.MandateConverged: when a transaction that has claimed an event of the mandate is already past it at registration, whether that transaction commits decides, and only the one direction is stated.
- Locks.NoDeadlock: a queue for a row is modelled by its holder; foreign-key share locks and advisory-lock hash collisions between tenants are not.
- Serving.RoundTripExactly: band hazards outside [0, 1], for which the source computes no real number, are not considered.
- Bytes given for a JSON column, and `Decimal` or `datetime` values nested inside one: only text and decoded JSON.
- Choosing an experiment arm, and the channel in an intervention's payload: further columns of a record.
- Kill switch, adoption stage, suppression and consent: booleans read at fire time.
- Per-issuer dictionaries, recovery estimates, `state` and `flush` of the nowcast: one issuer's tracker is modelled; issuers share no state, and the estimates are read by nothing else here.
- The rule predicates' own language, the sequencer, the models, row-level security, HTTP, webhooks and the console: outside this model.
- Card and eNACH execution windows, ticket bands, jitter: they choose when an action is scheduled and which prior a model looks up; nothing stated here about firing, settling, projecting or the ledger depends on either.
