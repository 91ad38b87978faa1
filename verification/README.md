# Payment verification: a verified model

A phone captures wallet SMS and uploads them; a server stores and parses them; a matching engine ties each SMS to a
merchant's order; signed webhooks announce the result. The correctness of the platform rests on three state machines
and some arithmetic beside them. This project models them in Dafny and proves what their documentation promises, or
exactly how far the promise holds.

## What is modelled

**The matching engine.** `Score`, `Heuristic` and `Decide` are the pure decision: guards, future check, exact TrxID
pass, weighted heuristic; `HeuristicRule` says in points, and for a lone candidate in integers, what the heuristic
verifies. `Tables` holds the rows and the queries, `Engine` and `Lifecycle` the effects of every request as functions
from one database state to the next. A transaction that violates a unique index has no next state, so it rolls back
whole. `Invariants` and `Steps` define the step relation (register, reverse match, upload, rematch, cancel, correct,
expiry sweep, link, dismiss, void) and prove that every run keeps eleven invariants together. `Verdict`, `MatchEffects`,
`RequestEffects` and `EventBirth` say, column by column, what a run reads and decides and what every request writes and
announces. On top of them, `MoneySafety` bounds what is credited by what was received, `Stability` says what no step
takes back, `Spending` says how often a TrxID can be spent, `ReverseCredit` what a reverse match credits, `ArrivalOrder`
shows that it does not matter whether order or SMS comes first, `MatchedLabel` says which steps part an SMS's label from
its verification, and `Witnesses` gives concrete runs for claims that fail. `Store` is the same state as mutable tables,
and `MatchingService` (retry loop, reverse match, keyset rescan), `OrderService`, `AdminService` and `IngestionService`
are the services over them: every method is proved equal to the transition function it implements.

**The upload queue.** `DeviceQueue` is the per-row state machine, settlement, backoff and the SQL statements over the
row table; `UploadPending` and `ManualSync` are the drain loop and the use cases over a mutable table; `UploadFailure`
says what a failed call does and for how long its rows wait, `UploadProgress` exactly when the loop ends, `InFlight`
which rows it leaves UPLOADING. `ServerLogs` and `UploadProtocol` put phone and server on a network that loses requests
and replies, with a worker that can die between any two row writes and a server that may process any request it was ever
sent, in part or repeatedly: nothing captured is lost and nothing is stored twice.

**The webhook outbox.** `WebhookSchedule` (schedule, jitter, classification), `WebhookDelivery` (one attempt, breaker,
manual retry, replay, sweep), `WebhookAnswers` (each of them by HTTP status and column), `WebhookRuns` (invariants of
every run) and `WebhookService` (the code over mutable tables). `Announcements` runs it together with the payment tables
that fill it.

**Supporting algorithms.** `Money` and `Text` (exact paisa), `Calendar` and `TimeParser` (provider timestamps),
`RateLimit` (sliding-window log), `Idempotency` (keys under arbitrary interleaving).

`Prelude`, `MatchTypes` and `Outbox` hold shared vocabulary.

## Where the code says less than its comments

Each entry names where the statement fails and the lemma that says exactly when it holds.

- "A TrxID already spent by a prior verification" is "never a 2nd verify"
  (`apps/api/src/modules/matching/core/exact-pass.ts:33`):
  the spent set is only consulted when no order is eligible. `Decide.SpentVerifiesIff` and `Spending.SpentCreditsIff`
  say exactly when a spent TrxID verifies and credits again. The true bound is one exact and one heuristic
  verification per TrxID (`Spending.TrxIdSpentAtMostOncePerPass`), and it is reached
  (`Witnesses.SpendingBoundIsTight`).
- The checked invariant is that a MATCHED SMS has a verification (`sql/invariants.sql:20-24`), and it holds. Its
  converse fails: an SMS keeps its verification and loses MATCHED when matching runs on it again and does not verify
  (`Witnesses.VerifiedSmsMayLoseItsStatus`), or when an OPEN review of it is dismissed
  (`MatchedLabel.LinkThenDismissRelabels`); exactly these steps do it (`MatchedLabel.StepRelabelsIff`,
  `StepKeepsMatchedIff`).
- A manual sync is "only true when the queue is actually empty"
  (`apps/android/app/src/main/kotlin/com/inovisolutions/paymentsync/domain/usecase/RunManualSync.kt:24`): rows can
  still be UPLOADING, left by a killed worker (`ManualSync.YoungClaimIsOverlooked`) or by an unknown reply status
  (`UnknownReplyIsOverlooked`). `FullySyncedIff` gives the exact condition.
- A webhook event is "DELIVERED at most once"
  (`apps/api/src/modules/webhooks/delivery/delivery.service.ts:37`): a manual retry of a DELIVERED event delivers it
  again (`WebhookRuns.RetryRedelivers`), and nothing else does (`DeliveredAtMostOnceIff`). Held events of a
  reactivated company wait for a manual retry (`PausedUntilRetried`).
- "When the breaker is open, spacing is floored at 1h" (`apps/api/src/modules/webhooks/delivery/schedule.ts:29`): a
  shorter Retry-After overrides the floor (`apps/api/src/modules/webhooks/delivery/delivery.service.ts:284-287`,
  `WebhookDelivery.ShortRetryAfterBeatsBreaker`); `FloorHoldsIff` gives the exact condition.
- On the phone a Retry-After is capped at an hour
  (`apps/android/app/src/main/kotlin/com/inovisolutions/paymentsync/domain/sync/BackoffCalculator.kt:29-33`), but a
  huge value wraps and gives a negative wait; `DeviceQueue.RetryAfterBoundedIff` has the input and the exact condition.
- The money parser throws "on any ambiguity" (`packages/shared/src/money.ts:53`), but drops a decimal comma like a
  thousands separator (`packages/shared/src/money.ts:64`, `Money.CommaIsDropped`); `CommaIsPointIff` says exactly when
  that makes no difference.
- The drain loop (`apps/android/app/src/main/kotlin/com/inovisolutions/paymentsync/domain/usecase/UploadPending.kt:62-108`)
  need not end against a server whose replies mention none of the hashes sent (`UploadProgress.SilentServerNeverEnds`);
  `NeverEndsIff` says exactly when.
- A reverse match scans SMS "that already carry this order's TrxID"
  (`apps/api/src/modules/matching/matching.service.ts:96-97`): for an order without a TrxID it scans by amount and time
  (lines 133-145) and can credit another order (`Witnesses.HeuristicReverseCreditsAnother`);
  `ReverseCredit.ReverseCreditsIff` says exactly which order is credited.

## Model

| member | source | states |
|---|---|---|
| Score.NoSenderCapsScore | apps/api/src/modules/matching/heuristic/score.ts:54-101 | Without a matching registered sender an order scores at most 0.70, with a sender-compatible rival at most 0.70, with both at most 0.40. |
| Score.ScoreDependsOn | apps/api/src/modules/matching/heuristic/score.ts:76-101 | Other candidates touch a score only through whether a rival exists and whether there is more than one candidate. |
| Score.MoreCandidatesCost | apps/api/src/modules/matching/heuristic/score.ts:76-99 | Adding candidates to two or more never raises a score and lowers it by at most 0.30. |
| Score.AmountSignal | apps/api/src/modules/matching/heuristic/score.ts:43-46 | The amount signal stays between 0 and 1. |
| Score.TimeSignal | apps/api/src/modules/matching/heuristic/score.ts:62-64 | The time signal stays between 0 and 1, also for a zero-length window. |
| Heuristic.RankedIsCandidates | apps/api/src/modules/matching/heuristic/heuristic.strategy.ts:29-31 | The scored list is the candidate list, each with its own score, in non-increasing score order. |
| Heuristic.WinnerIsVerified | apps/api/src/modules/matching/heuristic/heuristic.strategy.ts:47-71 | An order that clears the threshold and leads every other candidate by 0.25 is the one verified, with its rounded score and exact delta. |
| Heuristic.VerifiedIsWinner | apps/api/src/modules/matching/heuristic/heuristic.strategy.ts:47-71 | Whatever the sort-and-compare code verifies clears the threshold and leads every other candidate by 0.25. |
| Heuristic.VerifiesIffWins | apps/api/src/modules/matching/heuristic/heuristic.strategy.ts:22-72 | The sort, cap and top-two comparison verify some order if and only if, below the cap, one order clears the threshold and leads by the gap; what the scores are is HeuristicRule.ScoreIsPoints. |
| HeuristicRule.ScoreIsPoints | apps/api/src/modules/matching/heuristic/score.ts:43-101 | A score in hundredths, from the columns: up to 45 for the part of the tolerance not used, up to 15 for the part of the window not used, 30 for the sender, 10 for the provider (5 when the order names none), minus 30 for a competitor and 10 for a popular amount among several, cut off at zero. |
| HeuristicRule.ScoreMovesBy | apps/api/src/modules/matching/heuristic/score.ts:93-100 | Between any two situations the uncut score moves by exactly 0.45 of the tolerance, 0.15 of the window, 0.30, 0.10 or 0.05, 0.30 and 0.10 for these columns; a lone order that fits in everything scores one. |
| HeuristicRule.VerifiesLeader | apps/api/src/modules/matching/heuristic/heuristic.strategy.ts:22-72 | A candidate is verified exactly when, below fifty candidates, its points reach the threshold and are twenty-five ahead of every other; order, pass, delta, flag and rounded confidence are as stated. |
| HeuristicRule.HeuristicAnswers | apps/api/src/modules/matching/heuristic/heuristic.strategy.ts:22-72 | Every answer of the pass: unmatched exactly when switched off or without candidates, verified exactly when one leads, else a review that lists each candidate once, best first, with its amounts and points. |
| HeuristicRule.LoneVerifiesIff | apps/api/src/modules/matching/heuristic/heuristic.strategy.ts:66-68 | A lone candidate is verified exactly when 45 times the used tolerance plus 15 times the used window stays within what sender, provider and threshold leave. |
| HeuristicRule.NamedOrderVerifiesIff | apps/api/src/modules/matching/heuristic/heuristic.strategy.ts:66-68 | At the threshold 0.90 a lone order naming this sender and provider, off by d of tolerance t and paid a into window w, is verified exactly when 9dw + 3at <= 2tw. |
| Heuristic.ConfidenceInRange | apps/api/src/modules/matching/heuristic/heuristic.strategy.ts:55-77 | Under the allowed settings a heuristic confidence lies in [0.5, 1], inside what the stored column accepts. |
| Heuristic.OrderIndependent | apps/api/src/modules/matching/heuristic/heuristic.strategy.ts:21-73 | For permuted candidates with distinct ids the decision verifies the same order with the same confidence, or gives REVIEW over the same multiset of lines. |
| Heuristic.NewcomerNeverRedirects | apps/api/src/modules/matching/heuristic/heuristic.strategy.ts:66-71 | If a set verifies order a, the set plus one more candidate verifies a, or the newcomer, or gives REVIEW; never another member. |
| Heuristic.StrictThresholdMeansSender | apps/api/src/modules/matching/heuristic/score.ts:76-101 | Above a threshold of 0.70, a verified order among candidates satisfying the query names exactly the SMS sender, is the only sender-compatible candidate, and every other scores at most 0.40. |
| Heuristic.GapIsImplied | apps/api/src/modules/matching/heuristic/score.ts:76-101 | Above 0.70 an order is verified if and only if it clears the threshold: the 0.25-gap test never changes the outcome. |
| Heuristic.SeventyIsSharp | apps/api/src/modules/matching/heuristic/score.ts:93-100 | At a threshold of exactly 0.70 an order without a registered sender is verified, so the bound is sharp. |
| Decide.CompareAmount | apps/api/src/modules/matching/core/amount-compare.ts:17-27 | UNDERPAID and OVERPAID hold exactly strictly outside the inclusive tolerance band; the delta is exact and in range. |
| Decide.ExactVerifiesIff | apps/api/src/modules/matching/core/exact-pass.ts:36-102 | The exact pass verifies an order if and only if it is the one eligible order claiming the TrxID and is not underpaid beyond tolerance; confidence, delta, lateness and flag are as stated. |
| Decide.UnderpaymentIsReviewed | apps/api/src/modules/matching/core/exact-pass.ts:77-90 | A single eligible order that is underpaid beyond tolerance is reviewed, never verified. |
| Decide.SpentIgnoredWhenEligible | apps/api/src/modules/matching/core/exact-pass.ts:42-52 | With an eligible order the set of spent TrxIDs does not change the decision, unlike the comment above the function. |
| Decide.GuardsAre | apps/api/src/modules/matching/core/guards.ts:15-30 | The guards let through exactly the SMS of a company not DISABLED, from no or an ACTIVE device, that is money in, from an allowed provider, parsed, with a positive amount; a refusal names the first of the six that fails. |
| Decide.DecisionIs | apps/api/src/modules/matching/core/decide.ts:15-34 | Every decision, in columns: a guard, a date more than five minutes ahead, the claims of the TrxID, a duplicate exactly for a spent TrxID nothing claims, else the heuristic pass. |
| Decide.TwoClaimsAreReviewed | apps/api/src/modules/matching/core/exact-pass.ts:54-70 | Two claims of the TrxID give an AMBIGUOUS_CANDIDATES review with one line for each claim and no other. |
| Decide.SingleClaimIsAnswered | apps/api/src/modules/matching/core/exact-pass.ts:72-102 | A single claim is verified with confidence 1, exact delta, lateness and overpayment flag, or below the tolerance band reviewed for AMOUNT_MISMATCH. |
| Decide.VerifiesIff | apps/api/src/modules/matching/core/decide.ts:15-34 | The composed decision verifies exactly when the SMS is usable (the six columns) and in time, and either one eligible order claims the TrxID and is not underpaid, or none claims it, it is not spent, and below fifty candidates one leads by points. |
| Decide.SpentVerifiesIff | apps/api/src/modules/matching/core/exact-pass.ts:31-52 | A spent TrxID is decided VERIFIED exactly when the SMS is usable and in time and one eligible order claims it and is not underpaid. |
| Decide.VerifiedIsSound | apps/api/src/modules/matching/core/decide.ts:15-34 | Every verification of the composed decision passed all guards, names a candidate, and is covered by received money plus tolerance with an exact delta. |
| Tables.Scan | apps/api/src/modules/matching/candidate.repository.ts:67-82 | A table scan returns exactly the rows its filter keeps, each once. |
| Tables.HeuristicCandidatesAreRows | apps/api/src/modules/matching/candidate.repository.ts:90-123 | Every heuristic candidate is a row of the table that satisfies the query, each at most once. |
| Tables.HeuristicCandidatesAreNewest | apps/api/src/modules/matching/candidate.repository.ts:119-121 | Heuristic candidates come newest first, so the cap drops the oldest. |
| Tables.HeuristicCandidatesAreAll | apps/api/src/modules/matching/candidate.repository.ts:111-120 | Below the cap every order satisfying the query is a candidate. |
| Engine.InputIsTables | apps/api/src/modules/matching/matching.service.ts:190-223 | Both candidate lists handed to the decision are distinct rows of the tables satisfying their queries. |
| Verdict.RejectedIff | apps/api/src/modules/matching/core/guards.ts:15-30 | On the tables a run rejects exactly the rows that are not usable and names the first failing column; a row that was not parsed is refused as not being money in. |
| Verdict.ExactCandidatesAre | apps/api/src/modules/matching/candidate.repository.ts:67-82 | The exact candidates are the PENDING or EXPIRED orders of the company with the TrxID of the SMS, column by column. |
| Verdict.HeuristicCandidatesAre | apps/api/src/modules/matching/candidate.repository.ts:90-123 | The heuristic candidates are orders that fit by company, status, TrxID, amount, time window, provider and sender; all of them when fewer than fifty. |
| Verdict.FactsAre | apps/api/src/modules/matching/matching.service.ts:190-202 | The remaining facts a decision is given are the columns of the SMS row, the settings and the clock. |
| Verdict.SpentIs | apps/api/src/modules/matching/matching.service.ts:203-223 | A TrxID counts as spent exactly when a verification of the company used an SMS carrying it. |
| Engine.ReverseRows | apps/api/src/modules/matching/matching.service.ts:107-148 | A reverse match visits only existing UNMATCHED rows. |
| Engine.RowsWhere | apps/api/src/modules/matching/matching.service.ts:118-145 | A reverse query returns only rows its filter keeps, at most two hundred. |
| Engine.ByTimeOrders | apps/api/src/modules/matching/matching.service.ts:118-145 | A reverse query visits rows in SMS-time order (oldest first for a TrxID, newest first for an amount), rows without a time last. |
| Engine.RowsWhereAll | apps/api/src/modules/matching/matching.service.ts:118-145 | When fewer than two hundred rows qualify every one of them is visited. |
| MatchEffects.CreditWrites | apps/api/src/modules/matching/apply-decision.ts:50-119 | A credit goes through exactly when order and SMS are unused and no other PENDING or VERIFIED order of the company holds the TrxID; then exactly the order, the SMS and one new verification are written, with these columns. |
| MatchEffects.RunWrites | apps/api/src/modules/matching/apply-decision.ts:25-189 | What a run writes for each decision: the credit; or the SMS status and flags, and the OPEN review unless the pair has one; nothing when the credit is blocked or both attempts fail. |
| MatchEffects.ReverseRowsAre | apps/api/src/modules/matching/matching.service.ts:112-147 | A reverse match visits exactly the UNMATCHED SMS with the TrxID, or parsed, within tolerance and window; at most two hundred, and all when fewer; and none for orders that cannot be matched. |
| MatchEffects.ReverseRowsOrdered | apps/api/src/modules/matching/matching.service.ts:121-145 | Oldest SMS first for a TrxID, newest first for an amount, rows without a time last. |
| Store.PaymentTables.InsertReview | apps/api/src/modules/matching/apply-decision.ts:226-251 | Adds the review unless an OPEN one for the pair exists. |
| Store.PaymentTables.InsertOrder | apps/api/prisma/schema.prisma:369-369 | Inserts exactly when the order reference is free and the partial unique index admits the row. |
| Store.PaymentTables.UpdateOrder | apps/api/prisma/migrations/20260727085500_invariants_and_indexes/migration.sql:8-11 | Updates one order row exactly when the partial unique index admits it. |
| Store.PaymentTables.ApplyVerified | apps/api/src/modules/matching/apply-decision.ts:50-119 | Reports success exactly when all unique indexes admit the credit, and then leaves verification, order, SMS and event as specified. |
| Store.PaymentTables.ApplyReviewed | apps/api/src/modules/matching/apply-decision.ts:121-189 | Review row, SMS status and the optional review webhook, as specified. |
| Store.PaymentTables.Apply | apps/api/src/modules/matching/apply-decision.ts:25-48 | Applies any decision, or reports the unique violation. |
| MatchingService.DecideThenApply | apps/api/src/modules/matching/matching.service.ts:190-249 | Load, decide and apply inside the transaction equal the transition function. |
| MatchingService.MatchBySms | apps/api/src/modules/matching/matching.service.ts:68-94 | The retry loop commits one run, or leaves the tables alone after a conflict or two failures, and returns the status the specification gives. |
| MatchingService.ReverseMatchOrder | apps/api/src/modules/matching/matching.service.ts:99-168 | The row loop equals the specified reverse match: it stops at the first verification and undoes everything on a conflict. |
| MatchingService.RescanIdsExact | apps/api/src/modules/matching/rescan.service.ts:40-50 | The rows a rescan may page are exactly the eligible ones, each once, in id order. |
| MatchingService.RescanPage | apps/api/src/modules/matching/rescan.service.ts:39-58 | One page is the next two hundred eligible rows; behind the cursor the rest is unchanged although the visits rewrite rows. |
| MatchingService.RescanCompany | apps/api/src/modules/matching/rescan.service.ts:29-65 | The keyset loop terminates, matches exactly the rows that were eligible at the start, each once and in order, and returns their number (-1 when deduplicated away). |
| MatchingService.RescanIsARun | apps/api/src/modules/matching/rescan.service.ts:52-55 | A rescan is a run of single matches, so it keeps every run invariant. |
| Lifecycle.IngestAll | apps/api/src/modules/sms/ingestion.service.ts:40-47 | One result per message; no SMS row is lost. |
| Lifecycle.FindOrder | apps/api/src/modules/payments/payments.service.ts:115-123 | Finds the order of a company with a given reference when there is one. |
| Invariants.CreditKeeps | apps/api/src/modules/matching/apply-decision.ts:50-119 | A sound, admitted credit keeps all eleven table invariants. |
| Invariants.CreditAnnounces | apps/api/src/modules/matching/apply-decision.ts:81-116 | A credit adds one outbox row that announces this order, with its reference, TrxID, expected amount, callback and time of verification. |
| EventBirth.RunTells | apps/api/src/modules/matching/apply-decision.ts:102-115 | A matching run that adds a verification appends one row: that payment, addressed to its merchant, true of the tables, due now exactly when the company is active and held back exactly when it is not. |
| EventBirth.DecideTells | apps/api/src/modules/matching/apply-decision.ts:81-189 | How many rows a run adds: one for a verification, one for a review of a single order if asked for, none otherwise. |
| EventBirth.StepTells | apps/api/src/modules/webhooks/event.service.ts:33-74 | Every step of the system appends only rows that say what the tables have, stamped with its clock, due for an active company and held for another; a link never holds them. |
| Invariants.CreditKeepsTrxBound | apps/api/src/modules/matching/apply-decision.ts:61-77 | A credit keeps the spending bound: an earlier exact verification of the TrxID would hold the live index against it. |
| Invariants.VoidKeeps | apps/api/src/modules/matching/admin/void-verification.controller.ts:39-53 | Voiding keeps all invariants. |
| Invariants.SetOrderKeeps | apps/api/src/modules/payments/payments.service.ts:153-198 | Moving an unverified order between unverified states, or changing its TrxID, keeps all invariants when the index admits it. |
| Invariants.SetSmsKeeps | apps/api/src/modules/matching/apply-decision.ts:208-224 | Relabelling an SMS keeps all invariants as long as MATCHED is only written on an SMS with a verification. |
| Steps.DecisionIsSound | apps/api/src/modules/matching/matching.service.ts:190-229 | What the decision verifies on the loaded input is a sound credit: same company, live order, covered amount, and not spent when heuristic. |
| Steps.DecideAndApplyKeeps | apps/api/src/modules/matching/matching.service.ts:190-249 | A committed matching transaction keeps all invariants. |
| Steps.ReportedIsStored | apps/api/src/modules/matching/matching.service.ts:271-291 | The status a completed run reports is the status it left in the row, conflicts included. |
| Steps.RewriteChangesNothing | apps/api/src/modules/sms/ingestion.service.ts:149-155 | As one atomic step, the status rewrite after matching writes what is already there. |
| Steps.AppliedStatus | apps/api/src/modules/matching/apply-decision.ts:25-48 | Applying a decision leaves its SMS with the reported status and touches no other SMS. |
| Steps.ReverseMatchKeeps | apps/api/src/modules/matching/matching.service.ts:99-168 | A reverse match keeps all invariants, committed or rolled back. |
| Steps.IngestAllKeeps | apps/api/src/modules/sms/ingestion.service.ts:31-58 | Ingesting a batch keeps all invariants. |
| Steps.RegisterKeeps | apps/api/src/modules/payments/payments.service.ts:34-129 | Registering an order keeps all invariants. |
| Steps.CancelKeeps | apps/api/src/modules/payments/payments.service.ts:153-166 | Cancelling keeps all invariants. |
| Steps.CorrectKeeps | apps/api/src/modules/payments/payments.service.ts:169-198 | Correcting a TrxID keeps all invariants. |
| Steps.ExpireAllKeeps | apps/api/src/modules/payments/expiry.service.ts:29-57 | The expiry sweep keeps all invariants. |
| Steps.LinkKeeps | apps/api/src/modules/reviews/resolve.service.ts:61-147 | A manual link keeps all invariants, committed or rolled back. |
| Steps.DismissKeeps | apps/api/src/modules/reviews/resolve.service.ts:171-189 | Dismissing a review keeps all invariants. |
| Steps.StepKeeps | apps/api/src/modules/matching/invariants.service.ts:21-53 | Every step of the system keeps all invariants together. |
| Steps.RunKeeps | apps/api/src/modules/matching/invariants.service.ts:21-53 | Every run keeps them. |
| Steps.ReachableSafe | apps/api/src/modules/matching/invariants.service.ts:21-53 | In every reachable state: an order is VERIFIED exactly when it has its one verification, MATCHED SMS have one, no SMS is used twice, live TrxIDs are unique per company, deltas are exact, every VERIFIED order has its own announcement in the outbox. |
| Stability.StepEvolves | apps/api/src/modules/matching/matching.service.ts:190-249 | Every step but a void keeps every order as registered, every VERIFIED order and every verification untouched, every SMS as parsed with all its flags, and every outbox row, in order. |
| Stability.VoidIsLocal | apps/api/src/modules/matching/admin/void-verification.controller.ts:39-53 | A void takes back its own verification and reopens its own order; everything else stays. |
| Stability.RunEvolves | apps/api/src/modules/matching/matching.service.ts:190-249 | Over a run without voids nothing credited is ever taken back. |
| Stability.DecideEvolves | apps/api/src/modules/matching/apply-decision.ts:25-48 | A committed matching transaction never touches an order that was already VERIFIED. |
| MoneySafety.DeltasConserveMoney | apps/api/src/modules/matching/apply-decision.ts:61-72 | For every group of companies, one or all: the amounts of the distinct SMS spent equal the expected amounts credited plus the stored deltas. |
| MoneySafety.CreditedIsCovered | apps/api/src/modules/matching/core/exact-pass.ts:74-102 | For every group of companies: the expected amounts of automatically verified orders never exceed the amounts of the distinct SMS spent on them plus their tolerances. |
| MoneySafety.RunsConserveMoney | apps/api/src/modules/matching/core/exact-pass.ts:74-102 | Both hold in every reachable state, company by company and over all of them. |
| Spending.RunTouchesOneSms | apps/api/src/modules/matching/matching.service.ts:190-249 | A run rewrites no SMS but its own, and never an amount, a TrxID or any other fact. |
| Spending.CreditedSmsNeverCreditsAgain | apps/api/src/modules/matching/matching.service.ts:190-249 | An SMS with a verification credits nothing again whatever its status; such a run rolls back. |
| Spending.ConflictIff | apps/api/src/modules/matching/matching.service.ts:80-83 | A run ends in a unique violation exactly when it verifies and its SMS is already used or another live order holds the TrxID. |
| Spending.HeuristicNeverTakesSpent | apps/api/src/modules/matching/matching.service.ts:203-223 | The heuristic pass never verifies an SMS whose TrxID is spent. |
| Spending.SpentDecidedIff | apps/api/src/modules/matching/matching.service.ts:190-223 | The same on the tables: a spent TrxID is decided VERIFIED exactly when some order is the sole eligible one to claim it. |
| Spending.SpentCreditsIff | apps/api/src/modules/matching/matching.service.ts:190-249 | A run on an SMS that credited nothing yet, with a spent TrxID, credits an order exactly when the database answers, the guards pass, it is not dated in the future, and the sole claim is not an EXPIRED order whose TrxID a live order holds. |
| Spending.TrxIdSpentAtMostOncePerPass | apps/api/src/modules/matching/matching.service.ts:203-228 | In a reachable state a company TrxID is on the SMS of at most one exact and at most one heuristic verification. |
| ReverseCredit.SameReadingDecidesSame | apps/api/src/modules/matching/matching.service.ts:190-223 | Decisions read nothing that a decision other than a verification writes, so rows visited earlier do not change later decisions. |
| ReverseCredit.LoopStopsAtFirst | apps/api/src/modules/matching/matching.service.ts:149-152 | The row loop stops at the first row the tables it started on would verify: it credits exactly that decision when the unique indexes admit it, conflicts when they do not, and credits nothing when there is no such row. |
| ReverseCredit.ReverseCreditsFirst | apps/api/src/modules/matching/matching.service.ts:99-168 | The same for the whole reverse match; on a conflict nothing changes. |
| ReverseCredit.ReverseCreditsIff | apps/api/src/modules/matching/matching.service.ts:99-168 | A reverse match, whichever order it was started for, credits order i exactly when the first row it would verify decides for i, credited nothing before, and i is not an EXPIRED order whose TrxID a live order holds. |
| ReverseCredit.ReverseSpentCreditsIff | apps/api/src/modules/matching/matching.service.ts:99-168 | An SMS that credited nothing yet, with a spent TrxID, credits an order in a reverse match exactly when the match reaches it, the guards pass, it is not dated in the future, and its sole claim is not such an EXPIRED order. |
| ReverseCredit.ExactReverseCreditsItsOrder | apps/api/src/modules/matching/matching.service.ts:118-153 | Reverse-matching a pending order with a TrxID credits that order or none. |
| ReverseCredit.UnverifiedKeepsOrders | apps/api/src/modules/matching/matching.service.ts:149-153 | A reverse match that verifies nothing changes no order. |
| Spending.CancelWriteSafeIff | apps/api/src/modules/payments/payments.service.ts:154-164 | An interleaved cancel write keeps the order-has-verification invariant exactly when the order was not verified in between. |
| Spending.CorrectWriteSafeIff | apps/api/src/modules/payments/payments.service.ts:170-190 | The same for the unconditional correction write. |
| Spending.MatchedWriteSafeIff | apps/api/src/modules/sms/ingestion.service.ts:149-155 | A late MATCHED rewrite is safe exactly when the SMS still has its verification. |
| Witnesses.VerifiedSmsMayLoseItsStatus | apps/api/src/modules/matching/matching.service.ts:190-249 | A concrete run after which an SMS with a verification is labelled DUPLICATE_TXN: the converse of the MATCHED invariant fails. |
| MatchedLabel.RematchRelabelsIff | apps/api/src/modules/matching/matching.service.ts:190-249 | Running matching again on a MATCHED SMS with a verification takes the label away exactly when the run reaches the database and decides anything but a verification; the verification stays. |
| MatchedLabel.StepRelabelsIff | apps/api/src/modules/reviews/resolve.service.ts:171-189 | Of all steps exactly two leave an SMS with its verification but without MATCHED: such a run, and the dismissal of an OPEN review that names the SMS. |
| MatchedLabel.StepKeepsMatchedIff | apps/api/src/modules/matching/apply-decision.ts:208-224 | A step keeps "MATCHED exactly when verified" for all SMS if and only if it is neither of these two for an SMS with a verification. |
| MatchedLabel.GuardedRunsKeepMatchedIff | apps/api/src/modules/matching/matching.service.ts:190-249 | Over every run without these two the equivalence is an invariant. |
| MatchedLabel.GuardedReachableIsLabelled | apps/api/src/modules/matching/invariants.service.ts:21-53 | From empty tables such a run ends with MATCHED exactly on the verified SMS. |
| MatchedLabel.LinkThenDismissRelabels | apps/api/src/modules/reviews/resolve.service.ts:61-189 | After a manual link, dismissing another OPEN review of the linked SMS takes MATCHED from an SMS with a verification. |
| Witnesses.SpendingBoundIsTight | apps/api/src/modules/matching/core/exact-pass.ts:45-51 | A concrete run after which one TrxID backs a heuristic and an exact verification. |
| Witnesses.HeuristicReverseCreditsAnother | apps/api/src/modules/matching/matching.service.ts:133-153 | A concrete run in which reverse-matching an order without a TrxID credits another order. |
| ArrivalOrder.ArrivalOrderIrrelevant | apps/api/src/modules/matching/matching.service.ts:99-168 | For a TrxID nobody else used and an SMS without heuristic candidates, register-then-ingest and ingest-then-register end in the same tables (order, SMS, verification, flags, review, event) up to clock readings. |
| ArrivalOrder.FreshPairVerifiesIff | apps/api/src/modules/matching/matching.service.ts:99-168 | Such a pair ends verified exactly when the guards pass, the SMS is not dated in the future, and the order is not underpaid beyond tolerance. |
| OrderService.Register | apps/api/src/modules/payments/payments.service.ts:34-129 | Registration equals create-then-reverse-match; the answered status is the stored one, also for a repeated request. |
| RequestEffects.ValidatedAs | apps/api/src/modules/payments/payments.service.ts:44-85 | The refusal names the first check that fails, in the order amount, TrxID, sender, provider, callback, metadata. |
| RequestEffects.RegisterWrites | apps/api/src/modules/payments/payments.service.ts:87-142 | The answer to a registration from the columns of request and tables, and every column of the one row it may add, expiry time included. |
| RequestEffects.CancelWrites | apps/api/src/modules/payments/payments.service.ts:153-166 | Cancelling changes the status of exactly the named PENDING order; the refusals are told apart. |
| RequestEffects.CorrectWrites | apps/api/src/modules/payments/payments.service.ts:169-198 | A correction within twenty-four hours of expiry sets TrxID, mode and status of exactly the named order unless a live order holds the TrxID; the refusals are told apart. |
| RequestEffects.LinkWrites | apps/api/src/modules/reviews/resolve.service.ts:48-147 | A link answers from the columns, writes a manual credit of full confidence with its exact delta, and closes the review. |
| RequestEffects.DismissWrites | apps/api/src/modules/reviews/resolve.service.ts:163-189 | A dismissal closes an OPEN review and makes its SMS IGNORED when it is no payment, UNMATCHED otherwise, and changes nothing else. |
| RequestEffects.VoidWrites | apps/api/src/modules/matching/admin/void-verification.controller.ts:33-53 | A void deletes the verification, reopens its order and frees its SMS, unless another live order took the TrxID; nothing else changes. |
| RequestEffects.MessageBecomes | apps/api/src/modules/sms/ingestion.service.ts:60-175 | A message is rejected, a duplicate of an earlier log (recent content first) or of its batch, or a new log with every column as extracted that is then matched once; the answer carries the status the log has. |
| OrderService.RegisterIsIdempotent | apps/api/src/modules/payments/payments.service.ts:112-142 | Repeating an accepted registration answers with the same order and changes nothing, as long as the stored TrxID, amount and provider are those registered. |
| OrderService.RegisterOutcomeIff | apps/api/src/modules/payments/payments.service.ts:87-128 | An order is created exactly when the request is valid, its reference unused and no live order holds its TrxID; the refusals are told apart by the reference, and change nothing. |
| OrderService.CancelAndCorrectIff | apps/api/src/modules/payments/payments.service.ts:153-198 | An order is cancelled exactly when found PENDING, and corrected exactly when it is PENDING or EXPIRED for less than a day, the TrxID is well formed, and no live order holds it; otherwise nothing changes. |
| OrderService.CorrectTransactionId | apps/api/src/modules/payments/payments.service.ts:169-210 | Corrects while PENDING or EXPIRED within grace and the index admits it, then reverse-matches. |
| OrderService.SweepOrders | apps/api/src/modules/payments/expiry.service.ts:22-57 | The sweep loop equals its specification, count included. |
| OrderService.SweepExact | apps/api/src/modules/payments/expiry.service.ts:22-57 | A sweep turns overdue PENDING orders EXPIRED, no other row, counts them, stops at five hundred, and leaves none overdue when they were fewer. |
| OrderService.ExpireAllAnnounces | apps/api/src/modules/payments/expiry.service.ts:31-53 | A sweep announces exactly the orders it flipped, for the companies that asked, in order. |
| OrderService.ExpiryEventsTellOf | apps/api/src/modules/payments/expiry.service.ts:31-53 | Every expiry event tells of an order of the batch, with its reference, amount and time, whose company asked. |
| OrderService.ExpiryToldOnce | apps/api/src/modules/payments/expiry.service.ts:31-53 | Each order of the batch whose company asked is told of exactly once. |
| AdminService.Link | apps/api/src/modules/reviews/resolve.service.ts:48-147 | The manual link equals its specification; a unique violation leaves the tables alone. |
| AdminService.LinkSucceedsIff | apps/api/src/modules/reviews/resolve.service.ts:61-147 | A link succeeds exactly when the review is open, the subjects belong to the company, the order is live, and SMS and TrxID are free. |
| AdminService.VoidCredit | apps/api/src/modules/matching/admin/void-verification.controller.ts:33-53 | Voiding equals its specification; a conflict undoes the deletion. |
| AdminService.VoidAlwaysGoesThrough | apps/api/src/modules/matching/admin/void-verification.controller.ts:39-53 | Under the invariants a void never conflicts. |
| AdminService.VoidUndoesCredit | apps/api/src/modules/matching/admin/void-verification.controller.ts:39-53 | Void right after a credit restores orders, verifications and reviews; the announcement stays in the outbox. |
| IngestionService.IngestMessage | apps/api/src/modules/sms/ingestion.service.ts:60-175 | Dedupe in the batch, by content, by client hash; then store, parse, match, restate. |
| IngestionService.ResultNamesRow | apps/api/src/modules/sms/ingestion.service.ts:80-174 | An accepted message names the one row it added, with its parsed fields and stored status; a duplicate names an existing row of the same client hash or recent content. |
| IngestionService.Ingest | apps/api/src/modules/sms/ingestion.service.ts:31-58 | The batch loop equals its specification; its four counters are the numbers of accepted, duplicate, rejected and matched results, and the first three add up to the batch. |
| DeviceQueue.DelayDoubles | apps/android/app/src/main/kotlin/com/inovisolutions/paymentsync/domain/sync/BackoffCalculator.kt:21-27 | The backoff starts at 30 s, doubles, and is one hour exactly from the eighth attempt on. |
| DeviceQueue.RetryAfterBoundedIff | apps/android/app/src/main/kotlin/com/inovisolutions/paymentsync/domain/sync/BackoffCalculator.kt:29-33 | A server wait stays within the hour exactly when the 64-bit product does not wrap negative; an input that wraps is given. |
| UploadFailure.ErrorSetsState | apps/android/app/src/main/kotlin/com/inovisolutions/paymentsync/domain/sync/SyncStateMachine.kt:97-125 | The whole transition of a failed row, error by error: status, attempts, error text, and the next time: Retry-After up to an hour, thirty seconds without one, an hour when blocked, the old one on 401, else thirty seconds doubled with each attempt up to an hour. |
| UploadFailure.FailedPassIs | apps/android/app/src/main/kotlin/com/inovisolutions/paymentsync/domain/usecase/UploadPending.kt:69-84 | A failed call gives exactly the rows of its batch that transition, leaves the others and the counters, and ends the drain. |
| UploadFailure.FailedRowsStayOut | apps/android/app/src/main/kotlin/com/inovisolutions/paymentsync/domain/usecase/UploadPending.kt:63-84 | Until its time comes no row of a failed batch is claimed again. |
| UploadFailure.FailedRowsComeBack | apps/android/app/src/main/kotlin/com/inovisolutions/paymentsync/domain/usecase/UploadPending.kt:63-84 | From then on it is due, unless it is FAILED. |
| DeviceQueue.SettleWriteIs | apps/android/app/src/main/kotlin/com/inovisolutions/paymentsync/domain/sync/Settlement.kt:28-47 | A reply writes a row exactly when its hash was sent and its status is known, and then to UPLOADED or REJECTED. |
| DeviceQueue.ReplyHeals | apps/android/app/src/main/kotlin/com/inovisolutions/paymentsync/domain/sync/SyncStateMachine.kt:67-87 | An accepted or duplicate reply stores the server id and status, clears error and next time, and keeps the attempts. |
| DeviceQueue.RejectionStores | apps/android/app/src/main/kotlin/com/inovisolutions/paymentsync/domain/sync/SyncStateMachine.kt:88-95 | A rejected row stores the reason given, or the word REJECTED, keeps its attempts and is not tried again. |
| DeviceQueue.StatementsFollowMachine | apps/android/app/src/main/kotlin/com/inovisolutions/paymentsync/data/local/Daos.kt:40-81 | The claim, reclaim and requeue statements make the transitions of the state machine. |
| DeviceQueue.KnownRepliesAreWritten | apps/android/app/src/main/kotlin/com/inovisolutions/paymentsync/domain/sync/Settlement.kt:28-47 | Every such reply is written. |
| DeviceQueue.MissedWrites | apps/android/app/src/main/kotlin/com/inovisolutions/paymentsync/domain/usecase/UploadPending.kt:99-103 | Unmentioned rows, and only those, go back to PENDING as they were claimed. |
| DeviceQueue.ClaimBatch | apps/android/app/src/main/kotlin/com/inovisolutions/paymentsync/data/local/Daos.kt:33-38 | A batch holds due rows only, up to the limit, and all of them when it is not full. |
| DeviceQueue.ClaimIsOldestFirst | apps/android/app/src/main/kotlin/com/inovisolutions/paymentsync/data/local/Daos.kt:36-36 | A batch is ordered by SMS time. |
| DeviceQueue.ClaimTakesOldest | apps/android/app/src/main/kotlin/com/inovisolutions/paymentsync/data/local/Daos.kt:33-38 | No due row left out is older than one taken. |
| DeviceQueue.ClaimIsDistinct | apps/android/app/src/main/kotlin/com/inovisolutions/paymentsync/data/local/Daos.kt:33-38 | A batch never holds a key twice. |
| DeviceQueue.WriteAllAt | apps/android/app/src/main/kotlin/com/inovisolutions/paymentsync/data/local/Daos.kt:43-58 | A list of row updates leaves in each row the last one with its key, and the row itself when there is none. |
| UploadPending.MessageTable.FailWholeBatch | apps/android/app/src/main/kotlin/com/inovisolutions/paymentsync/domain/usecase/UploadPending.kt:112-128 | Every row of the batch takes the error transition; re-enrolment is demanded exactly on 401. |
| UploadPending.MessageTable.SettleBatch | apps/android/app/src/main/kotlin/com/inovisolutions/paymentsync/domain/sync/Settlement.kt:28-47 | The settlement loop equals its specification. |
| UploadPending.MessageTable.DrainOnce | apps/android/app/src/main/kotlin/com/inovisolutions/paymentsync/domain/usecase/UploadPending.kt:62-108 | One turn of the loop equals the specified pass, counters included. |
| UploadPending.MessageTable.DrainLoop | apps/android/app/src/main/kotlin/com/inovisolutions/paymentsync/domain/usecase/UploadPending.kt:62-109 | The loop stops where its passes stop. |
| UploadPending.MessageTable.Drain | apps/android/app/src/main/kotlin/com/inovisolutions/paymentsync/domain/usecase/UploadPending.kt:51-110 | Reclaim, loop and report, with the number of rows still PENDING. |
| UploadPending.StopIsUnique | apps/android/app/src/main/kotlin/com/inovisolutions/paymentsync/domain/usecase/UploadPending.kt:62-109 | Where a drain stops does not depend on how many passes it is allowed. |
| UploadProgress.SettledAt | apps/android/app/src/main/kotlin/com/inovisolutions/paymentsync/domain/usecase/UploadPending.kt:66-103 | After a reply, mentioned rows have left PENDING, and every other row is as it was before the claim. |
| UploadProgress.PassShrinksIff | apps/android/app/src/main/kotlin/com/inovisolutions/paymentsync/domain/usecase/UploadPending.kt:62-108 | A pass that goes round again takes rows out of PENDING exactly when its reply mentioned a sent hash; otherwise the table is unchanged. |
| UploadProgress.DrainTerminates | apps/android/app/src/main/kotlin/com/inovisolutions/paymentsync/domain/usecase/UploadPending.kt:62-108 | If every 2xx reply to a full batch mentions a sent hash, the loop ends within one pass more than there are PENDING rows. |
| UploadProgress.SilentServerNeverEnds | apps/android/app/src/main/kotlin/com/inovisolutions/paymentsync/domain/usecase/UploadPending.kt:62-108 | With silent 2xx replies to a full batch from the start it never ends. |
| UploadProgress.NeverEndsIff | apps/android/app/src/main/kotlin/com/inovisolutions/paymentsync/domain/usecase/UploadPending.kt:62-108 | The loop never ends if and only if from some pass on, over a table that no longer changes, every batch is full and every reply is a 2xx that mentions none of the hashes sent. |
| InFlight.SettledUploadingIff | apps/android/app/src/main/kotlin/com/inovisolutions/paymentsync/domain/sync/Settlement.kt:28-47 | An answered pass leaves a row UPLOADING exactly when it claimed the row and the reply names it with unknown statuses alone, or did not claim it and it was UPLOADING. |
| InFlight.EndUploadingIff | apps/android/app/src/main/kotlin/com/inovisolutions/paymentsync/domain/usecase/UploadPending.kt:62-108 | A loop that ends drained leaves a row UPLOADING exactly when one was at its start, or some pass it reached claimed a row and its reply named that row with unknown statuses alone. |
| ManualSync.Capture | apps/android/app/src/main/kotlin/com/inovisolutions/paymentsync/domain/usecase/CaptureSms.kt:31-61 | Capture stores a message once and schedules an upload exactly when it was new. |
| ManualSync.ScanCoversInbox | apps/android/app/src/main/kotlin/com/inovisolutions/paymentsync/domain/usecase/RunManualSync.kt:53-65 | After the scan every inbox message is a row and old rows are untouched. |
| ManualSync.RunManualSync | apps/android/app/src/main/kotlin/com/inovisolutions/paymentsync/domain/usecase/RunManualSync.kt:42-87 | The summary adds up and counts what was added; "fully synced" means no row is PENDING or FAILED, and an empty queue exactly under the condition of FullySyncedIff. |
| ManualSync.FullySyncedMeans | apps/android/app/src/main/kotlin/com/inovisolutions/paymentsync/domain/usecase/RunManualSync.kt:24-25 | A sync that calls itself complete leaves every row UPLOADED, REJECTED or UPLOADING. |
| ManualSync.FullySyncedIff | apps/android/app/src/main/kotlin/com/inovisolutions/paymentsync/domain/usecase/RunManualSync.kt:24-25 | A sync that calls itself complete left an empty queue (every row UPLOADED or REJECTED) if and only if no row was UPLOADING with a message received within the last five minutes, and no pass left a claimed row with unknown reply statuses alone. |
| ManualSync.YoungClaimIsOverlooked | apps/android/app/src/main/kotlin/com/inovisolutions/paymentsync/data/local/Daos.kt:60-65 | When every row is UPLOADED, REJECTED or UPLOADING and received within five minutes, as after a worker was killed, a sync sends nothing, changes nothing, and calls itself complete. |
| ManualSync.UnknownReplyIsOverlooked | apps/android/app/src/main/kotlin/com/inovisolutions/paymentsync/domain/sync/Settlement.kt:28-47 | One new message answered with an unknown status ends as a "complete" sync with that message UPLOADING. |
| ServerLogs.IngestOneLogs | apps/api/src/modules/sms/ingestion.service.ts:60-175 | A message adds a log exactly when accepted, is rejected exactly when its hash is malformed, and otherwise is held afterwards. |
| ServerLogs.IngestAllLogs | apps/api/src/modules/sms/ingestion.service.ts:40-47 | No log is lost in a batch and every result is true of the tables left behind. |
| ServerLogs.ProcessedIsHeld | apps/api/src/modules/sms/ingestion.service.ts:80-140 | A processed request stores every well-formed message in it, whatever was there before. |
| ServerLogs.StepKeepsLogs | apps/api/src/modules/sms/ingestion.service.ts:84-101 | No step loses a log or changes its identity, and none stores a content twice within seven days. |
| ServerLogs.ReachableSpaced | apps/api/src/modules/sms/ingestion.service.ts:84-101 | In every reachable state two logs of one content and company are more than seven days apart. |
| UploadProtocol.ServeKeeps | apps/api/src/modules/sms/ingestion.service.ts:31-58 | The server processing any sent request, wholly or partly and as often as it likes, keeps the protocol invariant. |
| UploadProtocol.DeliverKeeps | apps/android/app/src/main/kotlin/com/inovisolutions/paymentsync/domain/usecase/UploadPending.kt:86-103 | Settling a true reply, or dying half way through it, keeps it. |
| UploadProtocol.FailKeeps | apps/android/app/src/main/kotlin/com/inovisolutions/paymentsync/domain/usecase/UploadPending.kt:112-128 | Failing a batch whose request may have arrived keeps it. |
| UploadProtocol.PurgeKeeps | apps/android/app/src/main/kotlin/com/inovisolutions/paymentsync/data/local/Daos.kt:26-28 | The retention purge keeps it: a purged row is held by the server. |
| UploadProtocol.MoveKeeps | apps/android/app/src/main/kotlin/com/inovisolutions/paymentsync/domain/usecase/UploadPending.kt:51-128 | Every event of the protocol keeps it. |
| UploadProtocol.ExactlyOnceStorage | apps/android/app/src/main/kotlin/com/inovisolutions/paymentsync/domain/usecase/UploadPending.kt:51-128 | Over any run: nothing captured is lost, UPLOADED is held by the server, only malformed hashes are REJECTED, at most one log per client hash and per content within seven days. |
| UploadProtocol.TerminalRowsStay | apps/android/app/src/main/kotlin/com/inovisolutions/paymentsync/domain/sync/SyncStateMachine.kt:46-50 | UPLOADED and REJECTED rows keep their whole state, until an old UPLOADED row is purged. |
| UploadProtocol.EveryOpenRowIsReclaimed | apps/android/app/src/main/kotlin/com/inovisolutions/paymentsync/data/local/Daos.kt:60-81 | After a requeue and a late enough reclaim every open row is PENDING, and due if it was stuck. |
| UploadProtocol.SentIsOut | apps/android/app/src/main/kotlin/com/inovisolutions/paymentsync/domain/usecase/UploadPending.kt:63-71 | Claim and send leave the batch out, its rows UPLOADING. |
| UploadProtocol.PassDelivers | apps/android/app/src/main/kotlin/com/inovisolutions/paymentsync/domain/usecase/UploadPending.kt:86-103 | A loop turn with a reply is the protocol delivering that reply. |
| UploadProtocol.PassFails | apps/android/app/src/main/kotlin/com/inovisolutions/paymentsync/domain/usecase/UploadPending.kt:69-84 | A loop turn with a failed call is the protocol failing the batch. |
| UploadProtocol.AttemptsStayBounded | apps/android/app/src/main/kotlin/com/inovisolutions/paymentsync/domain/sync/SyncStateMachine.kt:114-125 | Over every run from a fresh phone a waiting row has at most ten attempts behind it and a FAILED one exactly eleven. |
| WebhookSchedule.RetriesWhileInBudget | apps/api/src/modules/webhooks/delivery/schedule.ts:31-41 | There is a next attempt exactly while fewer than min(max attempts, 9) were completed. |
| WebhookSchedule.NextAttemptWithin | apps/api/src/modules/webhooks/delivery/schedule.ts:31-44 | The next time is within 20% of the table entry with the breaker closed, and at least an hour away with it open. |
| WebhookSchedule.WaitIsSpread | apps/api/src/modules/webhooks/delivery/schedule.ts:38-44 | The wait is the table entry times 0.8 to 1.2, linear in the draw, to the nearest millisecond. |
| WebhookSchedule.DrawsAre | apps/api/src/modules/webhooks/delivery/delivery.service.ts:337-341 | Three literal draws of the generator. |
| WebhookSchedule.WaitsGrow | apps/api/src/modules/webhooks/delivery/schedule.ts:7-16 | Each wait is shorter than the next, jitter included. |
| WebhookSchedule.Seed | apps/api/src/modules/webhooks/delivery/delivery.service.ts:337-341 | The seeding loop computes the 32-bit hash of event and attempt. |
| WebhookDelivery.DeliveryFrame | apps/api/src/modules/webhooks/delivery/delivery.service.ts:51-142 | An attempt rewrites one event row, never its body, and records exactly one delivery, or none when it did not get as far as the callback. |
| WebhookAnswers.AnswerDecides | apps/api/src/modules/webhooks/delivery/classify.ts:18-45 | By HTTP status: DELIVERED exactly on 2xx, CANCELLED on 410, FAILED on redirects, other 4xx and unsafe callbacks, with the stored reasons; otherwise PENDING while the budget lasts and then DEAD. |
| WebhookAnswers.AnswerCounts | apps/api/src/modules/webhooks/delivery/delivery.service.ts:223-333 | The recorded delivery, and the breaker: closed by a 2xx, untouched by 410, one failure more for anything else, open from ten on. |
| WebhookAnswers.FirstFailureOf | apps/api/prisma/schema.prisma:152-155 | A company without failures before counts one after its first failed attempt, breaker closed, eight attempts by default. |
| WebhookAnswers.IdleDecides | apps/api/src/modules/webhooks/delivery/delivery.service.ts:51-80 | Without an attempt the event is left alone, held for an inactive company, or failed for want of a callback. |
| WebhookAnswers.RetryWaits | apps/api/src/modules/webhooks/delivery/delivery.service.ts:284-287 | The wait of a retry from literal times: exactly what a Retry-After of at most 3600 seconds asks, else within a fifth of 30 s, 2, 10, 30 min, 2, 6, 12 h, a day; with the breaker open not within the hour. |
| WebhookDelivery.DeadIff | apps/api/src/modules/webhooks/delivery/delivery.service.ts:283-300 | An attempt kills the event exactly when it asked for a retry and used up the budget; attempts count by one. |
| WebhookDelivery.ReplayAddsOneAttempt | apps/api/src/modules/webhooks/admin/webhooks-admin.controller.ts:116-119 | A replayed DEAD event gets exactly one more retryable attempt. |
| WebhookDelivery.RetryTime | apps/api/src/modules/webhooks/delivery/delivery.service.ts:284-287 | The retry time is what Retry-After asked for (the breaker floor notwithstanding), else the schedule, else at least an hour. |
| WebhookDelivery.FloorHoldsIff | apps/api/src/modules/webhooks/delivery/delivery.service.ts:284-287 | With the breaker open a retry waits at least an hour exactly when the endpoint asked for nothing or for the full hour. |
| WebhookDelivery.ShortRetryAfterBeatsBreaker | apps/api/src/modules/webhooks/delivery/delivery.service.ts:284-287 | With the breaker open, a 503 with Retry-After: 1 is retried after one second. |
| WebhookDelivery.SweepIdsAreDue | apps/api/src/workers/webhook-sweeper.processor.ts:26-34 | A tick takes due events only, at most two hundred, and all of them when fewer. |
| WebhookDelivery.SweepOldestFirst | apps/api/src/workers/webhook-sweeper.processor.ts:30-32 | A tick takes the longest overdue event first. |
| WebhookAnswers.TickTakes | apps/api/src/workers/webhook-sweeper.processor.ts:26-34 | A tick takes events that are PENDING, not held and whose time has come, each once, longest overdue first, at most two hundred, and all when fewer. |
| WebhookAnswers.RetryWrites | apps/api/src/modules/webhooks/admin/webhooks-admin.controller.ts:78-96 | A manual retry makes exactly one event PENDING, released and due now. |
| WebhookAnswers.ReplayWrites | apps/api/src/modules/webhooks/admin/webhooks-admin.controller.ts:98-131 | A replay makes exactly the DEAD events of the company within the given bounds due now, a dry run none. |
| WebhookRuns.DeliverKeepsBreaker | apps/api/src/modules/webhooks/delivery/delivery.service.ts:304-333 | An attempt keeps the breaker equivalence for every company. |
| WebhookRuns.DeliverKeepsNumbers | apps/api/src/modules/webhooks/delivery/delivery.service.ts:223-245 | Recorded attempts of an event stay numbered 1 to its attempt count. |
| WebhookRuns.DeliverKeepsBudget | apps/api/src/modules/webhooks/delivery/delivery.service.ts:283-300 | An attempt keeps the budget. |
| WebhookRuns.StepKeepsHooks | apps/api/src/modules/webhooks/delivery/delivery.service.ts:247-333 | Every step keeps: pending unpaused events have a next time, the breaker is OPEN (and has an opening time) exactly from ten failures on, that count is the RETRY/FAILED outcomes since the last DELIVERED, attempts are numbered, budgets hold, and deliveries are those retries reopened plus the standing one. |
| WebhookRuns.RunKeepsHooks | apps/api/src/modules/webhooks/delivery/delivery.service.ts:247-333 | Every run keeps them. |
| WebhookRuns.BodiesAreFrozen | apps/api/src/modules/webhooks/event.service.ts:17-22 | No run changes what an event announces, to whom, or when it was created. |
| WebhookRuns.BudgetIsExact | apps/api/src/modules/webhooks/delivery/schedule.ts:21-44 | Without manual requeues an event completes at most min(max, 9) attempts, and exactly that many when DEAD. |
| WebhookRuns.DeliveredAtMostOnceIff | apps/api/src/modules/webhooks/delivery/delivery.service.ts:37-37 | Over every run an event was DELIVERED as often as retries found it DELIVERED, plus one while it is; so at most once exactly when no retry did, or one did and it is not DELIVERED now. |
| WebhookRuns.PausedUntilRetried | apps/api/src/modules/webhooks/delivery/delivery.service.ts:58-64 | A step changes a held event if and only if it is a manual retry of it, which leaves it PENDING, released and due now. |
| WebhookRuns.RetryRedelivers | apps/api/src/modules/webhooks/admin/webhooks-admin.controller.ts:83-86 | A manual retry of a DELIVERED event delivers it again. |
| WebhookRuns.TickHandlesEachOnce | apps/api/src/workers/webhook-sweeper.processor.ts:35-37 | A tick hands each event it took to delivery once and touches no other. |
| WebhookService.HookTables.CreateInTx | apps/api/src/modules/webhooks/event.service.ts:33-74 | Creates the event pending, held back, or cancelled at birth without a callback. |
| WebhookService.HookTables.DeliverOne | apps/api/src/modules/webhooks/delivery/delivery.service.ts:51-142 | One delivery over the tables equals its specification. |
| WebhookService.HookTables.Apply | apps/api/src/modules/webhooks/delivery/delivery.service.ts:247-302 | Outcome and breaker updates equal their specification. |
| WebhookService.HookTables.Tick | apps/api/src/workers/webhook-sweeper.processor.ts:26-41 | The sweeper loop delivers the events taken at its start, in order, and returns their number. |
| WebhookService.HookTables.ReplayDeadEvents | apps/api/src/modules/webhooks/admin/webhooks-admin.controller.ts:98-131 | Returns the number of DEAD events selected and puts them back unless it is a dry run. |
| WebhookService.ReplayEmptiesSelection | apps/api/src/modules/webhooks/admin/webhooks-admin.controller.ts:101-119 | After a replay none of the selection is DEAD and no other event moved. |
| WebhookService.TickLeavesNothing | apps/api/src/workers/webhook-sweeper.processor.ts:26-41 | After a tick that was not full, an event that was due is due again only if it was attempted. |
| Announcements.CreationsStore | apps/api/src/modules/webhooks/event.service.ts:33-74 | The creation steps of the outbox store exactly the rows the payment tables add. |
| Announcements.StepAppends | apps/api/src/modules/matching/apply-decision.ts:81-116 | Every step of the payment tables keeps its outbox rows and appends only rows as they are at creation. |
| Announcements.JointStepKeeps | apps/api/src/modules/webhooks/delivery/delivery.service.ts:51-142 | Payment steps and outbox work, interleaved, keep both sides sound, row by row about the same event, and give no event with a callback up before an attempt. |
| Announcements.HeldHasReason | apps/api/src/modules/webhooks/delivery/delivery.service.ts:58-64 | Over every interleaving a row is held back only if its company was not active when it was created or when it was tried. |
| Announcements.VerifiedIsWorkedOff | apps/api/src/modules/matching/apply-decision.ts:81-116 | Over every such interleaving from empty tables each VERIFIED order has an outbox row telling its own merchant so, which is due, or held because its company was not active, or was attempted; its attempts are numbered and within budget plus requeues, its deliveries exact. |
| Text.ToAsciiDigits | packages/shared/src/money.ts:17-28 | The loop maps Bengali digits to ASCII and leaves every other character. |
| Text.BengaliDigitsAre | packages/shared/src/money.ts:17-28 | The ten Bengali digits read as their values, every other character stays. |
| Text.SpacesAre | packages/shared/src/time.ts:102-110 | White space is exactly the twenty-five characters of ECMA-262. |
| Text.NumeralReadsBack | packages/shared/src/money.ts:90-96 | A printed numeral has no leading zero and reads back. |
| Money.ParseIsExact | packages/shared/src/money.ts:56-74 | A string is accepted exactly when its cleaned form is a decimal numeral in range, and then denotes exactly its value, unrounded. |
| Money.ParsePrintIff | packages/shared/src/money.ts:56-96 | Printing and parsing give the amount back exactly when it is not negative. |
| Money.PrintParse | packages/shared/src/money.ts:56-96 | Parsing and printing a canonical string give the string back. |
| Money.PrintNormalises | packages/shared/src/money.ts:56-96 | Whatever was accepted prints canonically and parses to the same amount. |
| Money.DifferenceStaysInRange | packages/shared/src/money.ts:117-123 | The difference of two parsed amounts is always valid; their sum exactly when in range. |
| Money.CommaIsDropped | packages/shared/src/money.ts:61-64 | A decimal comma is dropped like a thousands separator. |
| Money.CommaIsPointIff | packages/shared/src/money.ts:53-69 | Digits, a comma and one or two digits read like the same with a point exactly when that amount is zero or out of range. |
| Money.UnitIsDropped | packages/shared/src/money.ts:61-63 | Tk, BDT and the taka sign, in any case, before or after the amount, with or without a space, do not change it. |
| Calendar.CivilIsDate | packages/shared/src/time.ts:79-96 | Every day number is an existing date that counts back to it. |
| Calendar.ReadBackIff | packages/shared/src/time.ts:78-96 | A counted date reads back as itself exactly when it exists. |
| Calendar.FieldsReadBackIff | packages/shared/src/time.ts:131-143 | Dhaka fields read back from their instant exactly when they name an existing date from the year 100 on. |
| Calendar.InstantReadsBack | packages/shared/src/time.ts:79-96 | An instant on a whole second is recovered from its Dhaka fields. |
| Calendar.MonthLengths | packages/shared/src/time.ts:79-96 | The months have their usual lengths, February by the Gregorian rule. |
| Calendar.KnownInstant | packages/shared/test/time.spec.ts:7-11 | 27/07/2026 10:15 in Dhaka is 04:15 universal time. |
| TimeParser.FormatToPieces | packages/shared/src/time.ts:59-72 | The format scan equals its specification. |
| TimeParser.ParseProviderTimestamp | packages/shared/src/time.ts:102-146 | The format loop equals its specification, a duplicated token included. |
| TimeParser.AcceptIff | packages/shared/src/time.ts:115-143 | A matched format is accepted exactly when its fields name a real date and time from the year 100 on, and the instant reads back as those fields. |
| TimeParser.TwoDigitYearsAreRecent | packages/shared/src/time.ts:74-76 | A two-digit year lies between 1970 and 2069 and keeps its digits. |
| TimeParser.FirstFormatWins | packages/shared/src/time.ts:111-145 | The answer is that of the first format that does not pass the input over. |
| TimeParser.InstantsAreDistinct | packages/shared/src/time.ts:131-143 | Different accepted fields give different instants. |
| TimeParser.FormatReadsBack | packages/shared/src/time.ts:59-72 | An unambiguous format is read as the pieces it was written from. |
| TimeParser.FieldsSurviveIff | packages/shared/src/time.ts:118-143 | Fields written by a format are read back from it exactly when the format expresses them: month and day tokens, a token for each time field that is not zero, and four year digits, or two and a year in 1970-2069, or none and the year 2000. |
| TimeParser.RenderCleanIff | packages/shared/src/time.ts:102-110 | A rendering passes the clean-up of the input unchanged exactly when its format does. |
| TimeParser.ParseRendered | packages/shared/src/time.ts:102-146 | For every format and instant on a whole second, writing the instant and parsing it with that format gives the instant back if and only if the format survives the clean-up, repeats no token, and expresses the fields. |
| TimeParser.MinuteRoundTrip | packages/shared/src/time.ts:102-146 | In particular the minute-precision format dd/MM/yyyy HH:mm of the shipped rules (packages/parsers/rules/bkash.json:19) recovers every instant on a whole minute. |
| TimeParser.ShortRoundTripIff | packages/shared/src/time.ts:74-76 | The two-digit-year format dd/MM/yy HH:mm recovers an instant on a whole minute exactly from 1970 to 2069. |
| TimeParser.DhakaRoundTrip | packages/shared/src/time.ts:148-153 | What the Dhaka rendering prints for a four-digit year parses back to the same instant. |
| RateLimit.SlidingWindow.CanActivate | apps/api/src/common/ratelimit/rate-limit.guard.ts:20-56 | Drops old scores, logs the request, and judges by the count; without Redis the policy decides. |
| RateLimit.LogIsLastWindow | apps/api/src/common/ratelimit/rate-limit.guard.ts:34-40 | The log holds exactly the requests of the last window, whether or not Redis dropped the idle key. |
| RateLimit.AdmittedIff | apps/api/src/common/ratelimit/rate-limit.guard.ts:41-48 | A request is admitted exactly when the requests of its window, refused ones included, are at most the limit. |
| RateLimit.WindowHoldsPoints | apps/api/src/common/ratelimit/rate-limit.guard.ts:29-48 | Over any run with a non-decreasing clock every half-open window holds at most the limit of admitted requests. |
| Idempotency.ActKeepsSafe | apps/api/src/common/idempotency/idempotency.interceptor.ts:50-100 | Every interleaved step keeps one owner per in-flight row and one row per handler run not yet deleted. |
| Idempotency.OneHandlerAtATime | apps/api/src/common/idempotency/idempotency.interceptor.ts:50-100 | In every interleaving at most one handler run is under way, and each further run followed a deleted row. |
| Idempotency.CompletedStays | apps/api/src/common/idempotency/idempotency.interceptor.ts:61-79 | A COMPLETED row never changes again and no handler runs any more. |
| Idempotency.CompletedIsReplayed | apps/api/src/common/idempotency/idempotency.interceptor.ts:61-79 | Every later request is answered with the stored response, or refused when its body differs. |
| Idempotency.UndisturbedIsServed | apps/api/src/common/idempotency/idempotency.interceptor.ts:50-100 | A request that nothing interrupts is one particular sequence of the interleaved acts, possible from every state, with this answer and this row. |
| Idempotency.KeyStore.Intercept | apps/api/src/common/idempotency/idempotency.interceptor.ts:50-100 | One undisturbed request gives that answer and leaves that row: replay, refusal, stored success, or an error that frees the key. |

## Left out

- Interleaving inside a request: every request, and each ingested message with its trailing status write, is one atomic
  step. Cancel, correct and the trailing write read first and write later without a condition; `Spending.CancelWriteSafeIff`,
  `CorrectWriteSafeIff` and `MatchedWriteSafeIff` say exactly when such a late write is harmless.
- Settings are an input of each step, within the bounds their endpoint enforces; editing them is not a step of its own.
  `webhook_max_attempts` alone is fixed over a run, because the retry budget refers to it.
- Forced reparse, device revoke-and-wipe and retention redaction: they rewrite or remove the facts the run properties are
  about, on purpose.
- Scores and jitter are exact rationals, not IEEE doubles; sums of the weights are not rounded before the comparisons.
- A duplicate OPEN review is modelled as "row not added". In PostgreSQL a failed statement poisons the surrounding
  transaction unless a savepoint protects it; what the database library does there is not part of this model.
- Ids are table positions, so "ORDER BY id" is table order, and queries without an ORDER BY return rows in that order.
- Trace rows, `why` strings, audit entries, metrics, logging, cache locks (the rescan lock is an input) and the HTTP layer.
- A rescan that a database failure stops part way: the loop is modelled for runs in which its queries succeed.
- Parsing SMS text: the extraction is an input, and the server may parse a message differently each time it sees it.
- Hashing, signing and encryption: a client hash is assumed to determine its content, a content hash stands for the content.
- One drainer runs on the phone at a time; two would let a claimed row be written twice.
- Delivery of a webhook, its delivery row and its outcome are one step; two sweepers at work on one event are not modelled.
- The conversion of HTTP header text to numbers (Retry-After is a number or nothing) and URL safety checks (a flag).
- Expired idempotency keys are not purged in the runs, and the rate limiter's clock does not go backwards.
- An SMS row whose direction is NULL, the database-clock default of `uploaded_at`, and an idempotency update that commits
  while reporting an error.
- Progress of held webhook events and of a sweep whose signing fails: the code does not establish it.
- UploadPending.MessageTable.Drain: requires that the loop ends against the given replies, because Dafny methods must
  terminate; exactly when it does is `UploadProgress.NeverEndsIff`.
- ManualSync.RunManualSync: requires the same of its drain, so a sync that never returns has no summary.
- OrderService.Register: the metadata column and the response formatting are not stored.
- AdminService.Link: audit fields (who, note, when) are not stored.
- Money.ParseIsExact: amounts are unbounded integers until the range check; a value too large to be exact as a double is out
  of range either way, so the outcome is the same.
