# Adminium: a verified model of its hardest parts

Adminium is an admin panel over an existing database. This project models, in Dafny, the parts of it whose correctness is least obvious from reading one function, and proves what they promise.

- **The demo payment service** (`packages/add-on-contracts/src/payment-demo.ts`, `payment-money.ts`). A pretend payment provider: checkouts, refunds, an event log that clients page through, time-driven states, idempotency keys, and a clean-up that runs inside every HTTP call. `PaymentDemo.dfy` gives every operation as a function on one state; `DemoBackend.dfy` is the object the source has, each of whose methods is proved to do what its function says. `DemoOutcomes.dfy` and `DemoHttp.dfy` say of each operation what record, event and answer it leaves, in the records' own fields. The other theorems are about every run of any operations: what the log determines, what forgetting may drop, that paging is exactly once, that no call reports a status twice, and that no more is refunded than was taken. `Digits.dfy` and `PaymentMoney.dfy` are the decimal arithmetic underneath, exact for texts of any length.
- **Scanners that replace regular expressions** (`packages/adapter-mysql/src/type-map.ts`). `Regex.dfy` is a backtracking matcher as section 22.2.2 of ECMA-262 defines one; `QuotedLiterals.dfy` and `EnumValues.dfy` prove that the hand-written scanners give what the expressions they replace give, in linear time, and exactly which printed enum lists are read back.
- **CHECK clauses** (the three `introspect.ts` files). `CheckClause.dfy`, `CheckTwice.dfy`, `CheckEnum.dfy` and `CheckRoundTrip.dfy` are MySQL's clause normalizing and reading; `CheckExpression.dfy` and `CheckQuotes.dfy` are the outer parentheses that MySQL and Postgres checks lose; `SqliteChecks.dfy` is the scan of a CREATE TABLE statement.
- **Redaction of logged objects** (`apps/server/src/log-redaction.ts`). `LogRedaction.dfy` walks a heap with sharing and cycles; `RedactionPaths.dfy` says along which paths it met a container before.
- **Two pool-downgrade protocols** (`packages/adapter-postgres/src/query-engine.ts`, `index.ts`). `QueryEngine.dfy` and `AdapterQueries.dfy` model any number of concurrent callers as steps that are atomic between awaits; `SessionSettings.dfy` has a reader for each of the two forms the session's settings are written in.
- **Answer checkers** (`packages/add-on-contracts/src/price-adjust.ts`, `posting-rows.ts`). `PriceAdjust.dfy`, `AdjustTheorems.dfy`, `AdjustIssues.dfy`, `PostingRows.dfy` and `JoinedKeys.dfy` prove which issues are reported, and what an empty list of them means.
- **Schema assembly** (`packages/adapter-postgres/src/introspect.ts`). `CatalogAssembly.dfy`, `CatalogTheorems.dfy` and `CatalogColumns.dfy` prove that the model assembled from any catalog rows is closed, and what every part of it is in terms of the rows.

## Where the code does less than one would expect

Each of these is proved, with the exact condition under which it does what one would expect.

- A refund whose amount cannot be held in its currency's units is counted as nothing (payment-demo.ts:338), so more than was taken can be refunded: `DemoRefunds.FinerRefundsOverdraw` is such a run, `DemoRefunds.ConservesExactlyWhenHoldable` says exactly when the next refund is safe.
- Two checkouts refused for the time zone at once: the second is rethrown, not retried, and the source's own branch for it can never be reached (query-engine.ts:105-108): `QueryEngine.SecondZoneRefusalFails`, `QueryEngine.ZoneRefusalIsOfCurrentPool`, `QueryEngine.FailsExactlyWhen`. A second try's refusal is always rethrown, also while there are options left to take out: `QueryEngine.RetryRefusedIsRethrown`, `QueryEngine.RetryLosesItsDowngrade`.
- The adapter's one-time downgrade does not help a query that is already waiting on the old pool (index.ts:184): `AdapterQueries.SecondRefusalFails`, `AdapterQueries.TriedAgainExactlyWhen`.
- An order's reduction is compared only after it is cut off at the scale (price-adjust.ts:246): `AdjustTheorems.FinerOrderDiscountAccepted`, `AdjustTheorems.OrderDiscountExactlyWhen`.
- An introducer right after a literal is dropped and the two literals become one (mysql introspect.ts:334-339): `CheckClause.LiteralsKeptExactlyWhen`, `CheckClause.GluedLiterals`.
- Normalizing a clause twice is not always normalizing it once (mysql introspect.ts:312-344), for two reasons: an introducer kept before one that is dropped, and a second backslash before a quote. `CheckTwice.IdempotentExactlyWhenSettled`, `CheckTwice.StackedNotSettled`, `CheckTwice.EscapedNotSettled`.
- Parentheses inside a literal count when outer parentheses are taken off (mysql introspect.ts:405-406, postgres introspect.ts:491-492), so an expression can lose two that are no pair: `CheckQuotes.ParenthesesInLiterals` is such a check, `CheckQuotes.StripIsRealExactlyWhen` the exact condition, `CheckQuotes.EvenLiteralsAgree` and `CheckQuotes.PlainLiteralsAgree` the expressions that are safe. An unbalanced text can lose one that nothing closes: `CheckQuotes.WrappedIsOnePairExactlyWhen`.
- A check's values end at the first closing parenthesis, one inside a value too (mysql introspect.ts:380): `CheckRoundTrip.ReadExactlyWhenUnclosed`, `CheckRoundTrip.ClosingParenthesisIsLost`.
- An enum value with a backslash before a quote, or one left open at its end or before a line end, is read as another (type-map.ts:169-171, 199): `EnumValues.PrintedListIsRead`, `EnumValues.BackslashQuoteIsLost`.
- Names joined with a separator they may hold share a key, and every two names do with the one that joins them: `JoinedKeys.SharedKey`; what shares the key of names without the separator is the same names exactly when it holds none either: `JoinedKeys.SameExactlyWhenFree`. So MySQL's and SQLite's readers, which join with a blank, can take a relation for one-to-one that is not: `JoinedKeys.SharedKeyCovers`, and exactly when they are right: `JoinedKeys.RightExactlyWhenColumnsFree`, `JoinedKeys.RightExactlyWhenSetFree`. An update keyed by another column passes for every declared key of two columns: `PostingRows.CommaLetsAnotherKeyThrough`.
- A top-level array is not scrubbed at all (log-redaction.ts:200): `LogRedaction.ScrubIsSafe` has it as its one exception, `LogRedaction.ListedShowsItsSecret` shows it.
- A signed webhook body that is JSON but no event's, `null` above all, makes the check throw instead of answering (payment-demo.ts:730-735, 766-777): `DemoWebhook.SignedIsAccepted` says exactly when.

## Model

| member | source | states |
|---|---|---|
| PaymentMoney.ParseIsGrammar | packages/add-on-contracts/src/payment-money.ts:16-17 | The decimal pattern has exactly one reading of a text, and it is found when there is one |
| PaymentMoney.DecimalToMinorExact | packages/add-on-contracts/src/payment-money.ts:14-25 | Non-null if and only if the exponent is 0 to 6 and the text is a decimal that is a whole number of units there; then it is the numeral of exactly that number |
| PaymentMoney.MinorToDecimalExact | packages/add-on-contracts/src/payment-money.ts:28-35 | Non-null exactly for digits at an exponent of 0 to 6; the text denotes the same number, with `exponent` decimals and no leading zeros |
| PaymentMoney.MinorRoundTrip | packages/add-on-contracts/src/payment-money.ts:28-35 | Units to decimal and back are the same units without leading zeros |
| PaymentMoney.DecimalRoundTrip | packages/add-on-contracts/src/payment-money.ts:14-35 | A decimal to units and back is the same amount |
| PaymentMoney.NormalUnique | packages/add-on-contracts/src/payment-money.ts:38-48 | A number has one normal form |
| PaymentMoney.SameAmountExact | packages/add-on-contracts/src/payment-money.ts:38-48 | True exactly of two decimal texts that denote the same rational number |
| PaymentMoney.CompareAmountsExact | packages/add-on-contracts/src/payment-money.ts:51-59 | Answers exactly when both can be held at six places, with the order of the two numbers; 0 agrees with `sameAmount` |
| PaymentMoney.AddAmountsExact | packages/add-on-contracts/src/payment-money.ts:62-67 | The exact sum, null only when a part cannot be held |
| PaymentMoney.SubtractAmountsExact | packages/add-on-contracts/src/payment-money.ts:70-76 | The exact difference, null exactly when a part cannot be held or the result would be negative |
| PaymentMoney.SubtractUndoesAdd | packages/add-on-contracts/src/payment-money.ts:62-76 | Taking off what was added gives the same amount back |
| PaymentMoney.UnitsFiner | packages/add-on-contracts/src/payment-money.ts:14-25 | What can be held at an exponent is held at every finer one, as ten to the difference times as many units |
| DemoBackend.Backend.constructor | packages/add-on-contracts/src/payment-demo.ts:222-235 | A new backend is empty and satisfies the invariant |
| DemoBackend.Backend.EmitEvent | packages/add-on-contracts/src/payment-demo.ts:270-281 | Puts one undelivered event at the end of the log and of the history, under a new id |
| DemoBackend.Backend.AgeCheckout | packages/add-on-contracts/src/payment-demo.ts:284-296 | Moves exactly the one checkout as the clock demands, with its event |
| DemoBackend.Backend.AgeOneRefund | packages/add-on-contracts/src/payment-demo.ts:298-304 | Settles exactly the one refund when it is due, with its event |
| DemoBackend.Backend.ForgetCheckouts | packages/add-on-contracts/src/payment-demo.ts:246-261 | Deletes while iterating exactly as the specification drops, each with its key, and gives the payments gone |
| DemoBackend.Backend.ForgetRefunds | packages/add-on-contracts/src/payment-demo.ts:262-266 | Deletes exactly the refunds of the payments gone, each with its key |
| DemoBackend.Backend.ForgetOld | packages/add-on-contracts/src/payment-demo.ts:246-268 | At most once a minute, ages and drops checkouts, drops their refunds, and keeps the recent events |
| DemoBackend.Backend.TotalRefunded | packages/add-on-contracts/src/payment-demo.ts:333-341 | The text of the sum of the units of the standing refunds of one payment |
| DemoBackend.Backend.PostCheckouts | packages/add-on-contracts/src/payment-demo.ts:362-388 | The state and answer of `POST /checkouts`, for a missing, a known and a new key |
| DemoBackend.Backend.GetOneCheckout | packages/add-on-contracts/src/payment-demo.ts:389-393 | The state and answer of reading one checkout, aged first |
| DemoBackend.Backend.ExpireOne | packages/add-on-contracts/src/payment-demo.ts:394-403 | The state and answer of expiring one: refused once completed, nothing changed once over |
| DemoBackend.Backend.PostRefunds | packages/add-on-contracts/src/payment-demo.ts:406-440 | The state and answer of `POST /refunds`, for every one of its refusals and for a new refund |
| DemoBackend.Backend.GetOneRefund | packages/add-on-contracts/src/payment-demo.ts:441-445 | The state and answer of reading one refund, aged first |
| DemoBackend.Backend.GetMissedEvents | packages/add-on-contracts/src/payment-demo.ts:446-458 | Ages everything, then answers the page after the cursor |
| DemoBackend.Backend.CallRoute | packages/add-on-contracts/src/payment-demo.ts:343-460 | One HTTP call is one step of the model, keeps the invariant and never throws: both look-ups behind `!` always find their record |
| DemoBackend.Backend.Pay | packages/add-on-contracts/src/payment-demo.ts:470-501 | Paying is one step of the model and keeps the invariant |
| DemoBackend.Backend.CompleteStep | packages/add-on-contracts/src/payment-demo.ts:502-508 | Finishing a step is one step of the model and keeps the invariant |
| DemoBackend.Backend.CancelOne | packages/add-on-contracts/src/payment-demo.ts:509-514 | Cancelling is one step of the model and keeps the invariant |
| DemoBackend.Backend.SettleOne | packages/add-on-contracts/src/payment-demo.ts:515-529 | Settling a payment or a refund early is one step of the model and keeps the invariant |
| DemoBackend.Backend.OpenDispute | packages/add-on-contracts/src/payment-demo.ts:530-534 | A dispute is one step of the model and keeps the invariant |
| DemoBackend.Backend.MakeRefundAtProvider | packages/add-on-contracts/src/payment-demo.ts:535-551 | A dashboard refund, without a ceiling or a look at the status, is one step of the model and keeps the invariant |
| DemoBackend.Backend.FailOneRefund | packages/add-on-contracts/src/payment-demo.ts:552-559 | Failing a refund is one step of the model and keeps the invariant |
| DemoBackend.Backend.MarkOneDelivered | packages/add-on-contracts/src/payment-demo.ts:570-573 | Marking an event delivered is one step of the model and keeps the invariant |
| DemoBackend.Backend.FindAttempt | packages/add-on-contracts/src/payment-demo.ts:574-579 | Looking an attempt up is one step of the model and keeps the invariant |
| DemoRuns.StepValid | packages/add-on-contracts/src/payment-demo.ts:343-580 | Every operation keeps the whole invariant (distinct ids, one live record a key, shapes, log, traces, conservation), and no HTTP call throws |
| DemoTheorems.RunValid | packages/add-on-contracts/src/payment-demo.ts:222-580 | So does every run, and every run only continues the history |
| DemoLog.StepExtends | packages/add-on-contracts/src/payment-demo.ts:245-281 | No operation rewrites the history, brings back what was forgotten, or undoes a delivery; none but `markDelivered` delivers, and none but a payment reports what is no end |
| DemoTheorems.StatusIsLastReport | packages/add-on-contracts/src/payment-demo.ts:270-304 | In every reachable state each live checkout's status is the one its last event names |
| DemoTheorems.EndsAreFinal | packages/add-on-contracts/src/payment-demo.ts:284-296 | Of any checkout ever made, live or forgotten, at most one event names an end and none follows it |
| DemoTheorems.EveryReportIsAChange | packages/add-on-contracts/src/payment-demo.ts:470-529 | One event after another of a checkout is a change of status, but for a step asked for once more |
| DemoTheorems.OneReportAStep | packages/add-on-contracts/src/payment-demo.ts:343-580 | Whatever is called, and whatever it ages and forgets on the way, every checkout gets one more report at most |
| DemoTheorems.ReportedExactlyWhenChanged | packages/add-on-contracts/src/payment-demo.ts:270-304 | A call reports a kept checkout exactly once when its status changes or its step is asked for once more, with the status it then has, and otherwise not at all |
| DemoTheorems.Absorbing | packages/add-on-contracts/src/payment-demo.ts:470-529 | Over every run succeeded, failed, cancelled and expired stay, and processing can only become succeeded |
| DemoTheorems.RepeatedCheckoutKey | packages/add-on-contracts/src/payment-demo.ts:362-365 | A key that is kept answers with its own checkout, aged, and makes nothing |
| DemoTheorems.NewCheckoutKey | packages/add-on-contracts/src/payment-demo.ts:366-388 | A key that is not kept makes exactly one pending checkout, of the fields asked and expiring a lifetime later, under an id no event ever named |
| DemoTheorems.OneRecordPerKey | packages/add-on-contracts/src/payment-demo.ts:238-242 | In every reachable state no two checkouts and no two posted refunds share a key |
| DemoTheorems.RepeatedRefundKey | packages/add-on-contracts/src/payment-demo.ts:406-409 | A refund key that is kept answers with its own refund, aged, and makes nothing |
| DemoTheorems.ForgetDropsExactly | packages/add-on-contracts/src/payment-demo.ts:245-268 | What is left is exactly, in order and aged, the checkouts that were not paid (or due to be) longer than `keepPaid` ago and, if never paid, are not a lifetime past their expiry; and the refunds whose payment was not dropped |
| DemoTheorems.ForgetIsSafe | packages/add-on-contracts/src/payment-demo.ts:236-268 | Never drops a processing checkout, one still payable or not long expired, or one paid within `keepPaid` |
| DemoTheorems.RefundsGoWithTheirPayment | packages/add-on-contracts/src/payment-demo.ts:262-266 | A refund is dropped only with a checkout it was paid from, paid longer than `keepPaid` ago or long expired |
| DemoTheorems.SettledWhenSucceeded | packages/add-on-contracts/src/payment-demo.ts:253-256 | `settledAt` is set exactly when succeeded, so the fallback in `forget` is never used |
| DemoForget.RecentIsSuffix | packages/add-on-contracts/src/payment-demo.ts:267 | Keeping the recent events of a log in time order drops a prefix |
| DemoPaging.PageExactly | packages/add-on-contracts/src/payment-demo.ts:449-457 | A page is the first hundred undelivered events after the cursor, in order, and `more` tells whether one is behind it |
| DemoPaging.FindCursor | packages/add-on-contracts/src/payment-demo.ts:450 | When the cursor's event was forgotten, starting at the oldest kept event replays nothing |
| DemoPaging.PagingIsExactlyOnce | packages/add-on-contracts/src/payment-demo.ts:446-458 | For a client that sends back its last cursor, interleaved with any calls at all: no event twice, in emission order, and none up to the cursor passed over but what was delivered or is older than a lifetime |
| DemoPaging.LastPageLeavesNothing | packages/add-on-contracts/src/payment-demo.ts:446-458 | When a page says there is no more, every event ever emitted was given, delivered, or is older than a lifetime |
| DemoOps.RefundedSoFarUnits | packages/add-on-contracts/src/payment-demo.ts:333-341 | The text computed reads back as exactly the units counted |
| DemoOps.FitsIsRoom | packages/add-on-contracts/src/payment-demo.ts:422-425 | A refund fits exactly when it is more than nothing and no more than what is left, at six places |
| DemoRefunds.RefundTakenExactlyWhenRoom | packages/add-on-contracts/src/payment-demo.ts:410-440 | Of a live payment, in its currency and with a new key: a refund is made if and only if there is room for it, and otherwise nothing changes |
| DemoRefunds.RefundsWithinTaken | packages/add-on-contracts/src/payment-demo.ts:333-341 | In every reachable state, whatever was called: when every standing posted refund of a payment can be held in its currency, their exact sum is no more than was taken |
| DemoRefunds.CountingIsExact | packages/add-on-contracts/src/payment-demo.ts:333-341 | Counting in units never overstates what is refunded and is exact when every refund can be held |
| DemoRefunds.ConservesExactlyWhenHoldable | packages/add-on-contracts/src/payment-demo.ts:333-341 | Of a payment refunded only through the API and not overdrawn: the next refund taken keeps it so, whatever its amount, if and only if every standing refund can be held in the currency's units, or what was taken cannot |
| DemoRefunds.UnheldTakesNothing | packages/add-on-contracts/src/payment-demo.ts:422-425 | A payment whose taken amount cannot be held in its currency accepts no refund at all |
| DemoRefunds.FinerRefundsOverdraw | packages/add-on-contracts/src/payment-demo.ts:338 | A reachable state with one yen taken and 1.8 yen refunded through the API |
| DemoRefunds.FailGivesBackItsRoom | packages/add-on-contracts/src/payment-demo.ts:552-559 | Failing a refund gives back exactly its own units to its own payment and changes no other record |
| DemoFlows.HttpReads | packages/add-on-contracts/src/payment-demo.ts:343-393 | An HTTP read, which forgets first, answers the checkout as the clock has left it; 404 exactly when the last clean-up is a minute ago and it was paid (or due to be) longer than `keepPaid` ago or, never paid, is a lifetime past its expiry |
| DemoFlows.PayThenRead | packages/add-on-contracts/src/payment-demo.ts:470-501 | A payment and an HTTP read at any later time: what was taken, when it settled (a late one when it was due, whenever that is noticed), nothing else changed, and 404 exactly when the checkout was forgotten |
| DemoFlows.PaymentIsNew | packages/add-on-contracts/src/payment-demo.ts:483 | A payment's reference was no checkout's and no refund's before |
| DemoFlows.HttpReadsRefund | packages/add-on-contracts/src/payment-demo.ts:343-445 | An HTTP read of a refund answers it as the clock has left it; 404 exactly when the last clean-up is a minute ago and its payment is to be forgotten, by those same times |
| DemoFlows.RefundThenRead | packages/add-on-contracts/src/payment-demo.ts:406-445 | A refund made over HTTP and read over HTTP at any later time: of the amount asked, pending until due, then succeeded; 404 exactly when it was forgotten with its payment |
| DemoOutcomes.FinishesStep | packages/add-on-contracts/src/payment-demo.ts:502-508 | Finishing a step that is still asked for leaves the checkout succeeded and settled now, with its event and nothing else changed; otherwise it throws and only the clock has told |
| DemoOutcomes.Cancels | packages/add-on-contracts/src/payment-demo.ts:509-514 | Cancelling cancels exactly what can still be paid, with its event, and otherwise only the clock has told |
| DemoOutcomes.PayRefused | packages/add-on-contracts/src/payment-demo.ts:470-474 | Paying what cannot be paid any more throws |
| DemoOutcomes.PayEmits | packages/add-on-contracts/src/payment-demo.ts:475-501 | A payment changes its own checkout alone and emits the one event of what it leaves, naming the payment |
| DemoOutcomes.UnknownThrows | packages/add-on-contracts/src/payment-demo.ts:464-468 | Paying, finishing or cancelling a checkout that is not kept throws and changes nothing |
| DemoOutcomes.SettlesPayment | packages/add-on-contracts/src/payment-demo.ts:515-521 | Settling a late payment now makes it succeeded, due and settled now, with its event |
| DemoOutcomes.SettlesRefund | packages/add-on-contracts/src/payment-demo.ts:522-527 | Settling a refund now makes it succeeded, with its event |
| DemoOutcomes.SettlesNothing | packages/add-on-contracts/src/payment-demo.ts:528-529 | Where neither waits under the id, settling throws and changes nothing |
| DemoOutcomes.Disputes | packages/add-on-contracts/src/payment-demo.ts:530-534 | A dispute is one event of its checkout and payment, opened or closed, and changes no record |
| DemoOutcomes.RefundsInDashboard | packages/add-on-contracts/src/payment-demo.ts:535-551 | A dashboard refund of any amount: one succeeded refund more, in the currency taken, with its event |
| DemoOutcomes.UnknownPaymentThrows | packages/add-on-contracts/src/payment-demo.ts:530-538 | Of a payment that is not kept neither is possible |
| DemoOutcomes.FailsRefund | packages/add-on-contracts/src/payment-demo.ts:552-559 | Failing a refund leaves it failed, with its event, and with that of its success before if it was due |
| DemoOutcomes.FindsAttempt | packages/add-on-contracts/src/payment-demo.ts:574-579 | The first checkout of an attempt is answered as the clock has left it |
| DemoHttp.ForgottenExactlyWhen | packages/add-on-contracts/src/payment-demo.ts:246-261 | After a clean-up no checkout of an id is left exactly when it was paid longer than `keepPaid` ago, or is over and a lifetime past its expiry |
| DemoHttp.RecentEventsKept | packages/add-on-contracts/src/payment-demo.ts:267 | After a clean-up exactly the events no older than a lifetime are kept |
| DemoHttp.CleansUpOnceAMinute | packages/add-on-contracts/src/payment-demo.ts:245-249 | A call cleans up exactly when the last clean-up is a minute ago, and otherwise drops nothing |
| DemoHttp.OnlyHttpCleansUp | packages/add-on-contracts/src/payment-demo.ts:462-580 | No other operation cleans up |
| DemoHttp.Refused | packages/add-on-contracts/src/payment-demo.ts:343-350 | Another host is answered 404 and a missing demo key 401, whatever is asked |
| DemoHttp.Creates | packages/add-on-contracts/src/payment-demo.ts:362-388 | `POST /checkouts`: 400 without a key; for a key that is kept its own checkout, aged; else one new checkout, every field of it given, with its event |
| DemoHttp.CreateThenRead | packages/add-on-contracts/src/payment-demo.ts:366-393 | A new checkout read at any later time: as made until a lifetime has passed, then expired, and 404 exactly when forgotten a lifetime after that |
| DemoHttp.HttpExpires | packages/add-on-contracts/src/payment-demo.ts:389-403 | `POST …/expire`: it expires what can still be paid, leaves alone what is over, refuses what has completed, and is 404 exactly when forgotten |
| DemoHttp.ReadsOne | packages/add-on-contracts/src/payment-demo.ts:389-404 | Reading a checkout changes only what the clock has, by either route; another route under it is 404 |
| DemoHttp.ReadsRefund | packages/add-on-contracts/src/payment-demo.ts:441-445 | Reading a refund changes only what the clock has |
| DemoHttp.RefundsNothing | packages/add-on-contracts/src/payment-demo.ts:406-413 | `POST /refunds`: 400 without a key, its own refund for a key that is kept, 404 for a payment that is not |
| DemoHttp.Refunds | packages/add-on-contracts/src/payment-demo.ts:414-440 | Else a refund is made, every field of it given and with its event, exactly when the payment has succeeded, the currency is the one taken and there is room; otherwise 409 |
| DemoHttp.EventsAfterAgeing | packages/add-on-contracts/src/payment-demo.ts:446-458 | Before a page is read every checkout and every refund kept is as the clock has left it: nothing due is left pending, processing or open |
| DemoHttp.RefundsKept | packages/add-on-contracts/src/payment-demo.ts:262-266 | A clean-up keeps every refund of which no payment is dropped, as it was, and no other |
| DemoHttp.DeliveredExactlyWhenMarked | packages/add-on-contracts/src/payment-demo.ts:570-573 | An event is delivered exactly when it was before or is marked now; no event is emitted as delivered |
| DemoWebhook.ParseHeaderIsGrammar | packages/add-on-contracts/src/payment-demo.ts:720 | The header pattern has exactly one reading |
| DemoWebhook.SignedIsAccepted | packages/add-on-contracts/src/payment-demo.ts:192-195 | A delivery signed with the same secret is accepted exactly within the tolerance of the second it was signed in, when it is JSON whose fields can be read; JSON whose cannot, as `null`, makes the check throw, exactly within it |
| DemoWebhook.AcceptedWasSigned | packages/add-on-contracts/src/payment-demo.ts:715-735 | Which answer is given: each refusal, and acceptance, exactly for its own reason; accepted if and only if in test mode, with a secret, readable JSON, recent, and carrying the signature of its own body and second |
| DemoWebhook.SameHex | packages/add-on-contracts/src/payment-demo.ts:184-189 | True exactly of equal texts, though it never stops early |
| QuotedLiterals.EndsOfPiece | packages/adapter-mysql/src/type-map.ts:145-152 | At every place at most one of the three alternatives applies |
| QuotedLiterals.QuotedAt | packages/adapter-mysql/src/type-map.ts:147-152 | The backtracking match that starts at a place ends at the last walk boundary with a quote, and there is none when no boundary has one |
| QuotedLiterals.DeadWalk | packages/adapter-mysql/src/type-map.ts:148-152 | After a walk that finds no closing quote, no place it passed starts a literal |
| QuotedLiterals.Walk | packages/adapter-mysql/src/type-map.ts:160-179 | The inner loop's stopping place and last quote, how often it looks at a character, and that what follows a quote it backed up to is a dead walk |
| QuotedLiterals.ScanQuotedLiterals | packages/adapter-mysql/src/type-map.ts:154-188 | Exactly the captures of the match-all of the expression it replaces, in at most 2n + 2 looks of `indexOf` and the walk at a character |
| EnumValues.StripIsRemoveFirst | packages/adapter-mysql/src/type-map.ts:105-111 | Removes exactly what replacing the first match of the expression would |
| EnumValues.ReadEnumValues | packages/adapter-mysql/src/type-map.ts:195-201 | The loop's values are those of the type's pattern and the literal expression, unescaped |
| EnumValues.PrintedListIsRead | packages/adapter-mysql/src/type-map.ts:190-201 | Any list of strings, printed as an enum or a set with doubled quotes, is read back as it was if and only if in none of them a backslash stands before a quote, before a line end, or unescaped at the end |
| EnumValues.BackslashQuoteIsLost | packages/adapter-mysql/src/type-map.ts:169-171 | A value of a backslash and a quote, printed as an enum's, reads as the quote alone |
| CheckClause.NormalizeCheckClause | packages/adapter-mysql/src/introspect.ts:312-344 | The loop's text is that of the two-state specification |
| CheckClause.LiteralsKeptExactlyWhen | packages/adapter-mysql/src/introspect.ts:302-344 | Every literal is kept as it is if and only if no introducer that is dropped stands right after a literal; each such one costs exactly one literal |
| CheckClause.IntroducerExactly | packages/adapter-mysql/src/introspect.ts:335-336 | The scan finds an underscore, a name and white space exactly when a quote follows within the first 80 characters |
| CheckClause.OnlyIntroducersDropped | packages/adapter-mysql/src/introspect.ts:334-341 | Nothing is dropped but introducers, each outside every literal (after an even number of quotes) and right before one |
| CheckTwice.DroppedUnlessAfterWord | packages/adapter-mysql/src/introspect.ts:334-341 | An introducer right before a literal is dropped, but after a letter, a digit or `$` it is part of a name and kept |
| CheckClause.GluedLiterals | packages/adapter-mysql/src/introspect.ts:334-339 | A clause of the literals `a` and `c` whose normalized form has the one literal `a''c` |
| CheckTwice.IdempotentExactlyWhenSettled | packages/adapter-mysql/src/introspect.ts:312-344 | Normalizing twice is normalizing once if and only if in the unescaped clause no introducer that is kept is stacked on one that is dropped and no quote that is kept comes to stand after a backslash |
| CheckTwice.StackedNotSettled | packages/adapter-mysql/src/introspect.ts:334-339 | A clause that loses one introducer at each pass |
| CheckTwice.EscapedNotSettled | packages/adapter-mysql/src/introspect.ts:313 | A clause that loses one backslash at each pass |
| CheckEnum.ReadCheckEnum | packages/adapter-mysql/src/introspect.ts:371-396 | The loop over heads answers as the recursive specification, and always ends |
| CheckEnum.HeadMovesOn | packages/adapter-mysql/src/introspect.ts:368-378 | A head match is never empty, so the search moves on |
| CheckEnum.HeadDecides | packages/adapter-mysql/src/introspect.ts:375-394 | What the first head decides: an empty list is passed over, one that is never closed or holds no literal reads as nothing, any other gives its column and values |
| CheckEnum.SameMatches | packages/adapter-mysql/src/introspect.ts:387 | Without a backslash the check's literal pattern matches exactly what the enum's does |
| CheckRoundTrip.PrintedNormalized | packages/adapter-mysql/src/introspect.ts:312-344 | A printed check, in outer parentheses or not, its column quoted or not, loses its introducers and nothing else |
| CheckRoundTrip.PrintedCheckIsRead | packages/adapter-mysql/src/introspect.ts:371-396 | A printed check of any of these shapes gives back the column and the values, each behind an introducer or none, for any values without a backslash or a closing parenthesis |
| CheckRoundTrip.ReadExactlyWhenUnclosed | packages/adapter-mysql/src/introspect.ts:380-390 | Without backslashes, a printed check is read back if and only if no value holds a closing parenthesis |
| CheckRoundTrip.ClosingParenthesisIsLost | packages/adapter-mysql/src/introspect.ts:380-390 | MariaDB's check of the values `a)b` and `pro` does not read as them |
| CheckRoundTrip.EscapedCheckIsRead | packages/adapter-mysql/src/introspect.ts:313 | The same of every shape with a backslash before every quote |
| CheckRoundTrip.ServerClausesAreRead | packages/adapter-mysql/test/type-map.test.ts:169-174 | The texts MySQL 8 (parenthesized, escaped, with introducers) and MariaDB (plain) hand out for a check are both read back, for every column and every such values |
| CheckExpression.Wraps | packages/adapter-mysql/src/introspect.ts:401-411 | Whether the first parenthesis is closed only by the last character |
| CheckExpression.CheckExpressionOf | packages/adapter-mysql/src/introspect.ts:399-416 | The loop takes off what the specification does |
| CheckExpression.StripTakesOuterPairs | packages/adapter-postgres/src/introspect.ts:485-502 | Counting every parenthesis, as the loop does, exactly the outer pairs of a balanced text go, with the white space inside each; what is left is balanced and no pair is around the whole |
| CheckExpression.StripIsTrimmed | packages/adapter-mysql/src/introspect.ts:400-413 | What is left has no white space around it |
| CheckQuotes.StripIsRealExactlyWhen | packages/adapter-mysql/src/introspect.ts:399-416 | The loop takes off exactly the pairs that are there outside quotes if and only if at every level its count sees a pair around the whole where there is one |
| CheckQuotes.StripRealTakes | packages/adapter-mysql/src/introspect.ts:398 | Those pairs go with the white space inside each, and none is left around the whole |
| CheckQuotes.EvenLiteralsAgree | packages/adapter-postgres/src/introspect.ts:485-502 | For a balanced expression whose literals have their parentheses balanced in themselves the loop takes off exactly the pairs that are there |
| CheckQuotes.PlainLiteralsAgree | packages/adapter-postgres/src/introspect.ts:485-502 | The same for one without a parenthesis inside quotes |
| CheckQuotes.WrappedIsOnePairExactlyWhen | packages/adapter-mysql/src/introspect.ts:401-411 | What the loop takes for a pair is one, by its own count, exactly when the text comes back to depth zero |
| CheckQuotes.ParenthesesInLiterals | packages/adapter-mysql/src/introspect.ts:401-414 | A check of two comparisons with a parenthesis in each literal, which loses the first's opening and the second's closing one |
| SqliteChecks.SkipQuoted | packages/adapter-sqlite/src/introspect.ts:185-201 | The place after a quoted region, doubled quotes skipped, brackets not |
| SqliteChecks.QuotedTextIsSkipped | packages/adapter-sqlite/src/introspect.ts:185-199 | Whatever text is quoted, with its closing quote doubled inside, the region ends right after the closing quote |
| SqliteChecks.UnclosedTextIsSkipped | packages/adapter-sqlite/src/introspect.ts:185-200 | A region never closed runs to the end |
| SqliteChecks.CommentIsItsLine | packages/adapter-sqlite/src/introspect.ts:222-226 | A comment ends after its line |
| SqliteChecks.ScanCheckConstraints | packages/adapter-sqlite/src/introspect.ts:209-271 | The scan always ends and gives what its specification gives |
| SqliteChecks.FoundExactlyWhenMatching | packages/adapter-sqlite/src/introspect.ts:236-252 | The parenthesis scan stops at a place if and only if that is the one that closes the opening one, quoted text not counted |
| SqliteChecks.ScanFinds | packages/adapter-sqlite/src/introspect.ts:209-271 | Every constraint found opens at the first parenthesis after its word CHECK, closes at the matching one, and ends before the next begins |
| SqliteChecks.FoundExactlyAtChecks | packages/adapter-sqlite/src/introspect.ts:209-271 | A constraint is found at a place if and only if a token starts there, outside quotes, comments, longer words and earlier constraints, it is the word CHECK, and a parenthesis comes after it: none is missed |
| SqliteChecks.NoTokenInside | packages/adapter-sqlite/src/introspect.ts:209-252 | No token starts inside a quoted region, a comment, a word or a constraint |
| SqliteChecks.ChecksAreTheirText | packages/adapter-sqlite/src/introspect.ts:253-255 | Every expression is the trimmed text between the two parentheses of a CHECK that is a token of its own |
| SqliteChecks.NamedExactlyWhen | packages/adapter-sqlite/src/introspect.ts:231-236 | A constraint has a name exactly when the last two tokens before its word are CONSTRAINT and that name, comments and other characters not counted |
| LogRedaction.ScrubIsSafe | apps/server/src/log-redaction.ts:198-205 | Whatever the graph, in everything reachable from the result through plain containers a secret-named field holds a marker; the one exception is an array at the top |
| LogRedaction.ListedShowsItsSecret | apps/server/src/log-redaction.ts:198-205 | An array of one object with a password comes back as it is, though the object alone is redacted |
| LogRedaction.SameExactlyWhenTidy | apps/server/src/log-redaction.ts:149-191 | The input itself comes back if and only if what it leads to is a tree within the depth cap with no secret-named and no unreadable field |
| LogRedaction.WalkSame | apps/server/src/log-redaction.ts:149-191 | The same for any inner walk: also exactly when none of it was met before, and then it has met exactly that tree |
| LogRedaction.ScrubMirrors | apps/server/src/log-redaction.ts:149-205 | Nothing is lost, reordered or altered but where a marker stands, and each marker stands on what it may stand for: a secret name, an unreadable field, the depth cap, or a container |
| RedactionPaths.CircularWasMet | apps/server/src/log-redaction.ts:149-151 | The marker of a container met before stands only where an earlier path, in the order of the walk, leads to the same container |
| RedactionPaths.NoneMetTwice | apps/server/src/log-redaction.ts:149-151 | Where every container is reached along one path only, that marker stands nowhere |
| LogRedaction.Scrubber.WalkNode | apps/server/src/log-redaction.ts:149-191 | The loop with its shared set of nodes met gives what the specification gives, and ends |
| LogRedaction.Scrub | apps/server/src/log-redaction.ts:198-205 | The entry point gives what the specification gives |
| SessionSettings.ComposedHolds | packages/adapter-postgres/src/query-engine.ts:70-72 | The operator's options open every composed text and ours close it, a blank between them |
| SessionSettings.BothFormsAreRead | packages/adapter-postgres/src/session.ts:121-125 | The startup options and the prelude both read back as exactly the settings they were written from |
| SessionSettings.SettingsAre | packages/adapter-postgres/src/session.ts:111-120 | Which settings a session gets, and no others: the statement limit always, the two other limits for introspection, the zone if there is one |
| QueryEngine.RebuiltAtMostTwice | packages/adapter-postgres/src/query-engine.ts:93-134 | Over every interleaving: at most two rebuilds, each superseded pool told to end exactly once, the one in use never |
| QueryEngine.OwnOptionsStay | packages/adapter-postgres/src/query-engine.ts:70-78 | The operator's options are in every pool, and what is ours only shrinks from one pool to the next |
| QueryEngine.OpensWith | packages/adapter-postgres/src/query-engine.ts:70-78 | The first pool is opened with the operator's options, the limit, and the zone if there is one |
| QueryEngine.RefusalTakesOut | packages/adapter-postgres/src/query-engine.ts:104-134 | A refusal by the pool in use takes out the zone alone, or all of ours: what the next pool carries, and that the call waits for the one superseded |
| QueryEngine.TriesPoolInUse | packages/adapter-postgres/src/query-engine.ts:93-134 | A call begins on the pool in use, and one that has waited goes on with the pool in use then |
| QueryEngine.SupersededRefusalTriesAgain | packages/adapter-postgres/src/query-engine.ts:118-121 | A call refused for startup options by a superseded pool waits and tries the one in use |
| QueryEngine.RetryIsNewer | packages/adapter-postgres/src/query-engine.ts:104-134 | A call that waits goes on with a newer pool carrying strictly less of ours |
| QueryEngine.ZoneRefusalIsOfCurrentPool | packages/adapter-postgres/src/query-engine.ts:104-108 | The branch for a zone refusal by a superseded pool is never reached |
| QueryEngine.FailsExactlyWhen | packages/adapter-postgres/src/query-engine.ts:102-134 | Which first refusals are rethrown, exactly |
| QueryEngine.SecondZoneRefusalFails | packages/adapter-postgres/src/query-engine.ts:117 | A run in which the second of two concurrent zone refusals is rethrown |
| QueryEngine.RetryRefusedIsRethrown | packages/adapter-postgres/src/query-engine.ts:104-134 | A second try that is refused, for whatever reason, is rethrown and leaves the pools as they are |
| QueryEngine.RetryLosesItsDowngrade | packages/adapter-postgres/src/query-engine.ts:104-134 | A run in which a second try is refused for startup options while the pool in use still carries ours, and fails |
| QueryEngine.WaitersCanGoOn | packages/adapter-postgres/src/query-engine.ts:113-115 | No call waits for a pool that was not told to end |
| QueryEngine.Engine.Catch | packages/adapter-postgres/src/query-engine.ts:102-134 | The catch block reassigns the closure's variables as the protocol's step does |
| AdapterQueries.EveryStatementIsGuarded | packages/adapter-postgres/src/index.ts:211-218 | Over every interleaving each statement goes out on a pool with the startup options or behind the prelude of the same settings |
| AdapterQueries.EverySettingIsRead | packages/adapter-postgres/src/index.ts:211-218 | So each statement reaches the server with settings that read back as exactly the role's |
| AdapterQueries.IntrospectionIsLimited | packages/adapter-postgres/src/index.ts:211-218 | No introspection statement runs without its three limits, whatever a pooler refuses |
| AdapterQueries.SentOnPoolInUse | packages/adapter-postgres/src/index.ts:170-197 | A statement is sent when it begins and once more after the rebuild, each time on the pool in use, and never otherwise |
| AdapterQueries.RebuiltOnceSentTwice | packages/adapter-postgres/src/index.ts:176-197 | One rebuild at most, its pool told to end once, and no statement sent more than twice |
| AdapterQueries.OwnOptionsStay | packages/adapter-postgres/src/index.ts:149-165 | The operator's options are in every pool |
| AdapterQueries.TriedAgainExactlyWhen | packages/adapter-postgres/src/index.ts:184-197 | A refused query is tried again if and only if it is its first try and the pool was not rebuilt yet |
| AdapterQueries.SecondRefusalFails | packages/adapter-postgres/src/index.ts:184-197 | A run in which the second of two concurrent queries fails after one try |
| AdapterQueries.PostgresAdapter.Send | packages/adapter-postgres/src/index.ts:211-214 | The pool and the text a statement goes out with |
| AdapterQueries.PostgresAdapter.Catch | packages/adapter-postgres/src/index.ts:179-197 | The catch block updates the fields as the protocol's step does |
| PriceAdjust.UnitsRoundDown | packages/add-on-contracts/src/price-adjust.ts:214-217 | Units are the exact amount rounded down at the scale, and equal to it exactly when nothing finer is left |
| PriceAdjust.FairInUnits | packages/add-on-contracts/src/price-adjust.ts:239-242 | Comparing in units misses nothing: a reduction at the scale is within its units if and only if it is within the exact amount, however fine |
| PriceAdjust.AdjustAnswerIssues | packages/add-on-contracts/src/price-adjust.ts:226-259 | The loops give exactly the specified list of issues, in order |
| AdjustIssues.ReportedExactlyWhenDeserved | packages/add-on-contracts/src/price-adjust.ts:226-259 | Each issue, of all fourteen kinds, is reported if and only if the answer has what it says, for any question and answer |
| AdjustTheorems.NoIssueExactlyWhenAcceptable | packages/add-on-contracts/src/price-adjust.ts:219-259 | No issue if and only if the answers are a permutation of the lines, each reduction is at the scale, within its line's exact amount and nothing on an excluded line, the order's units are the exact sum, and the side rules hold |
| AdjustTheorems.NeverMoreThanTheLines | packages/add-on-contracts/src/price-adjust.ts:226-259 | An accepted answer never takes off more in all than the lines come to |
| AdjustTheorems.OrderDiscountExactlyWhen | packages/add-on-contracts/src/price-adjust.ts:246 | An accepted order reduction is the exact sum if and only if nothing finer than the scale is left of it |
| AdjustTheorems.FinerOrderDiscountAccepted | packages/add-on-contracts/src/price-adjust.ts:246 | An accepted answer whose order reduction is not the sum |
| JoinedKeys.SortedCanonical | packages/adapter-postgres/src/introspect.ts:899 | Two lists sort alike exactly when they hold the same names as often |
| JoinedKeys.KeyCanonical | packages/adapter-postgres/src/introspect.ts:899-907 | For names without the separator two joined keys are equal exactly when the names are, as a multiset, or both lists are blank |
| JoinedKeys.SharedKey | packages/adapter-sqlite/src/introspect.ts:699 | Every list of two names or more shares its key with the one name that joins them |
| JoinedKeys.SameExactlyWhenFree | packages/add-on-contracts/src/posting-rows.ts:231-232 | What shares the key of names without the separator is the same names, as a multiset, if and only if none of it holds the separator: a comma for an update's key, a blank or NUL for a relation's |
| JoinedKeys.SharedKeyCovers | packages/adapter-sqlite/src/introspect.ts:691-701 | A unique column whose name joins the columns of a relation makes it one-to-one, though they are no unique set |
| JoinedKeys.RightExactlyWhenColumnsFree | packages/adapter-mysql/src/introspect.ts:806-813 | Under unique sets without the separator, a relation's columns are those of one if and only if it is taken for one-to-one and they hold no separator |
| JoinedKeys.RightExactlyWhenSetFree | packages/adapter-sqlite/src/introspect.ts:691-701 | Whatever the unique sets, columns without the separator are those of one if and only if a set with their key holds none either |
| PostingRows.RowsOutsideWrites | packages/add-on-contracts/src/posting-rows.ts:215-237 | The loops give exactly the specified list of issues, in order |
| PostingRows.FoundExactlyWhenDeserved | packages/add-on-contracts/src/posting-rows.ts:215-237 | Each issue is found if and only if its row has what it says |
| PostingRows.NothingFoundExactlyWhenInside | packages/add-on-contracts/src/posting-rows.ts:210-237 | Under declared keys free of commas, whatever the rows: all stay inside their declared tables, columns and update key if and only if nothing is found and no row names itself by a column with a comma or by the one empty name |
| PostingRows.CommaLetsAnotherKeyThrough | packages/add-on-contracts/src/posting-rows.ts:231-232 | Every declared key of two columns or more lets an update through that is keyed by one other column, whatever allowed columns it sets |
| CatalogAssembly.IntrospectPostgres | packages/adapter-postgres/src/introspect.ts:603-930 | The loops assemble the specified model |
| CatalogAssembly.ModelIsClosed | packages/adapter-postgres/src/introspect.ts:604-928 | For any catalog rows: every enum a column points at is in the model, every relation's and reference's tables are, and no enum is empty |
| CatalogTheorems.TableIsItsRows | packages/adapter-postgres/src/introspect.ts:733-816 | A table's columns are its rows' in order; its primary key is the last given and a column is marked when any primary key names it |
| CatalogColumns.TablesAreTheirRows | packages/adapter-postgres/src/introspect.ts:647-709 | The model's tables are those of the rows that are wanted, each with the id of its last row, and its unique constraints and indexes in the rows' order |
| CatalogColumns.ColumnIsItsRows | packages/adapter-postgres/src/introspect.ts:733-893 | Of every column: the enum its type names if that has labels, else its first parsed check; the place its first foreign key gives it at its own position; and unique exactly when a whole and plain unique index is of it alone |
| CatalogColumns.EnumsAreTheirRows | packages/adapter-postgres/src/introspect.ts:604-643 | Which enums the model has, and their values: those of its columns' parsed checks, and else the native ones a column is of or of a schema read; the first 256 of the last row that has any |
| CatalogTheorems.PrimaryKeyExactly | packages/adapter-postgres/src/introspect.ts:812-816 | With one primary key constraint a table, exactly the columns of the primary key are marked |
| CatalogTheorems.RelationsAreTheKeys | packages/adapter-postgres/src/introspect.ts:834-872 | No foreign key inside the set is lost and none is made up |
| CatalogTheorems.OneToOneExactly | packages/adapter-postgres/src/introspect.ts:895-910 | One-to-one exactly when the columns are those of the table's primary key, of a unique constraint, or of a whole and plain unique index |

## Left out

- Time: one operation reads the clock once; the source reads it again at every use within the operation. The clock is assumed never to go back.
- Ids: what `demoId` draws is modelled as a serial that is never drawn twice; the random characters are not. A caller's own text is assumed never to equal an id not drawn yet, nor a dashboard refund's drawn key.
- Records of the demo service are values in lists in insertion order, reassigned whole; aliasing of one record from two places is not modelled (the source never keeps one in two).
- URL, header, JSON and body coercion of the demo's HTTP client: a request arrives already read; a wrong host and a wrong key are two booleans. A body that is not JSON, which makes the client throw, is not modelled.
- The demo's `pageUrl`, `events()`, account and method bodies, and the transport's field-by-field copies (`stateOf`, `refundOf`, `eventOf`, `toMinor`, `fromMinor`).
- HMAC-SHA-256 and JSON in the webhook check are given functions, the latter with the reading of the event's fields; a timestamp beyond the exact integers of a double is not modelled.
- DemoRefunds.RefundsWithinTaken: leaves out refunds made in the dashboard, which have no ceiling, and speaks of refunds that can be held in the currency; `FinerRefundsOverdraw` shows why.
- CheckRoundTrip.PrintedCheckIsRead: leaves out values with a closing parenthesis, which `ReadExactlyWhenUnclosed` shows are not read back, and values with a backslash, as the repository does not show how a server prints one in a check.
- CheckQuotes: the quoting characters are a parameter, a doubled one stays inside; a backslash before a quote, gone by then from a MySQL clause, is an ordinary character.
- CheckEnum: the Postgres and SQLite readers of the same shape, whose heads differ, are not modelled.
- Regex: no lookahead, lazy repetition, back reference or flag but what the modelled expressions use; letters are matched without case by listing both.
- SqliteChecks: upper-casing beyond ASCII in a quoted word before CHECK.
- LogRedaction: an own key named `__proto__`, whose assignment on the copy sets a prototype; objects whose keys or prototype cannot be read, for which the outer catch answers a fixed record; holes and length of sparse arrays; getters that change the graph or answer differently each time.
- QueryEngine: `destroy` racing a downgrade, and what a pool does beyond answering, refusing and ending. That a caller's retry fails for a second reason is possible and is modelled as its failure.
- AdapterQueries: a second `connect`, `close`, and reading the last result of a multi-statement message.
- PriceAdjust: amounts that are not decimal texts, which the shape check refuses before; the texts of the issues.
- AdjustTheorems.NoIssueExactlyWhenAcceptable: asks that no two lines of the question share a key, as the question's keys identify its lines.
- PostingRows.NothingFoundExactlyWhenInside: asks that no declared key holds a comma or is the one empty name, which cannot be told from no key at all; `CommaLetsAnotherKeyThrough` shows what passes otherwise.
- CatalogAssembly: coercion of the rows, the warnings, types and defaults, comments and statistics, and the final sorting by name; tables are a map by oid with their order of insertion. A parsed check is assumed to carry a value, as the parser never answers one without.
- CatalogTheorems.OneToOneExactly: asks that no name holds a NUL and that the relation has a column, as in Postgres.
- The MySQL and SQLite assembly loops, which follow the Postgres one; of them only the choice of one-to-one, by a blank, is `JoinedKeys.Covers`.
- Everything of the server, dashboard, engine and drivers not named above.
