# Verified models of the CRM's stateful logic

Dafny models of the parts of the system that keep state or do real arithmetic, each proved against
what the code promises. Tables are sequences or maps, money is an integer number of cents, instants are
integer milliseconds, and text is a sequence of characters. Check everything with
`dafny verify dfyconfig.toml`.

| Component | Modules |
|---|---|
| Credit exposure, its row-lock protocol, the batched alerts | `Credit`, `CreditProtocol`, `CreditAlerts` |
| Expense approval: optimistic concurrency and audit log | `Expenses`, `ExpenseService` |
| Sales series and previous-year column over Bogota buckets | `Calendar`, `Buckets`, `Sales`, `PreviousYear` |
| Receivables report and debtors page | `Receivables`, `DebtorAging` |
| Wall-clock ranges in a zone, the date picker's month grid | `ZoneTime`, `DateGrid` |
| Chat stream between agent and browser | `Sse` |
| Turn locks and chat sessions of the agent | `TurnLocks`, `SessionStore` |
| Password reset, refresh rotation and the browser's refresh gate | `PasswordReset`, `RefreshChain` |
| CSV export, NIT check digit | `Csv`, `Nit` |
| Vocabulary: options and sums, sums by key, stable sort, strings | `Prelude`, `Grouping`, `Sorting`, `Text` |

How to read the models:

- A concurrent component is a state machine: `Enabled` says which step may come next, `After` what it does,
  `Run` that a list of steps leads from one state to another. A main result quantifies over every `Run`.
  Every statement that the code sends to the database on its own is a step of its own.
- A loop of the source is a method with a loop, an object that changes in place is a class; each is tied by
  `ensures` to the specification that the lemmas are about.
- Where a property fails for some inputs, the lemma says exactly for which (`...ExactlyWhen`), or a lemma gives
  the run that breaks it (`WithoutLockExceeds`, `StaleAmountExceeds`, `AnnulExceeds`, `BoundIsSharp`,
  `TwoTabsMintTwice`, `LostConnectionMintsTwice`, `TwoChangesDefeatIt`).

Findings worth a maintainer's attention:

- `_evict_lru_pg` orders by `last_seen_at` ascending and deletes from the offset on, so it deletes the newest
  rows; its docstring says the newest are kept. The model follows the code (`QueryMeetsIntentExactlyWhen`,
  `CreatedRowIsLostExactlyWhen`).
- The credit check is only as good as the amount it is given: an amount read before the row lock can be stale
  when the write lands (`StaleAmountExceeds`; `apps/api/src/modules/orders/orders.service.ts:556-606` reads
  the order before the check). Limits hold exactly when every step fits at its own moment, the steps that
  nothing checks included (`SafeExactlyWhen`).
- Annulling an invoice takes no credit check (`apps/api/src/modules/invoices/invoices.service.ts:177-197`). It
  raises an exposure when the order weighs more than the bill, whose amount is free
  (`AnnulTakesCreditExactlyWhen`), and keeps the limits exactly when the rise fits them
  (`StatusKeepsLimitsExactlyWhen`); `AnnulExceeds` has a customer go from 90 to 120 against a limit of 100.
- Lowering a credit limit takes no check either (`apps/api/src/modules/customers/customers.service.ts:310`): the
  customer stays within it exactly when the new limit is none, not positive or at least the exposure
  (`LimitKeepsLimitsExactlyWhen`).
- Two concurrent edits of a pending expense both commit. No field is lost, but the pair of customer and visit
  ends up inconsistent exactly when the merged values contradict each other (`ConcurrentEditsSplitExactlyWhen`,
  `RelationsHoldExactlyWhen`), and the second audit entry's previous state is
  older than the first edit (`ConcurrentEdits`).
- The previous-year column is always empty by week (`WeekColumnIsNull`). By month it can lose money exactly when
  the range ends on 29 February or begins before the year 1000, as the key shift drops the year's leading zeros
  (`MonthColumnExactlyWhen`); by day, also when the prior range contains a 29 February (`DayColumnExactlyWhen`).
- A refresh whose connection is lost while its token is live and still in the cookie, or a second tab with a
  live cookie, can make one refresh token mint two live ones; nothing else can (`CleanExactlyWhen` of
  `RefreshChain`).
- A password reset can leave a session open exactly when, at its commit, a login or refresh of that user has
  passed its check and not yet issued its token, or a token issued since the revocation ran is live
  (`SessionsClosedExactlyWhen`).
- A turn of a chat loses its lock when its session is evicted from the full lock table meanwhile. Exactly these
  evictions endanger the exclusion of turns (`CleanExactlyWhen` of `TurnLocks`).
- The date picker shows the month asked for exactly when the year is not 0 to 99, which `Date.UTC` remaps, and
  the month lies within the dates there are (`MonthShownExactlyWhen`).
- A reset link is judged by its expiry at the first look only: a request that looked in time commits even after it
  (`CommittedInTime`).
- With `max_sessions` 0 the lookup after creating a session fails (`CreatedSurvivesExactlyWhen`).

## Model

| member | source | states |
|---|---|---|
| Credit.ExposureIs | apps/api/src/modules/credit/credit.service.ts:18-80 | the exposure is what the customer's invoices neither paid nor annulled bill, plus its orders past `recibido` whose invoices are all annulled, less the order left out |
| Credit.InvoiceReplacesOrder | apps/api/src/modules/credit/credit.service.ts:38-80 | adding a live invoice moves any customer's exposure by the invoice's open amount less what its order weighed: no order with a live invoice is counted twice |
| Credit.BillingConserves | apps/api/src/modules/credit/credit.service.ts:18-24 | billing an exposed, uninvoiced order keeps the exposure if and only if the bill equals the order's total; other customers are untouched |
| Credit.AnnulEffect | apps/api/src/modules/credit/credit.service.ts:45-62 | annulling a live invoice takes its open amount out and puts its order back, if no other live invoice holds it |
| Credit.StatusEffect | apps/api/src/modules/credit/credit.service.ts:38-80 | any status change of an invoice, to annulment or back included, moves each customer's exposure by exactly its rise: its open amount after less before, plus the order it lets go, less the order it takes back |
| Credit.AnnulUndoesBilling | apps/api/src/modules/credit/credit.service.ts:14-24 | billing an order and annulling the bill restores every customer's exposure, whichever order is left out |
| Credit.DraftTakesNoCredit | apps/api/src/modules/credit/credit.service.ts:18-24 | a new order in `recibido` raises nobody's exposure |
| Credit.PaymentTakesNoCredit | apps/api/src/modules/credit/credit.service.ts:71-79 | paying an invoice lowers its customer's exposure by its open amount and brings no order back |
| Credit.AdvanceTakesNoCredit | apps/api/src/modules/credit/credit.service.ts:18-24 | moving an order on from a committed status raises nobody's exposure |
| Credit.AnnulTakesCreditExactlyWhen | apps/api/src/modules/credit/credit.service.ts:38-63 | annulling raises no exposure if and only if what it brings back is no more than what it takes out |
| CreditProtocol.WriteEffect | apps/api/src/modules/credit/credit.service.ts:111-140 | a write leaves its customer exactly its weight above the exposure without the excluded order, and raises nobody else |
| CreditProtocol.StepKeepsInv | apps/api/src/modules/credit/credit.service.ts:101-140 | every step of every transaction keeps the invariant: what a lock holder has read stays an upper bound until it commits |
| CreditProtocol.CreditSafety | apps/api/src/modules/credit/credit.service.ts:87-140 | in every interleaving of any number of transactions that lock, read, check and write no more than they checked, a customer with a positive limit is never above it |
| CreditProtocol.CreditSafetyFromStart | apps/api/src/modules/credit/credit.service.ts:87-140 | the same from any starting table within its limits |
| CreditProtocol.CoveredFits | apps/api/src/modules/credit/credit.service.ts:131-140 | a write no heavier than the amount its transaction checked still fits the limit when it lands |
| CreditProtocol.CommitKeepsLimitExactlyWhen | apps/api/src/modules/credit/credit.service.ts:132-139 | after a commit, of a status, a total or an invoice, the customer is within its limit if and only if the weight written is at most the limit less the rest of the exposure |
| CreditProtocol.StatusKeepsLimitsExactlyWhen | apps/api/src/modules/invoices/invoices.service.ts:177-197 | after an invoice's status change, which takes no check, every customer is within its limit if and only if each one's rise is at most what its limit left |
| CreditProtocol.LimitKeepsLimitsExactlyWhen | apps/api/src/modules/customers/customers.service.ts:310 | after a limit change, which takes no check, every customer is within its limit if and only if the new one is none, not positive or at least the exposure |
| CreditProtocol.StepKeepsLimitsExactlyWhen | apps/api/src/modules/credit/credit.service.ts:87-140 | one step of any kind, checked or not, keeps every limit if and only if it fits at that moment |
| CreditProtocol.SafeExactlyWhen | apps/api/src/modules/credit/credit.service.ts:87-140 | in every interleaving of transactions, locked or not, with invoice status changes and limit changes, no limit is ever exceeded if and only if each write, status change and limit change fits at its own moment |
| CreditProtocol.AnnulExceeds | apps/api/src/modules/invoices/invoices.service.ts:177-197 | an order of 80 billed at 50 beside an approved order of 40 is within a limit of 100; annulling the bill makes the exposure 120 |
| CreditProtocol.CheckAloneIsExact | apps/api/src/modules/credit/credit.service.ts:111-140 | a check that nothing interrupts passes if and only if the customer's limit is none, not positive, or at least exposure plus amount, and otherwise aborts |
| CreditProtocol.CommitAlone | apps/api/src/modules/credit/credit.service.ts:111-140 | a whole transaction whose check passes, with or without a limit, commits exactly its write and leaves no lock |
| CreditProtocol.UnknownCustomerAborts | apps/api/src/modules/credit/credit.service.ts:101-126 | a customer that does not exist fails the first statement, and nothing stays locked |
| CreditProtocol.NoLockLeftBehind | apps/api/src/modules/credit/credit.service.ts:101-119 | in every run each row lock is held by a transaction of that customer that has not ended |
| CreditProtocol.AbortFrees | apps/api/src/modules/credit/credit.service.ts:111-140 | a transaction can abort at any moment before its end, and then holds no lock and has written nothing |
| CreditProtocol.EndsForGood | apps/api/src/modules/credit/credit.service.ts:111-140 | a transaction that has committed or aborted takes no further step, so it writes at most once |
| CreditProtocol.ChecksOnlyRead | apps/api/src/modules/credit/credit.service.ts:111-140 | a run without commits and unchecked writes leaves the tables as they were |
| CreditProtocol.WithoutLockExceeds | apps/api/src/modules/credit/credit.service.ts:97-119 | callers that skip the lock have a run of two approvals that both commit and exceed the limit |
| CreditProtocol.InvoicesFirstNeverUnderstates | apps/api/src/modules/credit/credit.service.ts:45-62 | whatever other transactions do between the two reads of a lock holder, its sum is never less than the exposure at the second read |
| CreditProtocol.OrdersFirstCanUnderstate | apps/api/src/modules/credit/credit.service.ts:45-62 | the other order of reads can, across an annulment |
| CreditProtocol.StaleAmountExceeds | apps/api/src/modules/credit/credit.service.ts:111-140 | with every lock taken, an amount that covered its order at the start but not at the write exceeds the limit |
| CreditAlerts.MissingGroupIsZero | apps/api/src/modules/credit/credit.service.ts:243-264 | a customer has a group row if and only if one of its rows matches, and without one it has nothing on that side, so the `?? 0` is right |
| CreditAlerts.BalanceMap | apps/api/src/modules/credit/credit.service.ts:266-280 | the two passes give every listed customer its own exposure |
| CreditAlerts.GetCreditAlerts | apps/api/src/modules/credit/credit.service.ts:218-301 | the list holds each due alert once and no other, by non-increasing utilisation |
| CreditAlerts.BatchRefinesPerCustomer | apps/api/src/modules/credit/credit.service.ts:171-182 | with no company filter a customer is listed if and only if its own summary says `isNearLimit`, with the same balance, and once |
| CreditAlerts.AlertedExactlyWhen | apps/api/src/modules/credit/credit.service.ts:218-301 | for any company and seller, a customer is alerted if and only if its limit is positive, it has an invoice of the company and that seller, and 100 times its exposure is at least 80 times its limit; the alert carries these figures |
| CreditAlerts.CompaniesShareExposure | apps/api/src/modules/credit/credit.service.ts:243-264 | a company's exposure is the sum over that company's rows, and the companies' exposures add up to the customer's own |
| Expenses.EffectKeepsRowOk | apps/api/src/modules/commercial-expenses/commercial-expenses.service.ts:375-398 | a checked request leaves a row sent back or rejected with a non-blank note, and reviewed rows with the control-role user who reviewed them |
| Expenses.StepKeepsInv | apps/api/src/modules/commercial-expenses/commercial-expenses.service.ts:213-343 | every step keeps the audit log the linked history of exactly the rows in the table |
| Expenses.RunKeepsInv | apps/api/src/modules/commercial-expenses/commercial-expenses.service.ts:355-424 | so does every interleaving of edits and reviews |
| Expenses.HistoriesFollowTable | apps/api/src/modules/commercial-expenses/commercial-expense-constants.ts:16-33 | every committed status history is a path of the transition table from `pendiente`; only pending edits stutter |
| Expenses.SettledStaysFrozen | apps/api/src/modules/commercial-expenses/commercial-expenses.service.ts:225-230 | after leaving `pendiente` and `requiere_correccion` the content never changes, and the status only from approved to booked |
| Expenses.RowsAlwaysOk | apps/api/src/modules/commercial-expenses/commercial-expenses.service.ts:375-382 | in every reachable state rows sent back or rejected hold a non-blank review note |
| Expenses.EntriesChain | apps/api/src/modules/commercial-expenses/commercial-expenses.service.ts:415-425 | each audit entry starts from the status the preceding entry of that expense ended in |
| Expenses.EntriesAreAuthorised | apps/api/src/modules/commercial-expenses/commercial-expenses.service.ts:223-234 | every committed edit is by the submitter or a control role, every review by a control role |
| Expenses.EditsMerge | apps/api/src/modules/commercial-expenses/commercial-expenses.service.ts:242-313 | no edit or review changes a field it does not name, whatever was committed after its read |
| Expenses.LastReviewStands | apps/api/src/modules/commercial-expenses/commercial-expenses.service.ts:294-399 | in every reachable state an expense bears the outcome, trimmed note and deciding user of its last review, unless an edit of it when sent back came after, and is then pending with neither |
| Expenses.RefusedLeavesNoTrace | apps/api/src/modules/commercial-expenses/commercial-expenses.service.ts:213-343 | a run without commits and creations leaves table and log as they were |
| Expenses.NoLockLeftBehind | apps/api/src/modules/commercial-expenses/commercial-expenses.service.ts:307-343 | in every run each row lock is held by a transaction on that row between its write and its end |
| Expenses.CreatedExactlyWhen | apps/api/src/modules/commercial-expenses/commercial-expenses.service.ts:111-200 | a new expense is stored, pending and its author's, if and only if customer and visit exist and do not contradict each other; text fields are trimmed, blank becoming null |
| Expenses.SecondConflictsExactlyWhen | apps/api/src/modules/commercial-expenses/commercial-expenses.service.ts:307-319 | of any two requests that both read a row before either writes, the second fails with a conflict if and only if the first changed the status; the table then holds the first one's result |
| Expenses.ReviewsChangeStatus | apps/api/src/modules/commercial-expenses/commercial-expense-constants.ts:16-33 | a review always changes the status, so of two such reviews one is recorded |
| Expenses.RollbackFrees | apps/api/src/modules/commercial-expenses/commercial-expenses.service.ts:307-343 | a request can be rolled back exactly between its read and its commit, and then holds no lock |
| Expenses.ConcurrentEdits | apps/api/src/modules/commercial-expenses/commercial-expenses.service.ts:307-340 | two edits that both read a pending row both commit; the second entry's previous state is the first entry's next exactly when the first edit changed nothing |
| Expenses.EditKeepsRelationsExactlyWhen | apps/api/src/modules/commercial-expenses/commercial-expenses.service.ts:236-239 | an edit checked on one row leaves another, consistent row consistent if and only if the merged customer and visit do not contradict each other |
| Expenses.FreshEditKeepsRelations | apps/api/src/modules/commercial-expenses/commercial-expenses.service.ts:236-239 | an edit is safe on any row whose customer and visit are those it was checked on |
| Expenses.ConcurrentEditsSplitExactlyWhen | apps/api/src/modules/commercial-expenses/commercial-expenses.service.ts:236-313 | two edits that both read a pending row leave it inconsistent if and only if the customer and visit merged from the row and both edits contradict each other |
| Expenses.RelationsHoldExactlyWhen | apps/api/src/modules/commercial-expenses/commercial-expenses.service.ts:236-313 | over every run all recorded rows are consistent if and only if no edit was written on a row it contradicts, which takes an edit that read another customer or visit |
| ExpenseService.BuildData | apps/api/src/modules/commercial-expenses/commercial-expenses.service.ts:242-299 | the update names exactly the requested fields; the text ones are trimmed, blank becoming null |
| ExpenseService.Service.UpdateMany | apps/api/src/modules/commercial-expenses/commercial-expenses.service.ts:307-319 | the row changes, and the count is one, exactly when it still has the expected status |
| ExpenseService.Service.Update | apps/api/src/modules/commercial-expenses/commercial-expenses.service.ts:208-344 | tables and reply are those of one uninterrupted request, every rejection leaving the tables alone; a reply has consistent relations |
| ExpenseService.Service.UpdateStatus | apps/api/src/modules/commercial-expenses/commercial-expenses.service.ts:346-446 | the same for a review |
| ExpenseService.EditAnsweredExactlyWhen | apps/api/src/modules/commercial-expenses/commercial-expenses.service.ts:208-344 | an edit is refused for the first reason that holds, or stored with every named field as normalised, every other as it was, and what a sent-back row must lose; a refusal changes nothing |
| ExpenseService.ReviewAnsweredExactlyWhen | apps/api/src/modules/commercial-expenses/commercial-expenses.service.ts:346-446 | the same for a review: roles, missing row, the five allowed moves, the note; then status, trimmed note and deciding user |
| ExpenseService.StepsRefineService | apps/api/src/modules/commercial-expenses/commercial-expenses.service.ts:213-343 | the interleaved steps of one request, run back to back, are the request the service serves |
| Calendar.CivilOfFacts | apps/api/src/modules/analytics/analytics.shared.ts:53-55 | every day number is the number of the valid civil date it prints as |
| Calendar.CivilOfDayNumber | apps/api/src/modules/analytics/analytics.shared.ts:57-61 | every valid date is printed for its own day number |
| Calendar.CivilOfMonotone | apps/api/src/modules/analytics/analytics.shared.ts:244-257 | later days have later dates |
| Calendar.MonthsCarry | apps/web/src/lib/date-grid.ts:79-95 | `Date.UTC` carries months and days out of range over (MakeDay, section 21.4.1 of ECMA-262) |
| Calendar.WeekdayOfDate | apps/api/src/modules/analytics/analytics.shared.ts:237-239 | `getUTCDay` of a date, counted from the epoch (section 21.4.1 of ECMA-262), is its day of the week by Zeller's congruence, for every year |
| Buckets.DayBoundaries | apps/api/src/modules/analytics/analytics.shared.ts:40-55 | an instant has a Bogota date if and only if it is within that date's boundaries, from 05:00 UTC to a millisecond before the next |
| Buckets.KeysName | apps/api/src/modules/analytics/analytics.shared.ts:232-241 | a day's key is its own date, its week's key the date of the Monday at most six days back, its month's key the month whose days hold it |
| Buckets.AcceptedSpans | apps/api/src/modules/analytics/analytics.shared.ts:77-86 | the accepted ranges are exactly those of 1 to 1096 days |
| Buckets.PrintedInjective | apps/api/src/modules/analytics/analytics.shared.ts:232-241 | different keys have different texts |
| Buckets.KeysMonotone | apps/api/src/modules/analytics/analytics.shared.ts:232-241 | keys never go back in time, by day, week or month |
| Buckets.DayKeysFacts | apps/api/src/modules/analytics/analytics.shared.ts:244-257 | the keys of a run of days are strictly increasing and are exactly the keys of those days |
| Buckets.BucketsBetween | apps/api/src/modules/analytics/analytics.shared.ts:244-257 | for any two instants: increasing keys, ending on the key of `to` exactly when a day before the guard has it, and then exactly the keys of the range |
| Buckets.AcceptedRangeCovered | apps/api/src/modules/analytics/analytics.shared.ts:77-86 | an accepted range never meets the guard and has the bucket of each of its instants |
| Sales.FillSeries | apps/api/src/modules/analytics/sales.service.ts:130-145 | every bucket holds exactly the orders and returns filed under its key |
| Sales.SeriesConserves | apps/api/src/modules/analytics/sales.service.ts:112-145 | over an accepted range the buckets add up to gross revenue, net revenue and number of orders |
| Sales.Series | apps/api/src/modules/analytics/sales.service.ts:129-145 | from range to series: increasing keys, exact buckets, nothing lost to the `continue` |
| PreviousYear.ShiftTextExactlyWhen | apps/api/src/modules/analytics/sales.service.ts:149 | shifting a key as text gives the text of the key a year later if and only if its year is 999 or later; before, the text is too short to be a key |
| PreviousYear.FillPrevious | apps/api/src/modules/analytics/sales.service.ts:147-158 | each shifted text holds the prior year's orders less returns filed under it, and no other text is present |
| PreviousYear.YearBackDate | apps/api/src/modules/analytics/analytics.shared.ts:260-274 | one year back is the same date, and 1 March for 29 February |
| PreviousYear.MonthColumnExactlyWhen | apps/api/src/modules/analytics/sales.service.ts:147-169 | by month every prior-year day meets a current bucket if and only if the range begins in the year 1000 or later and does not end on 29 February |
| PreviousYear.DayColumnExactlyWhen | apps/api/src/modules/analytics/sales.service.ts:147-169 | by day, if and only if moreover the prior range contains no 29 February |
| PreviousYear.ColumnConserves | apps/api/src/modules/analytics/sales.service.ts:160-173 | a column in which every prior-year day meets a bucket adds up to `previousNet` |
| PreviousYear.ShiftedWeekIsNoWeek | apps/api/src/modules/analytics/sales.service.ts:147-149 | a Monday shifted by one year is never a Monday |
| PreviousYear.WeekColumnIsNull | apps/api/src/modules/analytics/sales.service.ts:160-169 | so by week no bucket has a previous-year figure |
| Receivables.PostToCustomer | apps/api/src/modules/analytics/receivables.service.ts:164-185 | posting an invoice keeps every customer row right and creates the missing one |
| Receivables.GetReceivables | apps/api/src/modules/analytics/receivables.service.ts:101-210 | every aging, customer, seller and company row holds exactly what the live ones among the invoices read add up to, with a row for each key that occurs among them |
| Receivables.ReportIsOfInvoices | apps/api/src/modules/analytics/receivables.service.ts:101-210 | in terms of all the invoices read: totals, buckets and rows are the sums over those neither paid nor annulled with more billed than paid and credited, by customer, seller (the order's, else the customer's), company and age in days; a row exists if and only if one of its invoices is such |
| Receivables.LiveKeepsOwing | apps/api/src/modules/analytics/receivables.service.ts:105-107 | the filter keeps exactly those invoices, each once and in order |
| Receivables.ReportBalances | apps/api/src/modules/analytics/receivables.service.ts:142-210 | all four breakdowns add up to the outstanding total; the four past-due buckets and every overdue column to the overdue total |
| Receivables.OldestIsWorst | apps/api/src/modules/analytics/receivables.service.ts:180-185 | `maxDaysPastDue` is the age of `oldestDueDate` and the largest among the customer's invoices |
| DebtorAging.AddToBand | apps/web/src/lib/debtor-aging.ts:71-76 | the chain of comparisons adds the balance to the column whose days it falls in and to no other, an unreadable date to the last |
| DebtorAging.BucketAging | apps/web/src/lib/debtor-aging.ts:36-79 | a row for each key with debt, every one exact; the list is those rows by descending balance, ties in order of first appearance |
| DebtorAging.RowIsOwed | apps/web/src/lib/debtor-aging.ts:36-76 | every column of a row is the sum over the invoices not annulled, with a positive balance, of that customer and currency and of that age in days |
| DebtorAging.RowExactlyWhenOwed | apps/web/src/lib/debtor-aging.ts:40-66 | a key has a row if and only if there is such an invoice under it |
| DebtorAging.DebtorsBalance | apps/web/src/lib/debtor-aging.ts:64-76 | each row's five buckets add up to its positive balance, and the rows to all positive balances that are not annulled |
| DebtorAging.KeyInjective | apps/web/src/lib/debtor-aging.ts:49-50 | without the separator in the customer id, a key stands for one customer and currency |
| DebtorAging.NoRowTwice | apps/web/src/lib/debtor-aging.ts:78 | no customer and currency is listed twice |
| DebtorAging.RowIsItsOwn | apps/web/src/lib/debtor-aging.ts:49-66 | with no separator in customer ids, an invoice is counted in the row of its own customer and currency |
| DebtorAging.OldestIsLongestOverdue | apps/web/src/lib/debtor-aging.ts:31-34 | for real dates the least due date as text is the earliest day of the row |
| DebtorAging.DateReadsBack | apps/web/src/lib/debtor-aging.ts:31-34 | the ISO text of a day, with or without a time after it, reads back as that day |
| Sorting.SortDescendingSorts | apps/web/src/lib/debtor-aging.ts:78 | the sort orders, keeps every element and is stable |
| ZoneTime.ZoneOffsetRecovers | apps/api/src/shared/overdue.ts:138-150 | formatting and counting back recovers the zone's offset |
| ZoneTime.WallClockInverts | apps/api/src/shared/overdue.ts:157-171 | around at most one change of offset, the result shows the wanted wall time if and only if some instant does |
| ZoneTime.WallShownExactlyWhen | apps/api/src/shared/overdue.ts:157-171 | for any zone, the result is the guess less the offset read at the once-corrected guess, and shows the wanted wall time if and only if the zone has that offset there too |
| ZoneTime.ShowsThatWall | apps/api/src/shared/overdue.ts:122-135 | the fields read back are the fields asked for |
| ZoneTime.TwoChangesDefeatIt | apps/api/src/shared/overdue.ts:152-171 | with a second change nearby one refinement misses a wall time that exists |
| ZoneTime.DayRangeIsTheDay | apps/api/src/shared/overdue.ts:179-192 | at a fixed offset the range is the wall-clock day, 24 hours less a millisecond |
| ZoneTime.WeekRangeIsTheWeek | apps/api/src/shared/overdue.ts:207-241 | the range is the week from midnight of the Monday, by Zeller's congruence, at most six days back |
| ZoneTime.DaysTile | apps/api/src/shared/overdue.ts:179-192 | a day contains its `now`, all its instants share it, and the next begins the millisecond after |
| ZoneTime.WeeksTile | apps/api/src/shared/overdue.ts:207-241 | the same for weeks, whose first day is a Monday by Zeller's congruence |
| DateGrid.MonthGrid | apps/web/src/lib/date-grid.ts:89-106 | for any year and month, 42 cells holding consecutive calendar days, as far as ECMA-262 has dates (section 21.4.1.1) |
| DateGrid.GridShowsMonth | apps/web/src/lib/date-grid.ts:79-106 | the columns run from Monday to Sunday by Zeller's congruence; the `inMonth` cells are the days 1 to the last, once each and in order, as far as there are dates |
| DateGrid.MonthShownExactlyWhen | apps/web/src/lib/date-grid.ts:89-106 | every day of the month asked for has its cell if and only if the year is not 0 to 99, which `Date.UTC` remaps (section 21.4.3.4 of ECMA-262), and the first and last of the month are within 100,000,000 days of the epoch, beyond which `Date.UTC` is NaN |
| DateGrid.IsoIsPrintedDate | apps/web/src/lib/date-grid.ts:97-98 | a cell's `iso` is its ISO date, so different days of the years 0 to 9999 have different texts |
| DateGrid.AddMonthsCounts | apps/web/src/lib/date-grid.ts:109-112 | the month count moves by exactly `delta`, the month staying in 1..12 |
| DateGrid.AddMonthsComposes | apps/web/src/lib/date-grid.ts:109-112 | shifts compose additively for all deltas; a zero shift is the identity exactly on real months |
| Text.SplitJoins | apps/web/src/lib/nora-sse.client.ts:40 | `split` gives pieces free of line feeds that join back to the text |
| Text.TrimTakesSpaces | apps/web/src/lib/nora-sse.client.ts:45 | `trim` takes spaces off both ends, nothing else, and leaves none there |
| Text.DecimalReadsBack | apps/api/src/modules/analytics/sales.service.ts:149 | the text of a number reads back as the number and has no leading zero |
| Sse.HandleLines | apps/web/src/lib/nora-sse.client.ts:43-56 | the inner loop delivers the events of its lines, in order |
| Sse.StreamNoraMessage | apps/web/src/lib/nora-sse.client.ts:32-57 | for every way of cutting the stream, the events are those of the uncut text |
| Sse.CutStreamIsPrefix | apps/web/src/lib/nora-sse.client.ts:35-41 | a stream cut short delivers a prefix of the events |
| Sse.OtherLinesAreIgnored | apps/web/src/lib/nora-sse.client.ts:43-44 | a line without the prefix, wherever it comes, delivers nothing |
| Sse.DataLineDelivers | apps/web/src/lib/nora-sse.client.ts:44-54 | a line with it delivers what its trimmed rest parses to, or the done signal |
| Sse.RoundTrip | apps/web/src/lib/nora-sse.client.ts:44-54 | from the server's frames the client recovers the payloads in order and one done signal |
| Sse.ForwardOne | agents/nora/src/main.py:573-593 | what one graph event adds to the answer, the tool lists and the text |
| Sse.PickAgenda | agents/nora/src/main.py:596-605 | the last agenda the tools returned that parses |
| Sse.EventStream | agents/nora/src/main.py:565-617 | the text is the frames of the payloads that `ForwardedIsRelayed` and `ConclusionCloses` describe and the end marker, also when the client leaves early |
| Sse.FramesAreServerText | agents/nora/src/main.py:580-617 | frames printed one by one are the frames of the whole list |
| Sse.ForwardedIsRelayed | agents/nora/src/main.py:573-593 | the payloads received are one for each event that carries text or is a tool event, in order, each saying what its event says |
| Sse.ConclusionCloses | agents/nora/src/main.py:595-615 | the closing payload is an agenda if and only if `get_agenda` was started; it is then the one of the last ending of that tool that parses, or empty |
| Sse.ShowAnswer | agents/nora/src/main.py:565-617 | end to end, for any cut and any moment the client leaves: one event for each visible one handled, in order, then an agenda if and only if that tool was started, with the last one that parses, or a greeting, its message what the tokens spell; then one done signal |
| TurnLocks.GotKeepsTable | agents/nora/src/locks.py:19-30 | the table stays within its bound, its dictionaries with the same keys, and a lock with one session |
| TurnLocks.SessionLocks.EvictOldest | agents/nora/src/locks.py:23-26 | a full table loses an entry least recently seen |
| TurnLocks.SessionLocks.GetSessionLock | agents/nora/src/locks.py:19-30 | the whole new table and the lock handed out |
| TurnLocks.EvictionNeedsMany | agents/nora/src/locks.py:23-29 | evicting the session of a turn in progress takes as many other sessions as the bound, all requested during it |
| TurnLocks.TurnsExclude | agents/nora/src/locks.py:33-46 | in any run with fewer other sessions than the bound during each turn, no session has two turns running |
| TurnLocks.CleanExactlyWhen | agents/nora/src/locks.py:19-46 | from any state whose table knows the turns in progress, a step leaves no way to two running turns of one session, by further steps that evict no turn in progress, if and only if it evicts none itself |
| TurnLocks.EveryStepExactlyWhen | agents/nora/src/locks.py:19-46 | the same at every point of a run from the empty table that has evicted no turn in progress so far, where no session has two turns running |
| TurnLocks.BoundIsSharp | agents/nora/src/locks.py:19-46 | with exactly as many, for every bound, a run has two turns of one session running |
| SessionStore.Store.PurgeExpired | agents/nora/src/sessions.py:100-108 | exactly the expired entries go, from both dictionaries |
| SessionStore.Store.PickOldest | agents/nora/src/sessions.py:112 | the entry least recently seen, first inserted among equals |
| SessionStore.Store.EvictLruIfNeeded | agents/nora/src/sessions.py:110-114 | the store is brought within its bound |
| SessionStore.Store.GetOrCreate | agents/nora/src/sessions.py:116-146 | the whole new store and the outcome; equal keys and the bound are kept |
| SessionStore.Store.Get | agents/nora/src/sessions.py:148-154 | the same for a lookup |
| SessionStore.EvictionIsLru | agents/nora/src/sessions.py:110-114 | whatever goes is older than whatever stays, and no more goes than must |
| SessionStore.CreatedSurvivesExactlyWhen | agents/nora/src/sessions.py:126-135 | the lookup after creating a session returns it if and only if the bound is at least one |
| SessionStore.FoundExactlyWhen | agents/nora/src/sessions.py:100-154 | a lookup finds a session, as stored, if and only if it was last seen within the time to live, and forgets exactly the others |
| SessionStore.AnswersExactlyWhen | agents/nora/src/sessions.py:116-146 | a living session is served to its owner alone, with what the request names replaced and what it leaves out kept; otherwise a new one, if the bound allows any |
| SessionStore.OwnerNeverChanges | agents/nora/src/sessions.py:136-146 | a session that has not expired keeps its owner, and only that owner is served |
| SessionStore.ServedStaysAlive | agents/nora/src/sessions.py:116-154 | whoever is served gets a context of their own, as stored, and the session cannot expire for a whole time to live |
| SessionStore.QueryMeetsIntentExactlyWhen | agents/nora/src/sessions.py:243-250 | the query keeps the set its docstring names if and only if nothing has to go or nothing may stay |
| SessionStore.CreatedRowIsLostExactlyWhen | agents/nora/src/sessions.py:243-250 | a row just created survives its own eviction if and only if the table was not full |
| PasswordReset.ResetAtMostOnce | apps/api/src/modules/auth/auth.service.ts:146-176 | in every interleaving a token commits at most one password; passwords are those of the committed resets and nothing else; the refresh tokens the revocation met stay revoked |
| PasswordReset.CommittedInTime | apps/api/src/modules/auth/auth.service.ts:146-153 | in every run each password committed was brought by a request that looked its token up before the token's expiry |
| PasswordReset.ResetAloneExactlyWhen | apps/api/src/modules/auth/auth.service.ts:146-176 | a request that runs alone uses its token, sets the password and revokes all the user's refresh tokens if and only if the token is on file, unused and not yet expired; otherwise it aborts |
| PasswordReset.LinkServesUntil | apps/api/src/modules/auth/auth.service.ts:118-134 | a link just requested serves its user until it expires, one retired serves nobody, whatever happens in between |
| PasswordReset.UsedTokenIsRejected | apps/api/src/modules/auth/auth.service.ts:151-153 | after that the token fails at the first look |
| PasswordReset.LoserAborts | apps/api/src/modules/auth/auth.service.ts:158-166 | a request that had validated the same token can then only abort, changing nothing |
| PasswordReset.RollbackChangesNothing | apps/api/src/modules/auth/auth.service.ts:158-175 | a request rolled back leaves password, token and sessions as they were, and no lock |
| PasswordReset.RevokeHoldsLive | apps/api/src/modules/auth/auth.service.ts:171-174 | the revocation holds exactly the user's refresh tokens live when it runs |
| PasswordReset.RefreshRotatesExactlyWhen | apps/api/src/modules/auth/auth.service.ts:57-84 | a refresh goes ahead if and only if its token is on file and not revoked; uninterrupted, it revokes that one and issues one for the same user |
| PasswordReset.LoginOpens | apps/api/src/modules/auth/auth.service.ts:93-100 | an uninterrupted login gives its user one more live refresh token and changes nothing else |
| PasswordReset.NoLockLeftBehind | apps/api/src/modules/auth/auth.service.ts:158-175 | in every run each lock is held by a request that has not ended |
| PasswordReset.LogoutRevokesOne | apps/api/src/modules/auth/auth.service.ts:86-91 | a logout revokes the token it names and no other |
| PasswordReset.RevokedForGood | apps/api/src/modules/auth/auth.service.ts:64-73 | a refresh token once revoked stays revoked in every run |
| PasswordReset.SessionsClosedExactlyWhen | apps/api/src/modules/auth/auth.service.ts:168-174 | in every interleaving with logins and refreshes, no earlier session of the user is ever live again if and only if at the commit none has a token issued since the revocation and none is between its check and its token |
| RefreshChain.RefreshGate.RefreshAccessToken | apps/web/src/lib/api.client.ts:12-31 | joins the request in flight, or posts exactly one and remembers it |
| RefreshChain.SingleFlight | apps/web/src/lib/api.client.ts:12-73 | in every run, for any number of concurrent calls, the tab waits for at most one refresh and no call fetches more than twice |
| RefreshChain.CallsRetryExactlyWhen | apps/web/src/lib/api.client.ts:49-73 | in every run a call stopped by an invalid token waits for the refresh in flight, is sent once more if and only if that brings a token, and otherwise ends; no other step changes a call |
| RefreshChain.CallsCanEnd | apps/web/src/lib/api.client.ts:12-73 | in every run each unfinished call can end by its next answer or by losing the connection it waits for |
| RefreshChain.FoundExactlyWhen | apps/api/src/modules/auth/auth.service.ts:60-66 | a presented token is found if and only if it was issued and is neither revoked nor expired |
| RefreshChain.DeadIsRefused | apps/api/src/modules/auth/auth.service.ts:60-73 | a token revoked, rotated or expired is refused from then on, whatever happens in between |
| RefreshChain.CookieFollows | apps/web/src/lib/api.client.ts:12-31 | the cookie changes only by a logout and by an answer heard, to the token it brings |
| RefreshChain.StepKeepsInv | apps/api/src/modules/auth/auth.service.ts:57-84 | every clean step of calls, gate and rotation keeps the chain, with at most one request able to mint |
| RefreshChain.TokensFormChain | apps/api/src/modules/auth/auth.service.ts:57-84 | after any run of clean steps the tokens descending from a login form a chain, at most the last one live |
| RefreshChain.NoneMintsTwice | apps/api/src/modules/auth/auth.service.ts:68-73 | along clean steps no token mints twice |
| RefreshChain.CleanExactlyWhen | apps/web/src/lib/api.client.ts:12-31 | a further step can lead to one token with two live descendants if and only if it is not clean: it drops a request whose live token the server has yet to rotate and the cookie still holds, or is another tab asking with a live cookie |
| RefreshChain.TwoTabsMintTwice | apps/api/src/modules/auth/auth.service.ts:60-83 | a second tab after the login is such a step |
| RefreshChain.LostConnectionMintsTwice | apps/web/src/lib/api.client.ts:25-28 | so is a lost connection, before the server looks the token up and after |
| Csv.ToCsv | apps/api/src/modules/analytics/analytics.shared.ts:287-297 | a quote-aware reader recovers the headings and, under heading `j` of each record, what column `j` says of that row, if and only if there is a column |
| Csv.ReadCellInverts | apps/api/src/modules/analytics/analytics.shared.ts:288-291 | one escaped cell reads back as its text, whatever it holds (rules 5 to 7 of section 2 of RFC 4180) |
| Csv.ReadsBackExactlyWhen | apps/api/src/modules/analytics/analytics.shared.ts:292-296 | the round trip holds for every table with at least one column, and for no other |
| Csv.PrinterInjective | apps/api/src/modules/analytics/analytics.shared.ts:287-297 | equal exports have equal cell texts |
| Nit.OneDigitMovesResidue | apps/api/prisma/scripts/import-customers.ts:63-68 | changing one digit always changes the weighted sum modulo 11 |
| Nit.SwapMovesResidue | apps/api/prisma/scripts/import-customers.ts:63-68 | exchanging two digits changes it unless they, or their weights modulo 11, are equal |
| Nit.SameCheckDigit | apps/api/prisma/scripts/import-customers.ts:68-69 | two numbers share a check digit if and only if their residues are equal or are 1 and 10 |
| Nit.PowersOfTen | apps/api/prisma/scripts/import-customers.ts:63-70 | the check digits of 1, 10, 100 and so on, which tell the fifteen weights apart |
| Nit.MistypedDigitIsMissedExactlyWhen | apps/api/prisma/scripts/import-customers.ts:63-70 | a mistyped digit is missed if and only if it moves the residue between 1 and 10 |
| Nit.SwappedNeighboursAreMissedExactlyWhen | apps/api/prisma/scripts/import-customers.ts:63-70 | the same for two unequal neighbours exchanged |
| Nit.FourAndSevenShareACheckDigit | apps/api/prisma/scripts/import-customers.ts:63-70 | such a miss exists |

## Left out

- CreditSafety: supposes that a write weighs no more than the amount checked, that unchecked steps raise no exposure and that limits are not lowered below it (`CoveredRun`, `Locking`); `SafeExactlyWhen` drops all three.
- SafeExactlyWhen: a commit concerns the order or invoice left out of its check (`Targets`), as every caller's does; drafts, status advances of committed orders and other commits that raise no exposure are one step (`Other`), and customers are not created during a run.
- TokensFormChain: along clean steps only; `CleanExactlyWhen` shows that every other step can break the chain. Expiry is a step that may come at any time.
- TurnsExclude: supposes fewer than the bound of other sessions requested during a turn; `BoundIsSharp` shows the bound is exact, `CleanExactlyWhen` which single steps endanger exclusion.
- RelationsHoldExactlyWhen: the customers on file and the customer of each visit do not change during a run.
- ColumnConserves: sums before `money` rounds them.
- MonthColumnExactlyWhen: ranges of the years 1 to 9999; for the year 0 `previousYearRange` rejects the year before it.
- FillPrevious: bucket keys of the prior year print with a four-digit year, 0 to 9998; years outside have the longer form of `toISOString`.
- WallClockInverts: instants from the year 100 on, because `Date.UTC` remaps earlier years; offsets are whole seconds below a day, as the formatter shows no fraction.
- DaysTile: a fixed offset, as Bogota has; with a change of offset a day is not 24 hours long.
- IsoIsPrintedDate: the years 0 to 9999; the model prints other years as the code does, without a claim.
- OldestIsLongestOverdue: due dates that read as real dates from the year 100 on, as in `DateReadsBack`; text order is by code point.
- RowIsItsOwn: customer ids without `|`; with one, two customers can share a key.
- BucketAging: `toDayUTC` is a parameter there, NaN being None; amounts that are not numbers are outside the model.
- RoundTrip: `json.dumps` and `JSON.parse` are any pair of functions that invert each other and print one trimmed line; chunks are characters, so `TextDecoder` is outside the model.
- MistypedDigitIsMissedExactlyWhen: up to 15 digits, beyond which the code's sum is NaN.
- GetOrCreate: an existing context is returned as a value; the code hands out the mutable object itself.
- The rows a transaction locks besides the one its condition or `FOR UPDATE` names, deadlock detection and every other mechanism of Prisma and Postgres.
- Floating-point rounding in `money`, `percent`, `ratio` and balances: exact integers and rationals throughout.
- Filter dates are taken as real dates: the regular expression and NaN checks of `dayBoundary` are not modelled.
- Bucket keys are structured values; `PrintedInjective` covers the texts of years 0 to 9999.
- The rest of the analytics reports: payment behaviour, DSO, top-row slices, labels and the other breakdowns of sales, which add only easy members.
- Timestamps of the expense table (`reviewedAt`, `extractionReviewedAt`), decimal places, notifications and attachments.
- Postgres `get_or_create` and its race with other workers, and the Postgres advisory locks of the agent.
- Fairness of `asyncio.Lock` and real time: a waiting turn may time out at any moment.
- SessionsClosedExactlyWhen: a login that passes its check is not tied to the password it compared; a live token is one not revoked, expired or not.
- Access tokens, JWT signing, hashing and cookies' attributes; token hashes are identities.
- `login`, `me` and account management in `auth.service.ts`, role tables, route guards, UI, prompts and tool wrappers.
