# A Dafny model of the blackvant money ledger

The backend keeps a small money ledger in a relational store. Each user has two
balances. The investment balance rises when an admin approves a deposit. The profit
balance rises when an admin distributes profit in proportion to investment, falls
when the user asks for a withdrawal, and rises again if the withdrawal is rejected.
The route handlers are the only place where these rules live.

This project models those handlers as pure functions over an immutable `Ledger`:

- `Records` holds the tables (users, deposits, withdrawals, distributions, payouts
  and the audit trail) as sequences in insertion order. Row ids come from one
  counter and creation times from a logical clock. The module also holds the
  schema's integrity rules (`Valid`).
- Every handler returns a `Reply`: the ledger it leaves and either its payload or a
  `Failure` (HTTP status and message). An error reply usually leaves the ledger
  as it was. It does not in two cases: an audit entry written outside a
  transaction outlives that transaction's rollback, and the admin gate's 403
  for a subject seen for the first time keeps the client row that
  authentication just created.
- The modules follow the route files:
  - `Auth`: the bearer token, find-or-create of the local user, and the admin gate.
  - `Deposits` and `Withdrawals`: the user routes.
  - `DepositReview` and `WithdrawalReview`: the admin review routes.
  - `ProfitCalculate` and `ProfitDistribute`: the calculator and the transactional
    commit.
  - `History`, `Export` and `AdminStats`: the read-only views.
- `Conservation` states two money invariants and proves that every handler keeps
  them, so any run of requests from the empty ledger keeps them:
  - the investment balances add up to the approved deposits;
  - the profit balances plus the withdrawals not rejected add up to all payouts.
- `Lifecycle` relates handlers to each other. It shows that creating and then
  rejecting a withdrawal gives the balance back, and that creating and then
  approving a deposit credits its amount. It also works through a small
  distribution example, once by the intended route and once by the route as
  written.

Amounts are exact `real`s. Signature checking of tokens is a parameter,
`verify`, that answers the claims of a token it accepts. A store failure during the
payout loop is a parameter, `fault`, naming the step at which the store fails.
The renderings of decimals and dates in the CSV are a parameter, `Format`.

## Model

| member | source | states |
|---|---|---|
| Auth.TokenOf | src/middleware/auth.js:22 | no header gives no token; a header without `"Bearer "` is kept whole; otherwise the token is the header with the first `"Bearer "` cut out, wherever it stands, and is seven characters shorter |
| Auth.TokenOfBearer | src/middleware/auth.js:22 | a header `Bearer <t>` yields exactly `t` |
| Auth.TokenOfRemovesInnerPrefix | src/middleware/auth.js:22 | the first `"Bearer "` is removed even when it is not at the start of the header |
| Auth.RequireAuth | src/middleware/auth.js:22-65 | 401 "Missing authorization token" exactly for a missing or empty token, 401 "Invalid or expired token" exactly for a token `verify` refuses, 401 "Invalid Clerk token structure" exactly for verified claims without a subject; on success the attached user holds the subject and is the table's row for it, and it is either an existing row (no write) or one new client with zero balances |
| Auth.RequireAdmin | src/middleware/auth.js:75-85 | 401 with no user; passes exactly admins and superadmins, unchanged; 403 for any other role |
| Auth.AdminGate | src/middleware/auth.js:64-65 | the gate leaves the ledger the authentication step left, and passes exactly authenticated admins |
| Auth.RequireAuthIdempotent | src/middleware/auth.js:50-62 | a second request with the same header attaches the same user and writes nothing |
| Auth.KnownSubjectCreatesNothing | src/middleware/auth.js:50-52 | a subject already in the table attaches that row and leaves the ledger unchanged |
| Auth.UnknownSubjectCreatesClient | src/middleware/auth.js:54-62 | an unknown subject adds exactly one row: that subject, the token's e-mail, role client, zero balances |
| Auth.NewSubjectIsRefusedByGate | src/middleware/auth.js:80-84 | a first-time subject is refused by the admin gate with 403, and its new row stays |
| Auth.RequireAuthKeepsValid | src/middleware/auth.js:54-62 | finding or creating the user keeps ids and subjects unique and keeps every integrity rule |
| Deposits.CreateDeposit | src/routes/deposit.routes.js:27-43 | 400 exactly when amount, currency or method is falsy, with no change; success exactly when the caller's row exists; the new row is pending, unreviewed, unapproved (no approval stamp), owned by the caller with the given amount; no balance moves |
| Deposits.MyDeposits | src/routes/deposit.routes.js:10-13 | the listing holds exactly the caller's deposits |
| Deposits.MyDepositsNewestFirst | src/routes/deposit.routes.js:10-13 | the listing is strictly newest first by creation time |
| Deposits.NewDepositListedFirst | src/routes/deposit.routes.js:10-13 | a deposit just created heads its owner's listing |
| Deposits.CreateDepositKeepsValid | src/routes/deposit.routes.js:31-41 | creation keeps the integrity rules and leaves the user table unchanged |
| Withdrawals.CreateWithdrawal | src/routes/withdrawal.routes.js:27-57 | 400 for a falsy field; 400 when the caller's profit balance is below the amount; otherwise success exactly when the caller's row exists, debiting that row by the amount and adding one pending, unapproved withdrawal of that amount owned by the caller |
| Withdrawals.MyWithdrawals | src/routes/withdrawal.routes.js:10-13 | the listing holds exactly the caller's withdrawals |
| Withdrawals.MyWithdrawalsNewestFirst | src/routes/withdrawal.routes.js:10-13 | the listing is strictly newest first by creation time |
| Withdrawals.NewWithdrawalListedFirst | src/routes/withdrawal.routes.js:10-13 | a withdrawal just created heads its owner's listing |
| Withdrawals.CreateWithdrawalKeepsBalanceNonNegative | src/routes/withdrawal.routes.js:32-44 | from a current, non-negative profit balance a successful withdrawal leaves it non-negative, and no other row changes |
| Withdrawals.CreateWithdrawalDebitsTheSum | src/routes/withdrawal.routes.js:37-44 | the sum of profit balances drops by exactly the amount; the investment sum is unchanged |
| Withdrawals.NegativeAmountRaisesBalance | src/routes/withdrawal.routes.js:27-34 | the guards let a negative amount through, and it raises the caller's profit balance |
| Withdrawals.CreateWithdrawalKeepsValid | src/routes/withdrawal.routes.js:37-55 | creation keeps the integrity rules |
| DepositReview.PendingDeposits | src/routes/admin/deposit.admin.routes.js:11-19 | the list holds exactly the pending deposits (without the joined owner e-mail) |
| DepositReview.PendingDepositsNewestFirst | src/routes/admin/deposit.admin.routes.js:11-19 | the pending list is strictly newest first |
| DepositReview.Reviewable | src/routes/admin/deposit.admin.routes.js:33-36 | 404 for an unknown id, 400 for a deposit no longer pending, otherwise the deposit's row |
| DepositReview.ApproveDeposit | src/routes/admin/deposit.admin.routes.js:33-69 | success exactly when the deposit passes the checks and its owner exists; a failed check answers its error with no change, and a missing owner answers 500 with no change; success marks the deposit approved by the admin, stamps its approval time with the clock's current reading, credits the owner's investment balance by the amount, and appends one approval audit entry, and nothing else changes |
| DepositReview.RejectDeposit | src/routes/admin/deposit.admin.routes.js:82-104 | success exactly for a pending deposit: it is marked rejected with the reason and reviewer, one rejection audit entry is appended, and no balance moves |
| DepositReview.ApproveCreditsOnlyTheOwner | src/routes/admin/deposit.admin.routes.js:49-58 | approval raises only the owner's investment balance, by the amount; no profit balance and no other user changes |
| DepositReview.ApproveRaisesInvestmentSum | src/routes/admin/deposit.admin.routes.js:49-58 | approval raises the investment sum by the amount and leaves the profit sum |
| DepositReview.ApprovalFollowsCreation | src/routes/admin/deposit.admin.routes.js:45 | in a valid ledger an approved deposit carries an approval stamp later than its creation stamp |
| DepositReview.ReviewIsTerminal | src/routes/admin/deposit.admin.routes.js:84-85 | after an approval or a rejection, either review of the same deposit answers 400 with no change |
| DepositReview.ReviewKeepsValid | src/routes/admin/deposit.admin.routes.js:39-59 | both reviews keep the integrity rules |
| WithdrawalReview.PendingWithdrawals | src/routes/admin/withdrawal.admin.routes.js:11-19 | the list holds exactly the pending withdrawals (without the joined owner e-mail) |
| WithdrawalReview.PendingWithdrawalsNewestFirst | src/routes/admin/withdrawal.admin.routes.js:11-19 | the pending list is strictly newest first |
| WithdrawalReview.Reviewable | src/routes/admin/withdrawal.admin.routes.js:34-37 | 404 for an unknown id, 400 for a withdrawal no longer pending, otherwise its row |
| WithdrawalReview.ApproveWithdrawal | src/routes/admin/withdrawal.admin.routes.js:34-58 | success exactly for a pending withdrawal: status, transfer reference, note, reviewer and the approval time (the clock's current reading) recorded, one audit entry appended, no balance moves |
| WithdrawalReview.RejectWithdrawal | src/routes/admin/withdrawal.admin.routes.js:71-106 | success exactly when the withdrawal passes the checks and its owner exists; a missing owner answers 500 and leaves the rejection's audit entry behind; on success the withdrawal is marked rejected, the owner's profit balance is refunded by the amount and one audit entry is appended; on failure no table but the audit trail changes |
| WithdrawalReview.RejectWithMissingOwnerLeavesAudit | src/routes/admin/withdrawal.admin.routes.js:87-103 | with the owner missing the refund fails and rolls back, yet the audit entry stays |
| WithdrawalReview.RejectRefundsOnlyTheOwner | src/routes/admin/withdrawal.admin.routes.js:96-103 | rejection raises only the owner's profit balance, by the amount; investment balances and other users are untouched |
| WithdrawalReview.ReviewMovesTheProfitSum | src/routes/admin/withdrawal.admin.routes.js:96-103 | rejection raises the profit sum by the amount; approval moves no balance |
| WithdrawalReview.ApprovalFollowsCreation | src/routes/admin/withdrawal.admin.routes.js:46 | in a valid ledger an approved withdrawal carries an approval stamp later than its creation stamp |
| WithdrawalReview.ReviewIsTerminal | src/routes/admin/withdrawal.admin.routes.js:73-74 | after a review, both reviews answer 400 with no change, so nothing is refunded twice |
| WithdrawalReview.ReviewKeepsValid | src/routes/admin/withdrawal.admin.routes.js:77-104 | both reviews, committed or not, keep the integrity rules |
| ProfitCalculate.Eligible | src/routes/admin/profit/profit.calculate.routes.js:21-28 | exactly the users with a positive investment balance |
| ProfitCalculate.Lines | src/routes/admin/profit/profit.calculate.routes.js:33-46 | one line per eligible user, in order, with the user's id, e-mail, balance as snapshot and share |
| ProfitCalculate.TotalIsScaledPool | src/routes/admin/profit/profit.calculate.routes.js:31-38 | the shares add up to the pool times the percent over 100 |
| ProfitCalculate.Calculate | src/routes/admin/profit/profit.calculate.routes.js:30-52 | one line per user with a positive investment balance, in table order, carrying that user's id, balance and share at the percent; the pool is the sum of those balances; the total is the sum of the shares and equals the pool times the fraction; the count is the number of recipients |
| ProfitCalculate.CalculateByRunningTotals | src/routes/admin/profit/profit.calculate.routes.js:30-46 | the one-pass loop with running totals computes the same pool, total, count and lines as the calculator |
| ProfitCalculate.CalculateRoute | src/routes/admin/profit/profit.calculate.routes.js:13-15 | 400 exactly when a field is falsy; otherwise the preview for the percent |
| ProfitCalculate.EligibleKeepsUnique | src/routes/admin/profit/profit.calculate.routes.js:21-28 | the eligible users keep unique ids |
| ProfitCalculate.PreviewNamesExactlyTheEligible | src/routes/admin/profit/profit.calculate.routes.js:33-46 | a user is named by a preview line exactly when its investment balance is above zero |
| ProfitCalculate.PreviewLinesMatchTheirUsers | src/routes/admin/profit/profit.calculate.routes.js:36-44 | every line's snapshot is its user's balance and its share is that balance times the percent over 100 |
| ProfitCalculate.PreviewNamesEachUserOnce | src/routes/admin/profit/profit.calculate.routes.js:33-46 | no user appears on two lines |
| ProfitCalculate.MissingFieldIgnoresLedger | src/routes/admin/profit/profit.calculate.routes.js:13-15 | a request missing a field is refused the same way whatever the ledger holds |
| ProfitCalculate.EligibleOfSameInvestors | src/routes/admin/profit/profit.calculate.routes.js:21-46 | two tables agreeing on ids, e-mails and investment balances give the same lines, pool and count |
| ProfitCalculate.CalculationDependsOnBalancesAndPercent | src/routes/admin/profit/profit.calculate.routes.js:18-36 | the preview does not depend on the declared profit, the date, roles or profit balances |
| ProfitDistribute.PayoutRecords | src/routes/admin/profit/profit.distribute.routes.js:73-81 | one payout per line, in order, linked to the distribution, with the line's user, snapshot and share |
| ProfitDistribute.PayoutLoop | src/routes/admin/profit/profit.distribute.routes.js:73-91 | a completed loop changes only the user table and appends the payout records; user ids and subjects are kept; any failure is a 500 |
| ProfitDistribute.PayStep | src/routes/admin/profit/profit.distribute.routes.js:73-90 | one step keeps every user's keys |
| ProfitDistribute.Distribute | src/routes/admin/profit/profit.distribute.routes.js:15-102 | 400 for a falsy field with no change; any failure leaves every table but the audit trail and the id counter unchanged; success adds exactly one distribution, the payout records of the preview and one audit entry, and reports the new id, count and total |
| ProfitDistribute.DistributeAsWritten | src/routes/admin/profit/profit.distribute.routes.js:61-70 | as written, every complete request answers 500 and the ledger is unchanged |
| ProfitDistribute.PayoutLoopCredits | src/routes/admin/profit/profit.distribute.routes.js:83-90 | a fault-free loop over existing users succeeds and raises each user's profit balance by what the lines credit it |
| ProfitDistribute.EligibleCredit | src/routes/admin/profit/profit.distribute.routes.js:33-43 | the preview lines credit each user its own share if eligible and nothing otherwise |
| ProfitDistribute.LinesNameUsers | src/routes/admin/profit/profit.distribute.routes.js:22-28 | the preview lines name only existing users |
| ProfitDistribute.CommitLoopCredits | src/routes/admin/profit/profit.distribute.routes.js:73-91 | the loop over the preview, without a fault, succeeds and credits each user what the preview names |
| ProfitDistribute.DistributeCommitsLoop | src/routes/admin/profit/profit.distribute.routes.js:46-94 | when the loop succeeds, the route commits the loop's user table |
| ProfitDistribute.DistributeCreditsEachShare | src/routes/admin/profit/profit.distribute.routes.js:83-90 | with no fault, each eligible user's profit balance rises by exactly its share; every other balance is unchanged |
| ProfitDistribute.DistributeRollsBackLoop | src/routes/admin/profit/profit.distribute.routes.js:103-106 | when the loop fails the reply is 500 and only the audit entry remains |
| ProfitDistribute.DistributeFaultRollsBack | src/routes/admin/profit/profit.distribute.routes.js:46-94 | a store failure at any payout step rolls back every table; the audit trail grows by one entry |
| ProfitDistribute.PayoutLoopOkHasNoFault | src/routes/admin/profit/profit.distribute.routes.js:73-91 | a loop that succeeds met no fault at any of its steps |
| ProfitDistribute.PayoutLoopFails | src/routes/admin/profit/profit.distribute.routes.js:73-91 | a fault at any of the loop's steps makes the loop fail |
| ProfitDistribute.PayoutRecordsTotal | src/routes/admin/profit/profit.distribute.routes.js:78-79 | the payout shares add up to the lines' shares |
| ProfitDistribute.DistributeOkIsLoop | src/routes/admin/profit/profit.distribute.routes.js:96-102 | a success is the loop's ledger with the audit entry, and reports the new id, count and total |
| ProfitDistribute.DistributionMatchesItsPayouts | src/routes/admin/profit/profit.distribute.routes.js:48-59 | the new distribution is "distributed", created by the admin; its pool is the eligible sum, its total is the pool times the fraction and the sum of the new payouts, and its recipient count is their number |
| ProfitDistribute.PayoutsAreThePreview | src/routes/admin/profit/profit.distribute.routes.js:19-43 | the committed payouts are the calculate route's preview, less the e-mail |
| ProfitDistribute.ShareTotalIsPreviewTotal | src/routes/admin/profit/profit.distribute.routes.js:30-43 | summing each user's eligible share gives the preview's total |
| ProfitDistribute.DistributeConservesMoney | src/routes/admin/profit/profit.distribute.routes.js:83-90 | a commit raises the profit sum by exactly the reported total and leaves the investment sum |
| ProfitDistribute.ValidAfterCommit | src/routes/admin/profit/profit.distribute.routes.js:48-81 | a distribution by an existing user with payouts to existing users keeps the integrity rules |
| ProfitDistribute.DistributeKeepsValid | src/routes/admin/profit/profit.distribute.routes.js:46-94 | a distribute request, committed or not, keeps the integrity rules |
| History.ByDateDescendingSorts | src/routes/admin/profit/profit.history.routes.js:18 | the ordering is by declared date, latest first, and is a permutation of the table |
| History.Window | src/routes/admin/profit/profit.history.routes.js:15-24 | a negative skip is a 500; otherwise the next `take` records after `skip`, or for a negative take the records that end `skip` before the end |
| History.ProfitHistory | src/routes/admin/profit/profit.history.routes.js:10-31 | success exactly when the skip is not negative; the total counts every distribution; page and size are echoed; the records are the window of the ordering |
| History.DefaultQueryIsFirstPage | src/routes/admin/profit/profit.history.routes.js:10 | without parameters the page is page 1 of size 20 |
| History.PageIsSortedSlice | src/routes/admin/profit/profit.history.routes.js:15-24 | every page holds distributions of the ledger, latest first |
| History.EveryRecordOnItsPage | src/routes/admin/profit/profit.history.routes.js:11-17 | record `k` of the ordering is at position `k % size` of page `k / size + 1` |
| History.TotalIgnoresPaging | src/routes/admin/profit/profit.history.routes.js:13 | the total is the table's size whatever the page |
| Export.CreatorEmail | src/routes/admin/profit/profit.export.routes.js:23 | "undefined" without a creator row, "null" without an e-mail, else the e-mail |
| Export.Rows | src/routes/admin/profit/profit.export.routes.js:22-24 | one line per distribution, in the history ordering |
| Export.ExportCsv | src/routes/admin/profit/profit.export.routes.js:19-24 | the text starts with the header line and ends in a newline |
| Export.HeaderIsTheColumns | src/routes/admin/profit/profit.export.routes.js:19 | the header is one line and splits into the eight column names |
| Export.RowReadsBack | src/routes/admin/profit/profit.export.routes.js:23 | with plain fields a record's line splits back into its eight fields |
| Export.LinesAreLines | src/routes/admin/profit/profit.export.routes.js:19-24 | with plain fields no header or record line holds a newline |
| Export.ExportReadsBack | src/routes/admin/profit/profit.export.routes.js:19-24 | with plain fields the text splits into the header, one line per record with that record's fields in order, and a final empty piece |
| Export.ExportIdsReadBack | src/routes/admin/profit/profit.export.routes.js:23 | the first field of each record line reads back as that record's id, in the model's decimal rendering of ids |
| Export.CommaInEmailAddsAColumn | src/routes/admin/profit/profit.export.routes.js:23 | fields are not quoted: an e-mail with one comma splits its line into nine pieces |
| AdminStats.AggregateSum | src/routes/admin/stats.admin.routes.js:12-20 | a sum aggregate has no value exactly when no row matches |
| AdminStats.Dashboard | src/routes/admin/stats.admin.routes.js:10 | the user count is the size of the user table |
| AdminStats.OrZeroIsTheSum | src/routes/admin/stats.admin.routes.js:47-54 | the fallback to 0 over an aggregate gives the sum of the matching rows, 0 when none match |
| AdminStats.DashboardIsTheSums | src/routes/admin/stats.admin.routes.js:12-32 | approved sums, pending counts and the pool are the sums and counts they name |
| AdminStats.PoolIsTheCalculatorPool | src/routes/admin/stats.admin.routes.js:30-32 | with no negative balance the dashboard pool is the calculator's pool |
| AdminStats.NegativeBalanceSplitsThePools | src/routes/admin/stats.admin.routes.js:30-32 | the dashboard pool has no positivity filter: a negative balance counts there and not in the calculator |
| Conservation.DashboardPoolIsApprovedDeposits | src/routes/admin/stats.admin.routes.js:47-54 | under the investment invariant the dashboard's pool equals its approved-deposit total |
| Conservation.AuthConserves | src/middleware/auth.js:54-62 | creating a user keeps both money invariants |
| Conservation.CreateDepositConserves | src/routes/deposit.routes.js:31-41 | a new pending deposit keeps both invariants |
| Conservation.CreateWithdrawalConserves | src/routes/withdrawal.routes.js:37-55 | the debit moves the amount into the new pending withdrawal |
| Conservation.ApproveDepositConserves | src/routes/admin/deposit.admin.routes.js:39-59 | approval raises the investment sum and the approved-deposit sum alike |
| Conservation.RejectDepositConserves | src/routes/admin/deposit.admin.routes.js:87-94 | rejecting a deposit keeps both invariants |
| Conservation.ApproveWithdrawalConserves | src/routes/admin/withdrawal.admin.routes.js:39-48 | approval keeps the withdrawn amount counted |
| Conservation.RejectWithdrawalConserves | src/routes/admin/withdrawal.admin.routes.js:77-104 | rejection moves the held amount back into the profit balance |
| Conservation.DistributeConserves | src/routes/admin/profit/profit.distribute.routes.js:73-91 | a commit pays out exactly what it adds to the profit balances |
| Conservation.StepKeepsValid | src/routes/admin/profit/profit.distribute.routes.js:46-94 | every writing request (sign-in, deposit and withdrawal creation, deposit and withdrawal review, distribution) keeps the integrity rules, whatever it answers; the cited lines are the distribution's, the largest of them |
| Conservation.StepConserves | src/routes/withdrawal.routes.js:37-44 | every writing request (sign-in, deposit and withdrawal creation, deposit and withdrawal review, distribution) keeps both money invariants, whatever it answers; the cited lines are the withdrawal hold, the step that makes the profit invariant count withdrawals |
| Conservation.RunKeepsInvariants | src/routes/admin/withdrawal.admin.routes.js:96-103 | any sequence of those requests from a valid, conserved ledger ends valid and conserved; the cited lines are the rejection refund, which returns a held withdrawal to the balance |
| Conservation.DashboardBalancesAfterAnyRun | src/routes/admin/stats.admin.routes.js:47-54 | from the empty ledger, the dashboard's pool always equals its approved-deposit total |
| Lifecycle.CreateThenRejectRestoresBalances | src/routes/admin/withdrawal.admin.routes.js:96-103 | creating a withdrawal and then rejecting it restores the user table exactly |
| Lifecycle.CreateThenApproveCreditsTheAmount | src/routes/admin/deposit.admin.routes.js:49-58 | creating a deposit and then approving it raises the caller's investment balance by exactly the amount |
| Lifecycle.ExampleCalculation | src/routes/admin/profit/profit.calculate.routes.js:30-46 | at 0.7 percent two balances of 10000 give a pool of 20000 and shares of 70, 140 in all |
| Lifecycle.ExampleDistribution | src/routes/admin/profit/profit.distribute.routes.js:46-94 | committing that example credits 70 to each client and nothing to the admin |
| Lifecycle.ExampleAsWrittenFails | src/routes/admin/profit/profit.distribute.routes.js:61-70 | the route as written answers the same request with 500 |

## Left out

- Token signatures, issuer and algorithm checks and the key fetch: cryptography and the network. The `verify` parameter stands for all of them.
- The "Authentication failed" 500 of the middleware's catch block, and errors thrown inside `verify` or the user lookup: there is no source of such errors in a pure model.
- The server wiring, the single-row profile route and the audit service's swallowing of its own errors: they hold no ledger rules. An audit write is an append to the trail.
- Concurrency and isolation: the check-then-update races, the non-atomic debit-then-insert of a withdrawal, and concurrent distributions. The model serves one request at a time.
- Decimal precision and rounding, column scale, and the `Number()` float comparison of the withdrawal guard: amounts are exact reals.
- Dates: the `new Date()` stamps (`createdAt` and the approvals' `approvedAt`) are readings of a logical clock that only inserts advance, so an approval shares its reading with the next insert; `declaredDate` is a number, and the dashboard's "today distributed" figure (a filter on today's date) is not modelled.
- HTTP headers of the export, JSON shaping, and the owner's or creator's e-mail that the store joins onto the pending deposit list, the pending withdrawal list and the history rows: `PendingDeposits` and `PendingWithdrawals` return the rows without it.
- Query values that are not numbers (`NaN`) or not integers: the history query takes integers.
- ProfitCalculate.Eligible: the eligible users come in table order, where the calculate and distribute routes read the users with no `orderBy` and the store promises no order. `ProfitDistribute.PayoutsAreThePreview` therefore matches payouts to preview lines position by position only in the model; for the source the match holds up to a reordering.
- History.Window: for a negative `take` it assumes the store reads that many records backwards, ending `skip` records before the end. The order among records with the same declared date is the table order, where the store promises none.
- Export.ExportCsv: how decimals and dates print inside a template literal is a parameter, not fixed digits.
- Ids: every table's id is a natural number drawn from one shared counter, and route parameters arrive as such numbers. The store's key type is set by a schema that is not part of this model, and route parameters, which are strings, are passed to it unconverted; only uniqueness and lookup by id are modelled, and the export writes the model's decimal rendering of an id where the store writes its key.
- Request bodies: amounts and percents are optional numbers and dates optional naturals. JSON strings are not modelled, so three behaviours are out of reach: a string such as `"0"` is truthy and passes the missing-field guard; a non-numeric percent makes the decimal constructor throw (500); a non-numeric amount passes the guards (in a withdrawal the balance comparison against `NaN` is false) and is refused by the store (500).
- New users' balances start at zero: the schema's column defaults are not part of this model and are taken to be zero.
- The reviewer foreign key of deposits and withdrawals is not checked by `Valid`.

## Findings

| source | as written | input that shows it | evidently intended | confidence | as-written member | corrected member |
|---|---|---|---|---|---|---|
| src/routes/admin/profit/profit.distribute.routes.js:65 | the audit call inside the transaction reads `distribution.id`, the constant that the transaction's result initialises, so the read throws; the transaction rolls back and the route answers 500 | any complete request from an existing admin, such as the one in `Lifecycle.ExampleAsWrittenFails` (0.7 percent) | the audit entry names `dist.id`, the row the transaction just created, and the commit succeeds | high; not executed | ProfitDistribute.DistributeAsWritten | ProfitDistribute.Distribute |

`Lifecycle.ExampleAsWrittenFails` shows the as-written route answering 500 for the
example request. `Lifecycle.ExampleDistribution` and
`ProfitDistribute.DistributeConservesMoney` show the corrected route committing it.
`Withdrawals.NegativeAmountRaisesBalance` models, as written, what the withdrawal
guards allow (withdrawal.routes.js:27 and 32 reject only falsy fields and a balance
below the amount): a negative amount passes both and raises the caller's profit balance.
