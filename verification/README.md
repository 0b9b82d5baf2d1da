# finly ledger rules in Dafny

This project models the ledger rules of the finly personal-finance backend (a
Spring Boot service). It covers the services that keep the following in step
as records are created, edited, paid and deleted:

- account balances;
- transactions;
- installment plans;
- budgets;
- savings goals.

It also covers:

- the two transaction queries the dashboard reads;
- the date helpers;
- the mapping from exceptions to HTTP error bodies;
- the Bean Validation constraints of the six request records.

The database becomes one immutable `Ledger` value: a map per table, keyed by
a natural-number id. Every row a user owns carries the owner's id, and every
lookup checks the (id, user) pair, as `findByIdAndUserId` does. Each service
method becomes a pure function. It returns `Ok` with the new ledger (and the
row it wrote), or `Err` with one of three kinds of error:

- `NotFound`: a `ResourceNotFoundException`, HTTP 404;
- `Business`: a `BusinessException`, HTTP 422;
- `Unexpected`: any other exception, HTTP 500.

An error carries no ledger, so a failed call changes nothing. This is the
`@Transactional` rollback.

Money is an integer number of cents: every amount column is `numeric(15,2)`,
scale 2 with 15 digits in all. The model's amounts are unbounded; see
"## Left out" for the columns' upper limit. A percentage is an integer number
of hundredths of a percent.

A few values the source gets from its environment become parameters:

- ids assigned by the database;
- the creation time of a transaction, used as the tie-breaker of the recent list;
- "today" wherever the source calls `LocalDate.now()`.

Modules, one per file:

| file | module | models |
|---|---|---|
| common.dfy | Common | Result/Option, ids, sums over a table, decimal text |
| dates.dfy | Dates | LocalDate, plusMonths, DateUtils |
| percent.dfy | Percent | BigDecimal HALF_UP percentages |
| entities.dfy | Entities | the entities and the ledger |
| requests.dfy | Requests | request records and their constraints |
| accounts.dfy | Accounts | AccountService |
| categories.dfy | Categories | CategoryService |
| budgets.dfy | Budgets | BudgetService |
| goals.dfy | Goals | GoalService |
| balances.dfy | Balances | balance effect of a transaction |
| transactions.dfy | Transactions | TransactionService |
| transaction_repository.dfy | TransactionQueries | the sum and top-5 queries |
| installments.dfy | Installments | InstallmentService |
| dashboard.dfy | Dashboard | DashboardService |
| errors.dfy | ErrorHandling | GlobalExceptionHandler |

Source paths below are relative to the repository root.

### Behaviour of the code worth knowing

- **Installments.** The rounding remainder goes on the *first* installment.
- **Budgets.**
  - `spent` is a stored counter, not a sum recomputed from the
    transactions. Only transaction create raises it; transaction update and
    delete never lower it.
  - A budget is EXCEEDED as soon as `spent >= amount`.
  - No status ever becomes COMPLETED.
- **Goals.**
  - `remaining` goes negative once the target is overshot, and the
    percentage is not capped at 100 %.
  - A deposit takes any amount, zero or negative included.
  - A goal created with its target already met starts IN_PROGRESS.
- **Transaction update.**
  - Any status can change to any other.
  - The transfer validation of create is not repeated.
  - A COMPLETED TRANSFER without a destination reaches a null dereference in
    `updateDestinationAccountBalance`. The model returns `Err(Unexpected)`
    (a 500 with rollback) instead of ruling the input out with a
    precondition.
- **Request sizes.** `@Size` measures `String.length()`, which counts UTF-16
  code units: a character outside the Basic Multilingual Plane (an emoji,
  say) counts as two.

## Model

| member | source | states |
|---|---|---|
| Accounts.GetAccount | backend/src/main/java/com/vitorsaucedo/finly/domain/account/AccountService.java:69-72 | found exactly when the id exists and belongs to the user; otherwise "Account not found" |
| Accounts.Create | backend/src/main/java/com/vitorsaucedo/finly/domain/account/AccountService.java:36-47 | the new account keeps the requested opening balance, name, type and currency, is found by its owner afterwards, and no other table or account changes |
| Accounts.Update | backend/src/main/java/com/vitorsaucedo/finly/domain/account/AccountService.java:49-59 | name, type and currency change and the balance is kept; an unknown id fails with "Account not found" |
| Accounts.Delete | backend/src/main/java/com/vitorsaucedo/finly/domain/account/AccountService.java:61-67 | removes exactly that account and leaves the others as they were; an unknown id fails with "Account not found"; an account a transaction or an installment group still points at fails unexpectedly (the foreign key refuses it) |
| Accounts.FindAll | backend/src/main/java/com/vitorsaucedo/finly/domain/account/AccountService.java:22-27 | lists only the user's accounts, and every one of them |
| Accounts.UpdateKeepsTotalBalance | backend/src/main/java/com/vitorsaucedo/finly/domain/account/AccountService.java:49-59 | editing an account leaves every user's total balance unchanged |
| Accounts.CreateAddsOpeningBalance | backend/src/main/java/com/vitorsaucedo/finly/domain/account/AccountService.java:36-47 | a new account raises its owner's total by its opening balance |
| Accounts.TotalBalance | backend/src/main/java/com/vitorsaucedo/finly/domain/dashboard/DashboardService.java:34-37 | 0 for a user with no accounts; never negative when none of the user's balances is |
| Categories.GetCategory | backend/src/main/java/com/vitorsaucedo/finly/domain/category/CategoryService.java:80-83 | found exactly when the id exists and belongs to the user (a category without an owner is never found); otherwise "Category not found" |
| Categories.FindAll | backend/src/main/java/com/vitorsaucedo/finly/domain/category/CategoryRepository.java:16-17 | lists the user's categories and every default one, and nothing else |
| Categories.FindAllAgreesWithGetCategory | backend/src/main/java/com/vitorsaucedo/finly/domain/category/CategoryService.java:22-35 | the list holds every category the user can look up, and anything listed that cannot be looked up is someone else's default |
| Categories.Create | backend/src/main/java/com/vitorsaucedo/finly/domain/category/CategoryService.java:37-49 | a created category is never a default one, carries the requested fields, and is found by its owner afterwards |
| Categories.Update | backend/src/main/java/com/vitorsaucedo/finly/domain/category/CategoryService.java:51-66 | a default category is refused with "Default categories cannot be edited"; otherwise exactly name, type, colour and icon change, and isDefault is kept |
| Categories.Delete | backend/src/main/java/com/vitorsaucedo/finly/domain/category/CategoryService.java:68-78 | an unknown id fails with "Category not found"; a default category is refused with "Default categories cannot be deleted"; one a transaction, budget or installment group still points at fails unexpectedly (the foreign key refuses it); otherwise exactly that category is removed |
| Categories.DefaultCategoriesAreProtected | backend/src/main/java/com/vitorsaucedo/finly/domain/category/CategoryService.java:56-75 | after any successful update or delete, every default category is still there, unchanged |
| Budgets.GetBudget | backend/src/main/java/com/vitorsaucedo/finly/domain/budget/BudgetService.java:34-39 | found exactly when the id exists and belongs to the user; otherwise "Budget not found" |
| Budgets.View | backend/src/main/java/com/vitorsaucedo/finly/domain/budget/BudgetService.java:89-96 | remaining plus spent is the limit (so remaining may be negative); the percentage is 0 for a non-positive limit, otherwise the nearest value in hundredths of a percent to spent / amount, with halves rounded away from zero, for spent of either sign |
| Budgets.FindById | backend/src/main/java/com/vitorsaucedo/finly/domain/budget/BudgetService.java:34-39 | the view of the user's budget, or "Budget not found" |
| Budgets.FindAllByMonthAndYear | backend/src/main/java/com/vitorsaucedo/finly/domain/budget/BudgetService.java:26-32 | lists only, and all of, the user's budgets of that month and year |
| Budgets.Create | backend/src/main/java/com/vitorsaucedo/finly/domain/budget/BudgetService.java:41-59 | a second budget for the same category and period is refused before the category is looked up; a new budget has spent 0 and is ACTIVE |
| Budgets.CreatePreservesUniquePeriods | backend/src/main/java/com/vitorsaucedo/finly/domain/budget/BudgetService.java:43-46 | create keeps at most one budget per (user, category, month, year) |
| Budgets.NewBudgetShowsNothingUsed | backend/src/main/java/com/vitorsaucedo/finly/domain/budget/BudgetService.java:48-58 | a new budget shows 0 % used and its whole limit remaining |
| Budgets.Update | backend/src/main/java/com/vitorsaucedo/finly/domain/budget/BudgetService.java:61-68 | only the limit changes: period, spent and status are kept, and the status is not recomputed |
| Budgets.UpdatePreservesUniquePeriods | backend/src/main/java/com/vitorsaucedo/finly/domain/budget/BudgetService.java:61-68 | update keeps the one-budget-per-period rule |
| Budgets.Delete | backend/src/main/java/com/vitorsaucedo/finly/domain/budget/BudgetService.java:70-76 | removes exactly that budget; an unknown id fails with "Budget not found" |
| Budgets.Spend | backend/src/main/java/com/vitorsaucedo/finly/domain/budget/BudgetService.java:81-85 | spent grows by the amount; the status is EXCEEDED exactly when spent has reached the limit, ACTIVE otherwise |
| Budgets.UpdateSpent | backend/src/main/java/com/vitorsaucedo/finly/domain/budget/BudgetService.java:78-87 | only the budget of that user, category and period changes; with no such budget nothing changes |
| Budgets.UpdateSpentPreservesUniquePeriods | backend/src/main/java/com/vitorsaucedo/finly/domain/budget/BudgetService.java:78-87 | raising spent keeps the one-budget-per-period rule |
| Budgets.UpdateSpentAccumulates | backend/src/main/java/com/vitorsaucedo/finly/domain/budget/BudgetService.java:78-87 | two expenses weigh on the budgets exactly as one expense of their sum |
| Budgets.UpdateSpentTouchesAtMostOne | backend/src/main/java/com/vitorsaucedo/finly/domain/budget/BudgetService.java:80-86 | under the unique constraint an expense changes at most one budget |
| Budgets.ExceededShowsFullPercent | backend/src/main/java/com/vitorsaucedo/finly/domain/budget/BudgetService.java:83-96 | a budget whose spent has reached its limit shows at least 100 % used and nothing remaining |
| Budgets.NearlySpentShowsFullPercent | backend/src/main/java/com/vitorsaucedo/finly/domain/budget/BudgetService.java:83-96 | the converse fails: 999.99 spent of 1000.00 is ACTIVE yet shows 100.00 % |
| Budgets.TestedSpending | backend/src/test/java/com/vitorsaucedo/finly/domain/budget/BudgetServiceTest.java:95-137 | 450 + 100 of 500 is EXCEEDED; 100 + 50 of 500 is ACTIVE at 150 |
| Goals.GetGoal | backend/src/main/java/com/vitorsaucedo/finly/domain/goal/GoalService.java:32-37 | found exactly when the id exists and belongs to the user; otherwise "Goal not found" |
| Goals.View | backend/src/main/java/com/vitorsaucedo/finly/domain/goal/GoalService.java:97-104 | remaining plus current is the target (negative once the target is overshot); the percentage is 0 for a non-positive target, otherwise the nearest value in hundredths of a percent to current / target, halves away from zero, uncapped, and negative for a negative current amount |
| Goals.FindById | backend/src/main/java/com/vitorsaucedo/finly/domain/goal/GoalService.java:32-37 | the view of the user's goal, or "Goal not found" |
| Goals.FindAll | backend/src/main/java/com/vitorsaucedo/finly/domain/goal/GoalService.java:24-30 | lists only, and all of, the user's goals |
| Goals.Create | backend/src/main/java/com/vitorsaucedo/finly/domain/goal/GoalService.java:39-52 | a new goal is IN_PROGRESS even if already reached, and a missing current amount starts at 0 |
| Goals.Update | backend/src/main/java/com/vitorsaucedo/finly/domain/goal/GoalService.java:54-69 | a COMPLETED goal is refused with "Completed goals cannot be edited"; otherwise name, target, deadline and notes change while current amount and status are kept |
| Goals.AddAmount | backend/src/main/java/com/vitorsaucedo/finly/domain/goal/GoalService.java:71-87 | only an IN_PROGRESS goal takes a deposit, added uncapped; the goal is COMPLETED exactly when the new amount reaches the target |
| Goals.Delete | backend/src/main/java/com/vitorsaucedo/finly/domain/goal/GoalService.java:89-95 | removes exactly that goal; an unknown id fails with "Goal not found" |
| Goals.StatusStaysInProgressOrCompleted | backend/src/main/java/com/vitorsaucedo/finly/domain/goal/GoalService.java:39-95 | over any sequence of service calls, no goal ever becomes CANCELLED |
| Goals.StepKeepsNoneCancelled | backend/src/main/java/com/vitorsaucedo/finly/domain/goal/GoalService.java:39-95 | no single call makes a goal CANCELLED |
| Goals.CompletedGoalsAreFrozen | backend/src/main/java/com/vitorsaucedo/finly/domain/goal/GoalService.java:59-78 | apart from deletion, no call changes a COMPLETED goal |
| Goals.TestedGoals | backend/src/test/java/com/vitorsaucedo/finly/domain/goal/GoalServiceTest.java:48-88 | 900 + 100 of 1000 completes the goal; 1000 of 10000 shows 10.00 % |
| Balances.Credit | backend/src/main/java/com/vitorsaucedo/finly/domain/transaction/TransactionService.java:138-156 | only the named account's balance moves, by the delta; nothing else changes |
| Balances.Effect | backend/src/main/java/com/vitorsaucedo/finly/domain/transaction/TransactionService.java:138-177 | only the transaction's own account and its destination can move; nothing moves unless COMPLETED; a completed income adds its amount to its account and an expense takes it away |
| Balances.Apply | backend/src/main/java/com/vitorsaucedo/finly/domain/transaction/TransactionService.java:138-156 | every account moves by the transaction's effect (COMPLETED only: income adds, expense and transfer subtract, a transfer credits its destination); a completed transfer without a destination fails as unexpected |
| Balances.Reverse | backend/src/main/java/com/vitorsaucedo/finly/domain/transaction/TransactionService.java:158-177 | every account moves back by the transaction's effect |
| Balances.NotCompletedMovesNothing | backend/src/main/java/com/vitorsaucedo/finly/domain/transaction/TransactionService.java:139-159 | a transaction that is not COMPLETED moves no balance either way |
| Balances.ReverseUndoesApply | backend/src/main/java/com/vitorsaucedo/finly/domain/transaction/TransactionService.java:138-177 | reversing an applied transaction restores every balance |
| Balances.ApplyUndoesReverse | backend/src/main/java/com/vitorsaucedo/finly/domain/transaction/TransactionService.java:138-177 | applying a reversed transaction restores every balance |
| Balances.CreditTotal | backend/src/main/java/com/vitorsaucedo/finly/domain/transaction/TransactionService.java:142-154 | a credit changes its owner's total by the delta and no other user's |
| Balances.MoveConservesTotalBalance | backend/src/main/java/com/vitorsaucedo/finly/domain/transaction/TransactionService.java:144-154 | moving money between two accounts of one owner leaves every user's total unchanged |
| Balances.TransferConservesTotalBalance | backend/src/main/java/com/vitorsaucedo/finly/domain/transaction/TransactionService.java:138-156 | applying a transfer between two accounts of one owner leaves every user's total unchanged |
| Balances.ReversedTransferConservesTotalBalance | backend/src/main/java/com/vitorsaucedo/finly/domain/transaction/TransactionService.java:158-177 | reversing such a transfer leaves every user's total unchanged |
| Balances.ReverseOfTransferTotal | backend/src/main/java/com/vitorsaucedo/finly/domain/transaction/TransactionService.java:163-176 | reversing a completed transfer moves the same totals as crediting the source and debiting the destination |
| Balances.TransferEffectsCancel | backend/src/main/java/com/vitorsaucedo/finly/domain/transaction/TransactionService.java:138-156 | a transfer between two different accounts takes from the source exactly what it gives the destination |
| Balances.TestedBalances | backend/src/test/java/com/vitorsaucedo/finly/domain/transaction/TransactionServiceTest.java:79-187 | 1000 + 3000 income is 4000; 1000 - 50 expense is 950; a pending one leaves 1000 |
| Transactions.GetTransaction | backend/src/main/java/com/vitorsaucedo/finly/domain/transaction/TransactionService.java:179-182 | found exactly when the id exists and belongs to the user; otherwise "Transaction not found" |
| Transactions.FindAll | backend/src/main/java/com/vitorsaucedo/finly/domain/transaction/TransactionService.java:33-37 | lists only, and all of, the user's transactions |
| Transactions.ValidateTransfer | backend/src/main/java/com/vitorsaucedo/finly/domain/transaction/TransactionService.java:127-136 | a transfer passes exactly when it has a destination other than its source, with the two messages in that order |
| Transactions.CheckCategory | backend/src/main/java/com/vitorsaucedo/finly/domain/transaction/TransactionService.java:55-56 | an optional category is absent or one of the user's |
| Transactions.CheckDestination | backend/src/main/java/com/vitorsaucedo/finly/domain/transaction/TransactionService.java:57-58 | an optional destination is absent or one of the user's accounts |
| Transactions.CheckReferences | backend/src/main/java/com/vitorsaucedo/finly/domain/transaction/TransactionService.java:50-58 | the account, the category and the destination are checked in that order; an account error wins |
| Transactions.Fill | backend/src/main/java/com/vitorsaucedo/finly/domain/transaction/TransactionService.java:97-107 | every field comes from the request except the owner and the creation time |
| Transactions.RequestOf | backend/src/main/java/com/vitorsaucedo/finly/domain/transaction/TransactionService.java:97-107 | the request built from a transaction writes that transaction back unchanged |
| Transactions.Create | backend/src/main/java/com/vitorsaucedo/finly/domain/transaction/TransactionService.java:46-88 | transfer validation runs before any lookup; on success every balance moves by the transaction's effect, the row is added, and only a COMPLETED EXPENSE with a category raises its budget |
| Transactions.Update | backend/src/main/java/com/vitorsaucedo/finly/domain/transaction/TransactionService.java:90-116 | every balance is the old one minus the old effect plus the new effect; the row is rewritten from the request; budgets are not touched |
| Transactions.Delete | backend/src/main/java/com/vitorsaucedo/finly/domain/transaction/TransactionService.java:118-125 | every balance moves back by the transaction's effect and exactly that row goes; an unknown id fails with "Transaction not found"; a transaction an installment is linked to fails unexpectedly (the foreign key refuses it) |
| Transactions.PendingMovesNoMoney | backend/src/main/java/com/vitorsaucedo/finly/domain/transaction/TransactionService.java:139-159 | create, update and delete of transactions that are not COMPLETED leave every balance unchanged |
| Transactions.CreateThenDeleteRestoresBalances | backend/src/main/java/com/vitorsaucedo/finly/domain/transaction/TransactionService.java:118-177 | creating then deleting a transaction restores every balance and the transaction table, but not the budgets; the delete succeeds exactly when no installment is linked to the new id |
| Transactions.UpdateWithSameFieldsChangesNothing | backend/src/main/java/com/vitorsaucedo/finly/domain/transaction/TransactionService.java:95-113 | updating a transaction with its own fields leaves the whole ledger as it was |
| Transactions.CompletingLaterMovesTheSameMoney | backend/src/main/java/com/vitorsaucedo/finly/domain/transaction/TransactionService.java:90-116 | creating PENDING then updating to COMPLETED moves the same money and stores the same row as creating COMPLETED |
| Transactions.CreateTransferConservesTotalBalance | backend/src/main/java/com/vitorsaucedo/finly/domain/transaction/TransactionService.java:67-71 | a created transfer leaves the user's total balance unchanged |
| Transactions.OnlyCreateTouchesBudgets | backend/src/main/java/com/vitorsaucedo/finly/domain/transaction/TransactionService.java:90-125 | update and delete never change a budget |
| TransactionQueries.SumOfOneMore | backend/src/main/java/com/vitorsaucedo/finly/domain/transaction/TransactionRepository.java:24-32 | one more row raises the sum by its amount exactly when it is the user's COMPLETED transaction of that type, month and year |
| TransactionQueries.MonthlySum | backend/src/main/java/com/vitorsaucedo/finly/domain/transaction/TransactionRepository.java:24-32 | 0 when no row is selected, never null; never negative when no selected amount is |
| TransactionQueries.EmptySumIsZero | backend/src/main/java/com/vitorsaucedo/finly/domain/transaction/TransactionRepository.java:25 | with no selected rows the sum is 0 |
| TransactionQueries.TransfersAreNeitherIncomeNorExpense | backend/src/main/java/com/vitorsaucedo/finly/domain/transaction/TransactionRepository.java:27 | a transfer changes neither the income nor the expense sum |
| TransactionQueries.DateKeyOrdersLikeTheCalendar | backend/src/main/java/com/vitorsaucedo/finly/domain/transaction/TransactionRepository.java:37 | the numeric date key orders dates as the calendar does |
| TransactionQueries.Insert | backend/src/main/java/com/vitorsaucedo/finly/domain/transaction/TransactionRepository.java:37 | insertion adds exactly the one id to the list |
| TransactionQueries.InsertKeepsNewestFirst | backend/src/main/java/com/vitorsaucedo/finly/domain/transaction/TransactionRepository.java:37 | inserting into a newest-first list keeps it newest first |
| TransactionQueries.SortNewestFirst | backend/src/main/java/com/vitorsaucedo/finly/domain/transaction/TransactionRepository.java:37 | the sort is a permutation ordered by date, then creation time, descending |
| TransactionQueries.UserIds | backend/src/main/java/com/vitorsaucedo/finly/domain/transaction/TransactionRepository.java:36 | lists each of the user's transactions exactly once |
| TransactionQueries.RecentIds | backend/src/main/java/com/vitorsaucedo/finly/domain/transaction/TransactionRepository.java:34-40 | at most five of the user's transactions, newest first |
| TransactionQueries.Recent | backend/src/main/java/com/vitorsaucedo/finly/domain/transaction/TransactionRepository.java:34-40 | the rows of the selected ids, in the same order: at most five, all the user's, each no older than the next |
| TransactionQueries.RecentHasFive | backend/src/main/java/com/vitorsaucedo/finly/domain/transaction/TransactionRepository.java:38 | five rows, or all of them when the user has fewer |
| TransactionQueries.RecentHasNoRepeats | backend/src/main/java/com/vitorsaucedo/finly/domain/transaction/TransactionRepository.java:34-40 | no transaction is listed twice |
| TransactionQueries.RecentIsTopFive | backend/src/main/java/com/vitorsaucedo/finly/domain/transaction/TransactionRepository.java:34-40 | every transaction of the user left out is no newer than any listed one |
| Installments.DivideDown | backend/src/main/java/com/vitorsaucedo/finly/domain/installment/InstallmentService.java:125-126 | the quotient truncated towards zero |
| Installments.BaseAmount | backend/src/main/java/com/vitorsaucedo/finly/domain/installment/InstallmentService.java:125-126 | the largest whole-cent amount whose count-fold does not exceed a non-negative total (the mirror image for a negative one) |
| Installments.Remainder | backend/src/main/java/com/vitorsaucedo/finly/domain/installment/InstallmentService.java:128-129 | base times count plus the remainder is the total; for a positive total the remainder lies in [0, count) |
| Installments.Generate | backend/src/main/java/com/vitorsaucedo/finly/domain/installment/InstallmentService.java:122-144 | count installments numbered 1..count, installment k due k - 1 months after the start, all PENDING and unlinked; the first is base plus remainder and the others are base |
| Installments.GeneratedAmountsSumToTotal | backend/src/main/java/com/vitorsaucedo/finly/domain/installment/InstallmentService.java:125-132 | the installment amounts add up to the total exactly |
| Installments.AmountSumOfEqualParts | backend/src/main/java/com/vitorsaucedo/finly/domain/installment/InstallmentService.java:132 | n equal installments sum to n times their amount |
| Installments.FindAll | backend/src/main/java/com/vitorsaucedo/finly/domain/installment/InstallmentService.java:39-43 | lists only, and all of, the user's groups |
| Installments.GetGroup | backend/src/main/java/com/vitorsaucedo/finly/domain/installment/InstallmentService.java:45-50 | found exactly when the group exists and belongs to the user; otherwise "Installment group not found" |
| Installments.GetInstallment | backend/src/main/java/com/vitorsaucedo/finly/domain/installment/InstallmentService.java:77-78 | found exactly when it lies in one of the user's groups; otherwise "Installment not found" |
| Installments.Create | backend/src/main/java/com/vitorsaucedo/finly/domain/installment/InstallmentService.java:52-73 | the account, then the category, must be the user's; a count of zero fails as unexpected; otherwise the group carries the requested fields and the generated plan |
| Installments.PaymentRequest | backend/src/main/java/com/vitorsaucedo/finly/domain/installment/InstallmentService.java:90-100 | the expense request built for a payment: a COMPLETED EXPENSE on the group's account and category, for the installment's amount, dated today, described as "description (n/count)", with no destination or notes |
| Installments.PaymentDescription | backend/src/main/java/com/vitorsaucedo/finly/domain/installment/InstallmentService.java:94 | the group's description, then " (", the installment number, "/", the installment count, and a closing ")" |
| Installments.PaymentDescriptionsDiffer | backend/src/main/java/com/vitorsaucedo/finly/domain/installment/InstallmentService.java:94 | two installments with different numbers are paid by expenses with different descriptions |
| Installments.Pay | backend/src/main/java/com/vitorsaucedo/finly/domain/installment/InstallmentService.java:75-108 | "Installment already paid" and "Installment is cancelled" guard the step; a PENDING installment succeeds exactly when the expense is created, becomes COMPLETED and links it, and the expense is a COMPLETED EXPENSE for its amount, account, category, "description (n/count)" and today |
| Installments.PayDebitsTheAccount | backend/src/main/java/com/vitorsaucedo/finly/domain/installment/InstallmentService.java:88-107 | paying debits the group's account by the installment amount, moves no other balance, and changes no other installment or group |
| Installments.PayRecordsTheExpense | backend/src/main/java/com/vitorsaucedo/finly/domain/installment/InstallmentService.java:90-102 | the payment goes through transaction create: it adds exactly the one expense, raises the budget of the group's category for the month of payment (none without a category), and leaves goals and categories unchanged |
| Installments.CancelPending | backend/src/main/java/com/vitorsaucedo/finly/domain/installment/InstallmentService.java:115-117 | PENDING becomes CANCELLED; paid and cancelled installments are kept |
| Installments.Cancel | backend/src/main/java/com/vitorsaucedo/finly/domain/installment/InstallmentService.java:110-120 | only that group's pending installments change; an unknown group fails with "Installment group not found" |
| Installments.CancelIsIdempotent | backend/src/main/java/com/vitorsaucedo/finly/domain/installment/InstallmentService.java:110-120 | cancelling twice is cancelling once |
| Installments.PaidCount | backend/src/main/java/com/vitorsaucedo/finly/domain/installment/InstallmentService.java:149-151 | the paid count never exceeds the number of installments |
| Installments.PaidCountDependsOnStatusOnly | backend/src/main/java/com/vitorsaucedo/finly/domain/installment/InstallmentService.java:149-151 | lists that agree on which entries are COMPLETED have the same paid count |
| Installments.NothingPaidAtFirst | backend/src/main/java/com/vitorsaucedo/finly/domain/installment/InstallmentService.java:139-151 | an all-PENDING list has paid count 0 |
| Installments.CreatedPlanHasNothingPaid | backend/src/main/java/com/vitorsaucedo/finly/domain/installment/InstallmentService.java:52-73 | a new plan has nothing paid |
| Installments.CancelKeepsPaidCount | backend/src/main/java/com/vitorsaucedo/finly/domain/installment/InstallmentService.java:110-120 | cancelling does not change the paid count |
| Installments.PayingOneCountsOne | backend/src/main/java/com/vitorsaucedo/finly/domain/installment/InstallmentService.java:104-151 | completing one unpaid entry raises the paid count by one |
| Installments.PayCountsOnePayment | backend/src/main/java/com/vitorsaucedo/finly/domain/installment/InstallmentService.java:75-108 | each successful payment raises the group's paid count by exactly one |
| Installments.SplitOfOneHundredInThree | backend/src/main/java/com/vitorsaucedo/finly/domain/installment/InstallmentService.java:125-132 | 100.00 in three is 33.34, 33.33, 33.33 |
| Dashboard.GetDashboard | backend/src/main/java/com/vitorsaucedo/finly/domain/dashboard/DashboardService.java:28-78 | total balance is the sum of the user's balances; income and expenses are the month's sums, and net is their difference; accounts, budgets of the month and goals are exactly the user's; at most five recent transactions, all the user's |
| Dashboard.RecentOnTheDashboard | backend/src/main/java/com/vitorsaucedo/finly/domain/dashboard/DashboardService.java:47-66 | five of the user's transactions (all when fewer), newest first, and none left out is newer than one shown |
| Dashboard.NothingNewerIsLeftOut | backend/src/main/java/com/vitorsaucedo/finly/domain/transaction/TransactionRepository.java:34-40 | no transaction of the user missing from the recent rows is newer than a listed one |
| Dashboard.NewUserSeesZeros | backend/src/main/java/com/vitorsaucedo/finly/domain/dashboard/DashboardService.java:34-45 | a user with no accounts and no transactions sees 0 totals and empty lists, never null |
| Dashboard.IncomeShowsOnTheDashboard | backend/src/main/java/com/vitorsaucedo/finly/domain/dashboard/DashboardService.java:34-45 | a completed income this month raises income, net and total balance by its amount and leaves expenses alone |
| Dates.MonthLength | backend/src/main/java/com/vitorsaucedo/finly/util/DateUtils.java:28-32 | 28 to 31 days; February has 29 exactly in Gregorian leap years; the other months have 31 exactly when they are the long months |
| Dates.BeforeIsStrictTotalOrder | backend/src/main/java/com/vitorsaucedo/finly/util/DateUtils.java:41 | isBefore is a strict total order |
| Dates.PlusMonths | backend/src/main/java/com/vitorsaucedo/finly/domain/installment/InstallmentService.java:138 | advances the year-month by n and clamps the day to the month reached |
| Dates.PlusMonthsCompose | backend/src/main/java/com/vitorsaucedo/finly/domain/installment/InstallmentService.java:138 | for days up to 28, stepping a then b months is stepping a + b months |
| Dates.FirstDayOfMonth | backend/src/main/java/com/vitorsaucedo/finly/util/DateUtils.java:24-26 | day 1 of that month and year; a month outside 1..12 fails |
| Dates.LastDayOfMonth | backend/src/main/java/com/vitorsaucedo/finly/util/DateUtils.java:28-32 | the last valid day of that month and year; a month outside 1..12 fails |
| Dates.FirstAndLastBracketTheMonth | backend/src/main/java/com/vitorsaucedo/finly/util/DateUtils.java:24-32 | the first day is not after the last, and a date is in the month exactly when it lies between them |
| Dates.IsCurrentMonth | backend/src/main/java/com/vitorsaucedo/finly/util/DateUtils.java:34-37 | for a real month, today is in it exactly when it lies between that month's first and last day; a month outside 1..12 is never current, and a current month is in today's year |
| Dates.IsOverdue | backend/src/main/java/com/vitorsaucedo/finly/util/DateUtils.java:39-42 | a missing due date is never overdue; otherwise overdue means strictly before today |
| Dates.Pad2 | backend/src/main/java/com/vitorsaucedo/finly/util/DateUtils.java:9 | two digits whose decimal value is the number |
| Dates.Pad4 | backend/src/main/java/com/vitorsaucedo/finly/util/DateUtils.java:9 | four digits whose decimal value is the number |
| Dates.YearText | backend/src/main/java/com/vitorsaucedo/finly/util/DateUtils.java:9 | the year of era, padded to four digits or written in full after a '+' |
| Dates.FormatDate | backend/src/main/java/com/vitorsaucedo/finly/util/DateUtils.java:14-17 | null formats to null; otherwise the text has the shape dd/MM/yyyy |
| Dates.FormatDateRoundTrip | backend/src/main/java/com/vitorsaucedo/finly/util/DateUtils.java:9-17 | for years 1 to 9999, parsing the formatted text gives the date back |
| Dates.FormatDateTime | backend/src/main/java/com/vitorsaucedo/finly/util/DateUtils.java:10-22 | null formats to null; otherwise the formatted date, a space, and HH:mm |
| Dates.FormatDateTimeRoundTrip | backend/src/main/java/com/vitorsaucedo/finly/util/DateUtils.java:10-22 | for years 1 to 9999, parsing the formatted text gives the date, hour and minute back |
| Percent.RoundHalfUpDiv | backend/src/main/java/com/vitorsaucedo/finly/domain/budget/BudgetService.java:93 | the quotient is within half a unit of n / d, with halves rounded away from zero |
| Percent.RoundHalfUpDivUnique | backend/src/main/java/com/vitorsaucedo/finly/domain/budget/BudgetService.java:93 | no other integer meets those rounding bounds |
| Percent.PercentHundredths | backend/src/main/java/com/vitorsaucedo/finly/domain/budget/BudgetService.java:91-96 | 0 for a non-positive whole; otherwise the HALF_UP ratio in hundredths of a percent, uncapped, within half a unit of part / whole for a part of either sign |
| Percent.PercentOfMultiple | backend/src/main/java/com/vitorsaucedo/finly/domain/goal/GoalService.java:99-104 | k times the whole is exactly k hundred percent, so the value is not capped |
| Percent.PercentMonotonic | backend/src/main/java/com/vitorsaucedo/finly/domain/goal/GoalService.java:99-104 | the percentage never falls as the part grows |
| Requests.TransactionViolations | backend/src/main/java/com/vitorsaucedo/finly/dto/request/TransactionRequest.java:14-41 | accountId, type, status and date are reported exactly when null; the description exactly when null or blank, and as too long exactly when over 255 UTF-16 units; the amount exactly when null, and as not positive exactly when at most 0 |
| Requests.TransactionViolationsEmptyIffValid | backend/src/main/java/com/vitorsaucedo/finly/dto/request/TransactionRequest.java:14-41 | no violation exactly when accountId, type, status and date are present, the description is non-blank and at most 255 UTF-16 code units, and the amount is present and positive |
| Requests.InstallmentViolations | backend/src/main/java/com/vitorsaucedo/finly/dto/request/InstallmentRequest.java:9-33 | account, total, count and start date are reported exactly when null; the description exactly when null or blank, or over 255 UTF-16 units; the total when at most 0; the count when below 2 or above 360 |
| Requests.InstallmentViolationsEmptyIffValid | backend/src/main/java/com/vitorsaucedo/finly/dto/request/InstallmentRequest.java:9-33 | no violation exactly when account and start date are present, the description is non-blank and at most 255 UTF-16 code units, the total is positive and the count lies in [2, 360] |
| Requests.BudgetViolations | backend/src/main/java/com/vitorsaucedo/finly/dto/request/BudgetRequest.java:8-25 | category, amount, month and year are reported exactly when null; the amount when at most 0; the month when below 1 or above 12; the year when before 2000 |
| Requests.BudgetViolationsEmptyIffValid | backend/src/main/java/com/vitorsaucedo/finly/dto/request/BudgetRequest.java:8-25 | no violation exactly when the category is present, the amount is positive, the month lies in [1, 12] and the year is at least 2000 |
| Requests.GoalViolations | backend/src/main/java/com/vitorsaucedo/finly/dto/request/GoalRequest.java:11-28 | the name is reported exactly when null or blank, or over 100 UTF-16 units; target and current amount exactly when null, or when at most 0 |
| Requests.GoalViolationsEmptyIffValid | backend/src/main/java/com/vitorsaucedo/finly/dto/request/GoalRequest.java:11-28 | no violation exactly when the name is non-blank and at most 100 UTF-16 code units and both target and current amount are present and positive |
| Requests.AccountViolations | backend/src/main/java/com/vitorsaucedo/finly/dto/request/AccountRequest.java:11-27 | the name exactly when null or blank, or over 100 UTF-16 units; type and balance exactly when null; a negative balance; the currency exactly when null or blank, or not 3 UTF-16 units long |
| Requests.AccountViolationsEmptyIffValid | backend/src/main/java/com/vitorsaucedo/finly/dto/request/AccountRequest.java:11-27 | no violation exactly when the name is non-blank and at most 100 UTF-16 code units, the type is present, the balance is present and not negative, and the currency is non-blank and exactly 3 UTF-16 code units |
| Requests.CategoryViolations | backend/src/main/java/com/vitorsaucedo/finly/dto/request/CategoryRequest.java:9-23 | the name exactly when null or blank, or over 100 UTF-16 units; the type exactly when null; a colour that is present and not '#' plus six hex digits; an icon over 50 UTF-16 units |
| Requests.CategoryViolationsEmptyIffValid | backend/src/main/java/com/vitorsaucedo/finly/dto/request/CategoryRequest.java:9-23 | no violation exactly when the name is non-blank and at most 100 UTF-16 code units, the type is present, the colour is absent or '#' and six hex digits, and the icon is absent or at most 50 UTF-16 code units |
| Requests.Utf16Length | backend/src/main/java/com/vitorsaucedo/finly/dto/request/CategoryRequest.java:21-22 | what @Size measures: between one and two units per character; one unit for a single character of the Basic Multilingual Plane and two for one beyond it |
| Requests.Utf16LengthAdds | backend/src/main/java/com/vitorsaucedo/finly/dto/request/CategoryRequest.java:21-22 | the length of a concatenation is the sum of the lengths, so every string counts one unit per BMP character and two per character beyond |
| Requests.SupplementaryCharactersCountTwice | backend/src/main/java/com/vitorsaucedo/finly/dto/request/CategoryRequest.java:21-22 | 26 emoji are too long for a 50-unit icon, while an emoji and a letter make a valid 3-unit currency |
| Requests.ValidIsComplete | backend/src/main/java/com/vitorsaucedo/finly/dto/request/TransactionRequest.java:16-38 | a valid request of every kind has the fields its service reads without a null check |
| Requests.ValidRequestsAvoidServiceFallbacks | backend/src/main/java/com/vitorsaucedo/finly/dto/request/GoalRequest.java:21-23 | a valid goal request has a positive current amount, so the service's zero default is never used; a valid installment request has 2 to 360 installments |
| Requests.AbsentColourAndIconAreValid | backend/src/main/java/com/vitorsaucedo/finly/dto/request/CategoryRequest.java:18-22 | the optional colour and icon constraints accept null |
| ErrorHandling.FromError | backend/src/main/java/com/vitorsaucedo/finly/exception/GlobalExceptionHandler.java:17-56 | each service error kind is raised as the matching exception, keeping its message |
| ErrorHandling.FromViolations | backend/src/main/java/com/vitorsaucedo/finly/exception/GlobalExceptionHandler.java:40-44 | one field error per violation, in order |
| ErrorHandling.Handle | backend/src/main/java/com/vitorsaucedo/finly/exception/GlobalExceptionHandler.java:17-60 | 404 "Not Found", 422 "Business Error" with the exception's message; 401 and 500 with fixed messages; 400 with the field errors; fields only for validation |
| ErrorHandling.StatusIdentifiesTheKind | backend/src/main/java/com/vitorsaucedo/finly/exception/GlobalExceptionHandler.java:17-56 | the status code alone tells the kind of failure |
| ErrorHandling.ServiceErrorsAreReported | backend/src/main/java/com/vitorsaucedo/finly/exception/GlobalExceptionHandler.java:17-56 | a not-found or business error reaches the client with its message; an unexpected one is hidden behind the generic message |
| ErrorHandling.ViolationsAreReportedInOrder | backend/src/main/java/com/vitorsaucedo/finly/exception/GlobalExceptionHandler.java:38-49 | a rejected body yields 400 with one field error per violation, in order |

## Left out

- The frontend, the controllers, security and authentication (JWT, RSA keys,
  bcrypt, UserService). These are UI, HTTP routing and cryptography. The
  caller's user id is a parameter.
- JPA mechanics: cascades, lazy loading, audit columns other than a
  transaction's creation time, and the response DTO mapping beyond the
  derived fields. Each service call is one atomic step; there is no
  concurrency model.
- Clock reads and id generation. "Today", the creation time and every new id
  are parameters. A create requires its new id to be unused.
- BigDecimal scale: amounts are whole cents, and inputs with more than two
  decimal places are not modelled. The `double` conversion of the two
  percentages is left out; they stay exact integers in hundredths of a
  percent.
- Referential integrity: a transaction's account always exists when it is
  applied, because create and update look it up first. Balances.Credit on a
  missing account changes nothing. A delete that a foreign key refuses is
  modelled as an unexpected error in Accounts.Delete, Categories.Delete and
  Transactions.Delete; which foreign keys exist is read from the entity
  mappings, since the schema itself is not part of this model.
- Column precision: a `numeric(15,2)` column holds less than 10^13 cents, and
  a larger value fails when the row is written, as an unexpected error with
  a rollback. The model's amounts are unbounded, so none of the operations
  below fails on a value that is too large.
- Goals.AddAmount: a deposit that takes the goal's current amount to 10^13
  cents or more succeeds here; the source fails on the column's precision.
- Budgets.Spend: a spent amount of 10^13 cents or more succeeds here; the
  source fails on the column's precision.
- Budgets.UpdateSpent: inherits the unbounded spent amount of Budgets.Spend.
- Balances.Credit: a balance beyond the account column's precision succeeds
  here; the account entity is not part of this model, so its bound is not
  stated.
- Transactions.FindAll: the paging and sort order of the Pageable are not
  modelled, only which rows are returned.
- Installments.FindAll: the paging of the Pageable is not modelled, only
  which groups are returned.
- Installments.Create: a count of zero is a division by zero in the source.
  The model returns Err(Unexpected) without its message, which the handler
  hides anyway. A negative count gives an empty plan, as the loop does.
- Installments.Pay: the linked transaction is recorded by id. The second
  lookup the source makes (getTransaction right after the create) is the
  row the create just wrote.
- An installment is addressed by its group and its position in the group's
  list rather than by an id of its own.
- Requests.TransactionViolations, Requests.InstallmentViolations,
  Requests.BudgetViolations, Requests.GoalViolations,
  Requests.AccountViolations, Requests.CategoryViolations: violations are
  returned as a set. The order in which Bean Validation reports them is not
  specified. ErrorHandling.FromViolations keeps whatever order it is given.
- Requests.NotBlank: blankness follows String.trim(), which treats every
  character up to U+0020 as blank. Other Unicode whitespace counts as text.
- ErrorHandling.Handle: the timestamp of the error body is left out.
- Dates.FormatDate: the width and shape of the text are stated for years 1
  to 9999, where the round-trip lemma applies. Years outside that range are
  modelled, not characterised.
- Accounts.TotalBalance adds the balances in key order, where the source
  adds them in list order. Integer addition makes the two equal.
