/** DashboardService.getDashboard: the user's month at a glance. The day is
    a parameter standing for LocalDate.now(). */
module Dashboard {
  import opened Common
  import opened Dates
  import opened Entities
  import opened Requests
  import opened Balances
  import Accounts
  import Budgets
  import Goals
  import Transactions
  import TransactionQueries

  /** DashboardResponse. */
  datatype Dashboard = Dashboard(
    totalBalance: Cents,
    totalIncome: Cents,
    totalExpenses: Cents,
    netBalance: Cents,
    accounts: seq<Account>,
    budgets: seq<Budgets.BudgetView>,
    goals: seq<Goals.GoalView>,
    recentTransactions: seq<Transaction>)

  /** DashboardService.getDashboard for the month of `today`. */
  function GetDashboard(s: Ledger, user: UserId, today: LocalDate): (d: Dashboard)
    ensures d.totalBalance == Accounts.TotalBalance(s.accounts, user)
    ensures d.totalIncome == TransactionQueries.MonthlySum(s.transactions, user, Income, today.month, today.year)
    ensures d.totalExpenses == TransactionQueries.MonthlySum(s.transactions, user, Expense, today.month, today.year)
    ensures d.netBalance + d.totalExpenses == d.totalIncome
    ensures forall i :: 0 <= i < |d.accounts| ==> d.accounts[i] in s.accounts.Values && d.accounts[i].owner == user
    ensures forall k :: k in s.accounts && s.accounts[k].owner == user ==> s.accounts[k] in d.accounts
    ensures forall i :: 0 <= i < |d.budgets| ==>
      d.budgets[i].budget in s.budgets.Values && d.budgets[i].budget.owner == user
      && d.budgets[i].budget.month == today.month && d.budgets[i].budget.year == today.year
    ensures forall k :: (k in s.budgets && s.budgets[k].owner == user && s.budgets[k].month == today.month
                         && s.budgets[k].year == today.year) ==> exists i :: 0 <= i < |d.budgets| && d.budgets[i].budget == s.budgets[k]
    ensures forall i :: 0 <= i < |d.goals| ==> d.goals[i].goal in s.goals.Values && d.goals[i].goal.owner == user
    ensures forall k :: k in s.goals && s.goals[k].owner == user ==>
      exists i :: 0 <= i < |d.goals| && d.goals[i].goal == s.goals[k]
    ensures |d.recentTransactions| <= 5
    ensures forall i :: 0 <= i < |d.recentTransactions| ==> d.recentTransactions[i].owner == user
  {
    var income := TransactionQueries.MonthlySum(s.transactions, user, Income, today.month, today.year);
    var expenses := TransactionQueries.MonthlySum(s.transactions, user, Expense, today.month, today.year);
    Dashboard(Accounts.TotalBalance(s.accounts, user), income, expenses, income - expenses,
              Accounts.FindAll(s, user),
              Budgets.FindAllByMonthAndYear(s, user, today.month, today.year),
              Goals.FindAll(s, user),
              TransactionQueries.Recent(s.transactions, user))
  }

  /** The dashboard lists the user's five newest transactions (all of them
      when there are fewer), newest first, and none left out is newer than
      one listed. */
  lemma RecentOnTheDashboard(s: Ledger, user: UserId, today: LocalDate)
    ensures var r := GetDashboard(s, user, today).recentTransactions;
      var n := |TransactionQueries.UserIdSet(s.transactions, user)|;
      |r| == (if n <= 5 then n else 5)
      && (forall i, j :: 0 <= i < j < |r| ==> TransactionQueries.NotOlder(r[i], r[j]))
      && (forall k, i :: (k in s.transactions && s.transactions[k].owner == user && s.transactions[k] !in r && 0 <= i < |r|)
            ==> TransactionQueries.NotOlder(r[i], s.transactions[k]))
  {
    var r := GetDashboard(s, user, today).recentTransactions;
    assert r == TransactionQueries.Recent(s.transactions, user);
    TransactionQueries.RecentHasFive(s.transactions, user);
    NothingNewerIsLeftOut(s.transactions, user);
  }

  /** No transaction of the user missing from the recent rows is newer than
      one of them. */
  lemma NothingNewerIsLeftOut(txs: map<Id, Transaction>, user: UserId)
    ensures var r := TransactionQueries.Recent(txs, user);
      forall k, i :: (k in txs && txs[k].owner == user && txs[k] !in r && 0 <= i < |r|)
        ==> TransactionQueries.NotOlder(r[i], txs[k])
  {
    var r := TransactionQueries.Recent(txs, user);
    var ids := TransactionQueries.RecentIds(txs, user);
    TransactionQueries.RecentIsTopFive(txs, user);
    // A transaction whose row is not shown is not among the selected ids.
    forall m | 0 <= m < |ids| ensures txs[ids[m]] in r {
      assert r[m] == txs[ids[m]];
    }
  }

  /** A user with no accounts and no transactions sees zero everywhere, not
      null. */
  lemma NewUserSeesZeros(s: Ledger, user: UserId, today: LocalDate)
    requires forall k :: k in s.accounts ==> s.accounts[k].owner != user
    requires forall k :: k in s.transactions ==> s.transactions[k].owner != user
    ensures GetDashboard(s, user, today).totalBalance == 0
    ensures GetDashboard(s, user, today).totalIncome == 0
    ensures GetDashboard(s, user, today).totalExpenses == 0
    ensures GetDashboard(s, user, today).netBalance == 0
    ensures GetDashboard(s, user, today).accounts == []
    ensures GetDashboard(s, user, today).recentTransactions == []
  {
    var d := GetDashboard(s, user, today);
    TransactionQueries.EmptySumIsZero(s.transactions, user, Income, today.month, today.year);
    TransactionQueries.EmptySumIsZero(s.transactions, user, Expense, today.month, today.year);
    NoAccountsSumToZero(s.accounts, user);
    TransactionQueries.RecentHasFive(s.transactions, user);
    assert TransactionQueries.UserIdSet(s.transactions, user) == {};
    ListedIsOwned(s.accounts, user, d.accounts);
  }

  /** A listed account is an account of the user. */
  lemma ListedIsOwned(accounts: map<Id, Account>, user: UserId, rows: seq<Account>)
    requires forall i :: 0 <= i < |rows| ==> rows[i] in accounts.Values && rows[i].owner == user
    ensures rows != [] ==> exists k :: k in accounts && accounts[k].owner == user
  {
    if rows != [] {
      assert rows[0] in accounts.Values;
      var k :| k in accounts && accounts[k] == rows[0];
    }
  }

  lemma {:induction false} NoAccountsSumToZero(accounts: map<Id, Account>, user: UserId)
    requires forall k :: k in accounts ==> accounts[k].owner != user
    ensures Accounts.TotalBalance(accounts, user) == 0
    decreases |accounts.Keys|
  {
    if accounts.Keys != {} {
      var k := MinKey(accounts.Keys);
      assert (accounts - {k}).Keys == accounts.Keys - {k};
      NoAccountsSumToZero(accounts - {k}, user);
    }
  }

  /** Recording a COMPLETED INCOME dated in the current month raises the
      dashboard's income, net balance and total balance by its amount, and
      leaves its expenses alone. */
  lemma IncomeShowsOnTheDashboard(s: Ledger, req: TransactionRequest, user: UserId, id: Id, createdAt: int, today: LocalDate)
    requires req.Complete() && id !in s.transactions
    requires req.kind.value == Income && req.status.value == TransactionStatus.Completed
    requires req.transactionDate.value.month == today.month && req.transactionDate.value.year == today.year
    requires Transactions.Create(s, req, user, id, createdAt).Ok?
    ensures var before := GetDashboard(s, user, today);
      var after := GetDashboard(Transactions.Create(s, req, user, id, createdAt).value.0, user, today);
      after.totalIncome == before.totalIncome + req.amount.value
      && after.totalExpenses == before.totalExpenses
      && after.netBalance == before.netBalance + req.amount.value
      && after.totalBalance == before.totalBalance + req.amount.value
  {
    var r := Transactions.Create(s, req, user, id, createdAt).value;
    var t := r.1;
    TransactionQueries.SumOfOneMore(s.transactions, id, t, user, Income, today.month, today.year);
    TransactionQueries.SumOfOneMore(s.transactions, id, t, user, Expense, today.month, today.year);
    assert Accounts.GetAccount(s, req.accountId.value, user).Ok?;
    var credited := Credit(s.accounts, t.account, t.amount);
    forall k | k in s.accounts ensures r.0.accounts[k] == credited[k] {
      assert Effect(t, k) == (if k == t.account then t.amount else 0);
    }
    SameAccounts(r.0.accounts, credited);
    CreditTotal(s.accounts, t.account, t.amount, user);
  }
}
