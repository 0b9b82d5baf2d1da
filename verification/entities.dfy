/** The persistent entities of the ledger and the store that holds them.
    Each JPA table becomes an immutable map from id to row; every row that a
    user owns carries the owner's id, because every lookup in the services is
    by (id, user id). */
module Entities {
  import opened Common
  import opened Dates

  datatype AccountType = Checking | Savings | Wallet | CreditCard | Investment
  datatype CategoryType = IncomeCategory | ExpenseCategory
  datatype TransactionType = Income | Expense | Transfer
  datatype TransactionStatus = Pending | Completed | Cancelled
  datatype InstallmentStatus = Pending | Completed | Cancelled
  datatype BudgetStatus = Active | Exceeded | Completed
  datatype GoalStatus = InProgress | Completed | Cancelled

  datatype Account = Account(
    owner: UserId,
    name: string,
    kind: AccountType,
    balance: Cents,
    currency: string)

  /** System-seeded default categories may have no owner at all. */
  datatype Category = Category(
    owner: Option<UserId>,
    name: string,
    kind: CategoryType,
    color: Option<string>,
    icon: Option<string>,
    isDefault: bool)

  /** createdAt only breaks ties between transactions of the same date in the
      recent-transactions query; the other audit timestamps are not modelled. */
  datatype Transaction = Transaction(
    owner: UserId,
    account: Id,
    category: Option<Id>,
    destination: Option<Id>,
    description: string,
    amount: Cents,
    kind: TransactionType,
    status: TransactionStatus,
    date: LocalDate,
    notes: Option<string>,
    createdAt: int)

  datatype Installment = Installment(
    number: int,
    amount: Cents,
    dueDate: LocalDate,
    status: InstallmentStatus,
    transaction: Option<Id>)

  /** A purchase split into installments. The group owns its installments in
      number order (the one-to-many list of the entity), so an installment is
      addressed by its group and its position in that list. */
  datatype InstallmentGroup = InstallmentGroup(
    owner: UserId,
    account: Id,
    category: Option<Id>,
    description: string,
    totalAmount: Cents,
    count: int,
    startDate: LocalDate,
    notes: Option<string>,
    installments: seq<Installment>)

  datatype InstallmentRef = InstallmentRef(group: Id, index: nat)

  datatype Budget = Budget(
    owner: UserId,
    category: Id,
    amount: Cents,
    spent: Cents,
    month: int,
    year: int,
    status: BudgetStatus)

  datatype Goal = Goal(
    owner: UserId,
    name: string,
    target: Cents,
    current: Cents,
    deadline: Option<LocalDate>,
    status: GoalStatus,
    notes: Option<string>)

  /** All tables of the database. */
  datatype Ledger = Ledger(
    accounts: map<Id, Account>,
    categories: map<Id, Category>,
    transactions: map<Id, Transaction>,
    groups: map<Id, InstallmentGroup>,
    budgets: map<Id, Budget>,
    goals: map<Id, Goal>)

  // None of the foreign keys below cascades, so the database refuses to
  // delete a row that another row still points at.

  /** A transaction (as source or destination) or an installment group still
      points at account id. */
  predicate AccountReferenced(s: Ledger, id: Id) {
    (exists k :: k in s.transactions && (s.transactions[k].account == id || s.transactions[k].destination == Some(id)))
    || (exists k :: k in s.groups && s.groups[k].account == id)
  }

  /** A transaction, a budget or an installment group still points at
      category id. */
  predicate CategoryReferenced(s: Ledger, id: Id) {
    (exists k :: k in s.transactions && s.transactions[k].category == Some(id))
    || (exists k :: k in s.budgets && s.budgets[k].category == id)
    || (exists k :: k in s.groups && s.groups[k].category == Some(id))
  }

  /** An installment is still linked to transaction id. */
  predicate TransactionLinked(s: Ledger, id: Id) {
    exists g, i :: g in s.groups && 0 <= i < |s.groups[g].installments| && s.groups[g].installments[i].transaction == Some(id)
  }
}
