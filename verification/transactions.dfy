/** TransactionService: create, update and delete of transactions, each of
    which keeps the account balances in step with the COMPLETED
    transactions. */
module Transactions {
  import opened Common
  import opened Dates
  import opened Entities
  import opened Requests
  import opened Balances
  import Accounts
  import Categories
  import Budgets

  /** TransactionService.getTransaction / findById. */
  function GetTransaction(s: Ledger, id: Id, user: UserId): (r: Result<Transaction>)
    ensures r.Ok? <==> id in s.transactions && s.transactions[id].owner == user
    ensures r.Ok? ==> r.value == s.transactions[id]
    ensures r.Err? ==> r.error == NotFound("Transaction not found")
  {
    if id in s.transactions && s.transactions[id].owner == user then Ok(s.transactions[id])
    else Err(NotFound("Transaction not found"))
  }

  /** TransactionService.findAll, before paging: exactly the user's
      transactions. */
  function FindAll(s: Ledger, user: UserId): (rows: seq<Transaction>)
    ensures forall i :: 0 <= i < |rows| ==> rows[i] in s.transactions.Values && rows[i].owner == user
    ensures forall k :: k in s.transactions && s.transactions[k].owner == user ==> s.transactions[k] in rows
  {
    Select(s.transactions, (t: Transaction) => t.owner == user)
  }

  /** TransactionService.validateTransactionRequest: a transfer needs a
      destination other than its source. */
  function ValidateTransfer(req: TransactionRequest): (r: Result<()>)
    requires req.accountId.Some? && req.kind.Some?
    ensures r.Ok? <==> req.kind.value != Transfer
                        || (req.destinationAccountId.Some? && req.destinationAccountId.value != req.accountId.value)
    ensures req.kind.value == Transfer && req.destinationAccountId.None? ==>
      r == Err(Business("Destination account is required for transfers"))
    ensures req.kind.value == Transfer && req.destinationAccountId == Some(req.accountId.value) ==>
      r == Err(Business("Source and destination accounts must be different"))
  {
    if req.kind.value == Transfer && req.destinationAccountId.None? then
      Err(Business("Destination account is required for transfers"))
    else if req.kind.value == Transfer && req.destinationAccountId == Some(req.accountId.value) then
      Err(Business("Source and destination accounts must be different"))
    else Ok(())
  }

  /** An optional category id is either absent or one of the user's
      categories. */
  function CheckCategory(s: Ledger, category: Option<Id>, user: UserId): (r: Result<()>)
    ensures r.Ok? <==> category.None? || Categories.GetCategory(s, category.value, user).Ok?
    ensures r.Err? ==> r.error == NotFound("Category not found")
  {
    match category
    case None => Ok(())
    case Some(c) => var _ :- Categories.GetCategory(s, c, user); Ok(())
  }

  /** An optional destination id is either absent or one of the user's
      accounts. */
  function CheckDestination(s: Ledger, destination: Option<Id>, user: UserId): (r: Result<()>)
    ensures r.Ok? <==> destination.None? || Accounts.GetAccount(s, destination.value, user).Ok?
    ensures r.Err? ==> r.error == NotFound("Account not found")
  {
    match destination
    case None => Ok(())
    case Some(d) => var _ :- Accounts.GetAccount(s, d, user); Ok(())
  }

  /** The lookups both create and update make, in their order: the account,
      then the category, then the destination. */
  function CheckReferences(s: Ledger, req: TransactionRequest, user: UserId): (r: Result<()>)
    requires req.accountId.Some?
    ensures r.Ok? <==> Accounts.GetAccount(s, req.accountId.value, user).Ok?
                        && CheckCategory(s, req.categoryId, user).Ok?
                        && CheckDestination(s, req.destinationAccountId, user).Ok?
    ensures Accounts.GetAccount(s, req.accountId.value, user).Err? ==> r == Err(NotFound("Account not found"))
    ensures r.Err? ==> r.error.NotFound?
  {
    var _ :- Accounts.GetAccount(s, req.accountId.value, user);
    var _ :- CheckCategory(s, req.categoryId, user);
    CheckDestination(s, req.destinationAccountId, user)
  }

  /** The fields of a request, as they are written into a transaction. */
  function Fill(t: Transaction, req: TransactionRequest): (t': Transaction)
    requires req.Complete()
    ensures t'.owner == t.owner && t'.createdAt == t.createdAt
    ensures t'.account == req.accountId.value && t'.category == req.categoryId
    ensures t'.destination == req.destinationAccountId && t'.description == req.description.value
    ensures t'.amount == req.amount.value && t'.kind == req.kind.value && t'.status == req.status.value
    ensures t'.date == req.transactionDate.value && t'.notes == req.notes
  {
    t.(account := req.accountId.value, category := req.categoryId, destination := req.destinationAccountId,
       description := req.description.value, amount := req.amount.value, kind := req.kind.value,
       status := req.status.value, date := req.transactionDate.value, notes := req.notes)
  }

  /** The request that would write exactly the fields of t. */
  function RequestOf(t: Transaction): (req: TransactionRequest)
    ensures req.Complete()
    ensures Fill(t, req) == t
  {
    TransactionRequest(Some(t.account), t.category, t.destination, Some(t.description), Some(t.amount),
                       Some(t.kind), Some(t.status), Some(t.date), t.notes)
  }

  /** A completed expense with a category counts against that category's
      budget for the month of the transaction. */
  predicate CountsAgainstBudget(t: Transaction) {
    t.status == TransactionStatus.Completed && t.kind == Expense && t.category.Some?
  }

  /** TransactionService.create. id is the identifier the database assigns
      and createdAt the creation time it records. */
  function Create(s: Ledger, req: TransactionRequest, user: UserId, id: Id, createdAt: int): (r: Result<(Ledger, Transaction)>)
    requires req.Complete()
    requires id !in s.transactions
    ensures ValidateTransfer(req).Err? ==> r == Err(ValidateTransfer(req).error)
    ensures ValidateTransfer(req).Ok? && CheckReferences(s, req, user).Err? ==> r == Err(CheckReferences(s, req, user).error)
    ensures r.Ok? <==> ValidateTransfer(req).Ok? && CheckReferences(s, req, user).Ok?
    ensures r.Ok? ==> r.value.1 == Fill(r.value.1, req) && r.value.1.owner == user && r.value.1.createdAt == createdAt
    ensures r.Ok? ==> Applied(s.accounts, r.value.0.accounts, r.value.1)
    ensures r.Ok? ==> r.value.0.transactions == s.transactions[id := r.value.1]
    ensures r.Ok? && CountsAgainstBudget(r.value.1) ==>
      r.value.0.budgets == Budgets.UpdateSpent(s.budgets, user, r.value.1.category.value,
                                               r.value.1.date.month, r.value.1.date.year, r.value.1.amount)
    ensures r.Ok? && !CountsAgainstBudget(r.value.1) ==> r.value.0.budgets == s.budgets
    ensures r.Ok? ==> r.value.0.(accounts := s.accounts, transactions := s.transactions, budgets := s.budgets) == s
  {
    var _ :- ValidateTransfer(req);
    var _ :- CheckReferences(s, req, user);
    var t := Fill(Transaction(user, 0, None, None, [], 0, Income, TransactionStatus.Pending, Date(2000, 1, 1), None, createdAt), req);
    var accounts := Apply(s.accounts, t).value;
    var budgets := if CountsAgainstBudget(t)
      then Budgets.UpdateSpent(s.budgets, user, t.category.value, t.date.month, t.date.year, t.amount)
      else s.budgets;
    Ok((s.(accounts := accounts, transactions := s.transactions[id := t], budgets := budgets), t))
  }

  /** TransactionService.update: takes back the old transaction's effect,
      rewrites every field from the request and applies the new effect. There
      is no status transition rule and no transfer validation; a COMPLETED
      TRANSFER without a destination fails with an unexpected error. Budgets
      are not touched. */
  function Update(s: Ledger, id: Id, req: TransactionRequest, user: UserId): (r: Result<(Ledger, Transaction)>)
    requires req.Complete()
    ensures GetTransaction(s, id, user).Err? ==> r == Err(NotFound("Transaction not found"))
    ensures GetTransaction(s, id, user).Ok? && CheckReferences(s, req, user).Err? ==>
      r == Err(CheckReferences(s, req, user).error)
    ensures r.Ok? <==> GetTransaction(s, id, user).Ok? && CheckReferences(s, req, user).Ok?
                        && !NullDestination(Fill(s.transactions[id], req))
    ensures r.Err? && !r.error.NotFound? ==> r.error.Unexpected?
    ensures r.Ok? ==> r.value.1 == Fill(s.transactions[id], req)
    ensures r.Ok? ==> r.value.0.accounts.Keys == s.accounts.Keys
    ensures r.Ok? ==> forall k :: k in s.accounts ==>
      r.value.0.accounts[k] == s.accounts[k].(balance := s.accounts[k].balance - Effect(s.transactions[id], k)
                                                         + Effect(r.value.1, k))
    ensures r.Ok? ==> r.value.0 == s.(accounts := r.value.0.accounts, transactions := s.transactions[id := r.value.1])
  {
    var old_ :- GetTransaction(s, id, user);
    var reversed := Reverse(s.accounts, old_);
    var _ :- CheckReferences(s, req, user);
    var t := Fill(old_, req);
    var accounts :- Apply(reversed, t);
    Ok((s.(accounts := accounts, transactions := s.transactions[id := t]), t))
  }

  /** TransactionService.delete: takes back the transaction's effect and
      removes it; budgets are left alone. While an installment is linked to
      it, the database refuses the delete and the whole call, balance
      reversal included, fails unexpectedly. */
  function Delete(s: Ledger, id: Id, user: UserId): (r: Result<Ledger>)
    ensures r.Err? <==> GetTransaction(s, id, user).Err? || TransactionLinked(s, id)
    ensures GetTransaction(s, id, user).Err? ==> r == Err(NotFound("Transaction not found"))
    ensures GetTransaction(s, id, user).Ok? && TransactionLinked(s, id) ==> r.Err? && r.error.Unexpected?
    ensures r.Ok? ==> Reversed(s.accounts, r.value.accounts, s.transactions[id])
    ensures r.Ok? ==> r.value == s.(accounts := r.value.accounts, transactions := s.transactions - {id})
  {
    var t :- GetTransaction(s, id, user);
    if TransactionLinked(s, id) then Err(Unexpected("foreign key violation"))
    else Ok(s.(accounts := Reverse(s.accounts, t), transactions := s.transactions - {id}))
  }

  // ---------------------------------------------------------------------------
  // Properties relating the operations

  /** Transactions that are not COMPLETED move no money: create, update and
      delete of them leave every balance as it was. */
  lemma PendingMovesNoMoney(s: Ledger, req: TransactionRequest, user: UserId, id: Id, createdAt: int)
    requires req.Complete() && req.status.value != TransactionStatus.Completed
    ensures id !in s.transactions && Create(s, req, user, id, createdAt).Ok? ==>
      Create(s, req, user, id, createdAt).value.0.accounts == s.accounts
    ensures (id in s.transactions && s.transactions[id].status != TransactionStatus.Completed
             && Update(s, id, req, user).Ok?) ==> Update(s, id, req, user).value.0.accounts == s.accounts
    ensures (id in s.transactions && s.transactions[id].status != TransactionStatus.Completed
             && Delete(s, id, user).Ok?) ==> Delete(s, id, user).value.accounts == s.accounts
  {
    if id !in s.transactions && Create(s, req, user, id, createdAt).Ok? {
      PendingCreateMovesNoMoney(s, req, user, id, createdAt);
    }
    if id in s.transactions && s.transactions[id].status != TransactionStatus.Completed && Update(s, id, req, user).Ok? {
      PendingUpdateMovesNoMoney(s, id, req, user);
    }
    if id in s.transactions && s.transactions[id].status != TransactionStatus.Completed && Delete(s, id, user).Ok? {
      PendingDeleteMovesNoMoney(s, id, user);
    }
  }

  lemma PendingCreateMovesNoMoney(s: Ledger, req: TransactionRequest, user: UserId, id: Id, createdAt: int)
    requires req.Complete() && req.status.value != TransactionStatus.Completed
    requires id !in s.transactions && Create(s, req, user, id, createdAt).Ok?
    ensures Create(s, req, user, id, createdAt).value.0.accounts == s.accounts
  {
    var r := Create(s, req, user, id, createdAt).value.0;
    Balances.SameAccounts(r.accounts, s.accounts);
  }

  lemma PendingUpdateMovesNoMoney(s: Ledger, id: Id, req: TransactionRequest, user: UserId)
    requires req.Complete() && req.status.value != TransactionStatus.Completed
    requires id in s.transactions && s.transactions[id].status != TransactionStatus.Completed
    requires Update(s, id, req, user).Ok?
    ensures Update(s, id, req, user).value.0.accounts == s.accounts
  {
    var r := Update(s, id, req, user).value.0;
    Balances.SameAccounts(r.accounts, s.accounts);
  }

  lemma PendingDeleteMovesNoMoney(s: Ledger, id: Id, user: UserId)
    requires id in s.transactions && s.transactions[id].status != TransactionStatus.Completed
    requires Delete(s, id, user).Ok?
    ensures Delete(s, id, user).value.accounts == s.accounts
  {
    var r := Delete(s, id, user).value;
    Balances.SameAccounts(r.accounts, s.accounts);
  }

  /** Creating a transaction and deleting it again restores every account
      balance and the transaction table exactly, unless an installment
      already carried a link to the new id. Budgets are not restored: the
      spent amount an expense added stays. */
  lemma CreateThenDeleteRestoresBalances(s: Ledger, req: TransactionRequest, user: UserId, id: Id, createdAt: int)
    requires req.Complete()
    requires id !in s.transactions
    requires Create(s, req, user, id, createdAt).Ok?
    ensures var s' := Create(s, req, user, id, createdAt).value.0;
      (Delete(s', id, user).Ok? <==> !TransactionLinked(s, id))
      && (Delete(s', id, user).Ok? ==>
      Delete(s', id, user).value.accounts == s.accounts
      && Delete(s', id, user).value.transactions == s.transactions
      && Delete(s', id, user).value.budgets == s'.budgets)
  {
    var s' := Create(s, req, user, id, createdAt).value.0;
    var t := Create(s, req, user, id, createdAt).value.1;
    assert s'.groups == s.groups;
    if Delete(s', id, user).Ok? {
      var s'' := Delete(s', id, user).value;
      forall k | k in s.accounts ensures s''.accounts[k] == s.accounts[k] {
        assert s'.accounts[k].balance == s.accounts[k].balance + Effect(t, k);
      }
      Balances.SameAccounts(s''.accounts, s.accounts);
      assert s''.transactions == s.transactions;
    }
  }

  /** Updating a transaction with its own fields changes nothing. */
  lemma UpdateWithSameFieldsChangesNothing(s: Ledger, id: Id, user: UserId)
    requires id in s.transactions
    requires Update(s, id, RequestOf(s.transactions[id]), user).Ok?
    ensures Update(s, id, RequestOf(s.transactions[id]), user).value.0 == s
  {
    var r := Update(s, id, RequestOf(s.transactions[id]), user).value.0;
    Balances.SameAccounts(r.accounts, s.accounts);
    assert r.transactions == s.transactions;
  }

  /** Creating a transaction PENDING and then updating it to COMPLETED with
      otherwise the same fields moves the same money as creating it
      COMPLETED. (The budget is bumped only in the second case.) */
  lemma CompletingLaterMovesTheSameMoney(s: Ledger, req: TransactionRequest, user: UserId, id: Id, createdAt: int)
    requires req.Complete() && req.status == Some(TransactionStatus.Pending)
    requires id !in s.transactions
    requires Create(s, req.(status := Some(TransactionStatus.Completed)), user, id, createdAt).Ok?
    ensures Create(s, req, user, id, createdAt).Ok?
    ensures var s' := Create(s, req, user, id, createdAt).value.0;
      var done := req.(status := Some(TransactionStatus.Completed));
      Update(s', id, done, user).Ok?
      && Update(s', id, done, user).value.0.accounts == Create(s, done, user, id, createdAt).value.0.accounts
      && Update(s', id, done, user).value.0.transactions == Create(s, done, user, id, createdAt).value.0.transactions
  {
    var done := req.(status := Some(TransactionStatus.Completed));
    var pending := Create(s, req, user, id, createdAt).value;
    var s' := pending.0;
    PendingCreateMovesNoMoney(s, req, user, id, createdAt);
    SameReferences(s', s, done, user);
    var direct := Create(s, done, user, id, createdAt).value;
    assert Fill(pending.1, done) == direct.1;
    var up := Update(s', id, done, user).value.0;
    forall k | k in s.accounts ensures up.accounts[k] == direct.0.accounts[k] {
      assert Effect(pending.1, k) == 0;
    }
    Balances.SameAccounts(up.accounts, direct.0.accounts);
  }

  /** The reference checks read only the categories and the accounts. */
  lemma SameReferences(a: Ledger, b: Ledger, req: TransactionRequest, user: UserId)
    requires req.accountId.Some?
    requires a.categories == b.categories && a.accounts == b.accounts
    ensures CheckReferences(a, req, user) == CheckReferences(b, req, user)
  {
  }

  /** A completed transfer between two of the user's accounts leaves the
      user's total balance unchanged. */
  lemma CreateTransferConservesTotalBalance(s: Ledger, req: TransactionRequest, user: UserId, id: Id, createdAt: int)
    requires req.Complete() && req.kind == Some(Transfer)
    requires id !in s.transactions
    requires Create(s, req, user, id, createdAt).Ok?
    ensures Accounts.TotalBalance(Create(s, req, user, id, createdAt).value.0.accounts, user)
         == Accounts.TotalBalance(s.accounts, user)
  {
    var t := Create(s, req, user, id, createdAt).value.1;
    TransferConservesTotalBalance(s.accounts, t, user);
  }

  /** Update and delete never change a budget. */
  lemma OnlyCreateTouchesBudgets(s: Ledger, id: Id, req: TransactionRequest, user: UserId)
    requires req.Complete()
    ensures Update(s, id, req, user).Ok? ==> Update(s, id, req, user).value.0.budgets == s.budgets
    ensures Delete(s, id, user).Ok? ==> Delete(s, id, user).value.budgets == s.budgets
  {
  }
}
