/** The balance side of TransactionService: how a transaction moves money
    between accounts when it is applied (updateAccountBalance together with
    updateDestinationAccountBalance) and when it is taken back
    (reverseAccountBalance). */
module Balances {
  import opened Common
  import opened Entities
  import Accounts

  /** Adds delta to the balance of account id, if there is such an account. */
  function Credit(accounts: map<Id, Account>, id: Id, delta: Cents): (r: map<Id, Account>)
    ensures r.Keys == accounts.Keys
    ensures forall k :: k in accounts ==>
      r[k] == accounts[k].(balance := accounts[k].balance + (if k == id then delta else 0))
  {
    if id in accounts then accounts[id := accounts[id].(balance := accounts[id].balance + delta)]
    else accounts
  }

  /** What a completed transaction does to its own account: INCOME adds the
      amount, EXPENSE and TRANSFER take it away. */
  function SourceDelta(t: Transaction): Cents {
    if t.kind == Income then t.amount else -t.amount
  }

  /** Reference definition: the net amount a transaction moves into account
      k. Only COMPLETED transactions move money, and only a TRANSFER moves
      money into its destination. */
  function Effect(t: Transaction, k: Id): (e: Cents)
    ensures t.status != TransactionStatus.Completed ==> e == 0
    ensures k != t.account && t.destination != Some(k) ==> e == 0
    ensures t.kind == Income && k == t.account && t.status == TransactionStatus.Completed ==> e == t.amount
    ensures t.kind == Expense && k == t.account && t.status == TransactionStatus.Completed ==> e == -t.amount
  {
    if t.status != TransactionStatus.Completed then 0
    else (if k == t.account then SourceDelta(t) else 0)
         + (if t.kind == Transfer && t.destination == Some(k) then t.amount else 0)
  }

  /** A transfer between two different accounts takes from one exactly what
      it gives the other. */
  lemma TransferEffectsCancel(t: Transaction)
    requires t.kind == Transfer && t.destination.Some? && t.destination.value != t.account
    ensures Effect(t, t.account) + Effect(t, t.destination.value) == 0
    ensures t.status == TransactionStatus.Completed ==> Effect(t, t.destination.value) == t.amount
  {
  }

  /** A completed TRANSFER with no destination account: applying it
      dereferences the missing destination (TransactionService.java:153). */
  predicate NullDestination(t: Transaction) {
    t.status == TransactionStatus.Completed && t.kind == Transfer && t.destination.None?
  }

  /** Every account of `after` is the account of `before` with the
      transaction's effect added to its balance, and nothing else differs. */
  ghost predicate Applied(before: map<Id, Account>, after: map<Id, Account>, t: Transaction) {
    after.Keys == before.Keys
    && forall k :: k in before ==> after[k] == before[k].(balance := before[k].balance + Effect(t, k))
  }

  /** Every account of `after` is the account of `before` with the
      transaction's effect taken off its balance, and nothing else differs. */
  ghost predicate Reversed(before: map<Id, Account>, after: map<Id, Account>, t: Transaction) {
    after.Keys == before.Keys
    && forall k :: k in before ==> after[k] == before[k].(balance := before[k].balance - Effect(t, k))
  }

  /** updateAccountBalance, then updateDestinationAccountBalance for a
      TRANSFER. */
  function Apply(accounts: map<Id, Account>, t: Transaction): (r: Result<map<Id, Account>>)
    ensures r.Err? <==> NullDestination(t)
    ensures r.Err? ==> r.error.Unexpected?
    ensures r.Ok? ==> Applied(accounts, r.value, t)
  {
    if t.status != TransactionStatus.Completed then Ok(accounts)
    else
      var withSource := Credit(accounts, t.account, SourceDelta(t));
      if t.kind != Transfer then Ok(withSource)
      else match t.destination
        case None => Err(Unexpected("destination account is null"))
        case Some(d) => Ok(Credit(withSource, d, t.amount))
  }

  /** reverseAccountBalance: takes back what the transaction moved. */
  function Reverse(accounts: map<Id, Account>, t: Transaction): (r: map<Id, Account>)
    ensures Reversed(accounts, r, t)
  {
    if t.status != TransactionStatus.Completed then accounts
    else
      var withSource := Credit(accounts, t.account, -SourceDelta(t));
      if t.kind == Transfer && t.destination.Some? then Credit(withSource, t.destination.value, -t.amount)
      else withSource
  }

  /** A transaction that is not COMPLETED moves no money either way. */
  lemma NotCompletedMovesNothing(accounts: map<Id, Account>, t: Transaction)
    requires t.status != TransactionStatus.Completed
    ensures Apply(accounts, t) == Ok(accounts)
    ensures Reverse(accounts, t) == accounts
  {
  }

  /** Reversing undoes applying, and applying undoes reversing. */
  lemma ReverseUndoesApply(accounts: map<Id, Account>, t: Transaction)
    requires !NullDestination(t)
    ensures Reverse(Apply(accounts, t).value, t) == accounts
  {
    var applied := Apply(accounts, t).value;
    var back := Reverse(applied, t);
    forall k | k in accounts ensures back[k] == accounts[k] {
      assert applied[k].balance == accounts[k].balance + Effect(t, k);
    }
    SameAccounts(back, accounts);
  }

  lemma ApplyUndoesReverse(accounts: map<Id, Account>, t: Transaction)
    requires !NullDestination(t)
    ensures Apply(Reverse(accounts, t), t) == Ok(accounts)
  {
    var reversed := Reverse(accounts, t);
    var forth := Apply(reversed, t).value;
    forall k | k in accounts ensures forth[k] == accounts[k] {
      assert reversed[k].balance == accounts[k].balance - Effect(t, k);
    }
    SameAccounts(forth, accounts);
  }

  lemma SameAccounts(a: map<Id, Account>, b: map<Id, Account>)
    requires a.Keys == b.Keys
    requires forall k :: k in b ==> a[k] == b[k]
    ensures a == b
  {
  }

  /** How a credit changes one user's total. */
  lemma CreditTotal(accounts: map<Id, Account>, id: Id, delta: Cents, user: UserId)
    ensures Accounts.TotalBalance(Credit(accounts, id, delta), user)
         == Accounts.TotalBalance(accounts, user) + (if id in accounts && accounts[id].owner == user then delta else 0)
  {
    if id in accounts {
      SumMapUpdate(accounts, Accounts.BalanceOf(user), id, Credit(accounts, id, delta)[id]);
    }
  }

  /** Moving an amount between two accounts with the same owner (taking it
      from one, adding it to the other) leaves every user's total as it
      was. */
  lemma MoveConservesTotalBalance(accounts: map<Id, Account>, from: Id, to: Id, taken: Cents, added: Cents, user: UserId)
    requires from in accounts && to in accounts
    requires accounts[from].owner == accounts[to].owner
    requires taken + added == 0
    ensures Accounts.TotalBalance(Credit(Credit(accounts, from, taken), to, added), user)
         == Accounts.TotalBalance(accounts, user)
  {
    var out := Credit(accounts, from, taken);
    assert out[to].owner == accounts[to].owner;
    CreditTotal(accounts, from, taken, user);
    CreditTotal(out, to, added, user);
  }

  /** A transfer between two accounts of the same user leaves every user's
      total balance as it was, whether it is applied or reversed. */
  lemma TransferConservesTotalBalance(accounts: map<Id, Account>, t: Transaction, user: UserId)
    requires t.kind == Transfer && t.destination.Some?
    requires t.account in accounts && t.destination.value in accounts
    requires accounts[t.account].owner == accounts[t.destination.value].owner
    ensures Apply(accounts, t).Ok?
    ensures Accounts.TotalBalance(Apply(accounts, t).value, user) == Accounts.TotalBalance(accounts, user)
  {
    if t.status == TransactionStatus.Completed {
      MoveConservesTotalBalance(accounts, t.account, t.destination.value, SourceDelta(t), t.amount, user);
    } else {
      NotCompletedMovesNothing(accounts, t);
    }
  }

  lemma ReversedTransferConservesTotalBalance(accounts: map<Id, Account>, t: Transaction, user: UserId)
    requires t.kind == Transfer && t.destination.Some?
    requires t.account in accounts && t.destination.value in accounts
    requires accounts[t.account].owner == accounts[t.destination.value].owner
    ensures Accounts.TotalBalance(Reverse(accounts, t), user) == Accounts.TotalBalance(accounts, user)
  {
    if t.status == TransactionStatus.Completed {
      var back := -t.amount;
      MoveConservesTotalBalance(accounts, t.account, t.destination.value, t.amount, back, user);
      ReverseOfTransferTotal(accounts, t, back, user);
    } else {
      NotCompletedMovesNothing(accounts, t);
    }
  }

  /** Taking back a completed transfer is crediting its amount to the source
      and debiting it from the destination. */
  lemma ReverseOfTransferTotal(accounts: map<Id, Account>, t: Transaction, back: Cents, user: UserId)
    requires t.kind == Transfer && t.destination.Some? && t.status == TransactionStatus.Completed
    requires back == -t.amount
    ensures Accounts.TotalBalance(Reverse(accounts, t), user)
         == Accounts.TotalBalance(Credit(Credit(accounts, t.account, t.amount), t.destination.value, back), user)
  {
    var r := Reverse(accounts, t);
    var moved := Credit(Credit(accounts, t.account, t.amount), t.destination.value, back);
    forall k | k in r ensures Accounts.BalanceOf(user)(r[k]) == Accounts.BalanceOf(user)(moved[k]) {
      assert r[k] == moved[k];
    }
    SumMapCongruent(r, moved, Accounts.BalanceOf(user));
  }

  /** The cases of the service tests: a completed income of 3000.00 on a
      balance of 1000.00 leaves 4000.00, a completed expense of 50.00 leaves
      950.00, and a pending one leaves 1000.00. */
  lemma TestedBalances(a: Account, income: Transaction, expense: Transaction, pending: Transaction)
    requires a.balance == 100000
    requires income.kind == Income && income.status == TransactionStatus.Completed && income.amount == 300000
    requires expense.kind == Expense && expense.status == TransactionStatus.Completed && expense.amount == 5000
    requires pending.status == TransactionStatus.Pending && pending.amount == 5000
    requires income.account == 7 && expense.account == 7 && pending.account == 7
    ensures Apply(map[7 := a], income).value[7].balance == 400000
    ensures Apply(map[7 := a], expense).value[7].balance == 95000
    ensures Apply(map[7 := a], pending).value[7].balance == 100000
  {
  }
}
