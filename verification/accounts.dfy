/** AccountService: accounts are created with their opening balance, and
    afterwards only the transaction engine moves the balance. */
module Accounts {
  import opened Common
  import opened Entities
  import opened Requests

  /** AccountService.getAccount / findById: the account with that id, if the
      user owns it. */
  function GetAccount(s: Ledger, id: Id, user: UserId): (r: Result<Account>)
    ensures r.Ok? <==> id in s.accounts && s.accounts[id].owner == user
    ensures r.Ok? ==> r.value == s.accounts[id]
    ensures r.Err? ==> r.error == NotFound("Account not found")
  {
    if id in s.accounts && s.accounts[id].owner == user then Ok(s.accounts[id])
    else Err(NotFound("Account not found"))
  }

  /** AccountService.create; id is the identifier the database assigns. */
  function Create(s: Ledger, req: AccountRequest, user: UserId, id: Id): (r: (Ledger, Account))
    requires req.Complete()
    requires id !in s.accounts
    ensures r.1.balance == req.balance.value
    ensures r.1.name == req.name.value && r.1.kind == req.kind.value && r.1.currency == req.currency.value
    ensures GetAccount(r.0, id, user) == Ok(r.1)
    ensures r.0.accounts.Keys == s.accounts.Keys + {id}
    ensures forall k :: k in s.accounts ==> r.0.accounts[k] == s.accounts[k]
    ensures r.0.(accounts := s.accounts) == s
  {
    var account := Account(user, req.name.value, req.kind.value, req.balance.value, req.currency.value);
    (s.(accounts := s.accounts[id := account]), account)
  }

  /** AccountService.update: name, type and currency change, the balance
      does not. */
  function Update(s: Ledger, id: Id, req: AccountRequest, user: UserId): (r: Result<(Ledger, Account)>)
    requires req.name.Some? && req.kind.Some? && req.currency.Some?
    ensures r.Err? <==> GetAccount(s, id, user).Err?
    ensures r.Err? ==> r.error == NotFound("Account not found")
    ensures r.Ok? ==> r.value.1 == s.accounts[id].(name := req.name.value, kind := req.kind.value,
                                                  currency := req.currency.value)
    ensures r.Ok? ==> r.value.1.balance == s.accounts[id].balance && r.value.1.owner == user
    ensures r.Ok? ==> r.value.0 == s.(accounts := s.accounts[id := r.value.1])
  {
    var account :- GetAccount(s, id, user);
    var updated := account.(name := req.name.value, kind := req.kind.value, currency := req.currency.value);
    Ok((s.(accounts := s.accounts[id := updated]), updated))
  }

  /** AccountService.delete: removes exactly that account. While a
      transaction or an installment group still points at it, the database
      refuses the delete and the call fails unexpectedly. */
  function Delete(s: Ledger, id: Id, user: UserId): (r: Result<Ledger>)
    ensures r.Err? <==> GetAccount(s, id, user).Err? || AccountReferenced(s, id)
    ensures GetAccount(s, id, user).Err? ==> r == Err(NotFound("Account not found"))
    ensures GetAccount(s, id, user).Ok? && AccountReferenced(s, id) ==> r.Err? && r.error.Unexpected?
    ensures r.Ok? ==> r.value.accounts.Keys == s.accounts.Keys - {id}
    ensures r.Ok? ==> forall k :: k in r.value.accounts ==> r.value.accounts[k] == s.accounts[k]
    ensures r.Ok? ==> r.value.(accounts := s.accounts) == s
  {
    var _ :- GetAccount(s, id, user);
    if AccountReferenced(s, id) then Err(Unexpected("foreign key violation"))
    else Ok(s.(accounts := s.accounts - {id}))
  }

  /** AccountService.findAll: exactly the user's accounts. */
  function FindAll(s: Ledger, user: UserId): (rows: seq<Account>)
    ensures forall i :: 0 <= i < |rows| ==> rows[i] in s.accounts.Values && rows[i].owner == user
    ensures forall k :: k in s.accounts && s.accounts[k].owner == user ==> s.accounts[k] in rows
  {
    Select(s.accounts, (a: Account) => a.owner == user)
  }

  /** A user's account balances as the dashboard adds them up. */
  function BalanceOf(user: UserId): Account -> int {
    (a: Account) => if a.owner == user then a.balance else 0
  }

  /** The sum of the balances of every account the user owns. */
  function TotalBalance(accounts: map<Id, Account>, user: UserId): (total: int)
    ensures (forall k :: k in accounts ==> accounts[k].owner != user) ==> total == 0
    ensures (forall k :: k in accounts && accounts[k].owner == user ==> accounts[k].balance >= 0) ==> total >= 0
  {
    var f := BalanceOf(user);
    assert forall k :: k in accounts ==> f(accounts[k]) == (if accounts[k].owner == user then accounts[k].balance else 0);
    SumMap(accounts, f)
  }

  /** Editing an account never moves money: the user's total is unchanged. */
  lemma UpdateKeepsTotalBalance(s: Ledger, id: Id, req: AccountRequest, user: UserId, other: UserId)
    requires req.name.Some? && req.kind.Some? && req.currency.Some?
    requires Update(s, id, req, user).Ok?
    ensures TotalBalance(Update(s, id, req, user).value.0.accounts, other) == TotalBalance(s.accounts, other)
  {
    var updated := Update(s, id, req, user).value.1;
    SumMapUpdate(s.accounts, BalanceOf(other), id, updated);
  }

  /** Creating an account adds its opening balance to its owner's total. */
  lemma CreateAddsOpeningBalance(s: Ledger, req: AccountRequest, user: UserId, id: Id)
    requires req.Complete()
    requires id !in s.accounts
    ensures TotalBalance(Create(s, req, user, id).0.accounts, user) == TotalBalance(s.accounts, user) + req.balance.value
  {
    SumMapInsert(s.accounts, BalanceOf(user), id, Create(s, req, user, id).1);
  }
}
