/** BudgetService: one spending limit per (user, category, month, year),
    whose spent amount the transaction engine raises as expenses complete. */
module Budgets {
  import opened Common
  import opened Entities
  import opened Requests
  import opened Percent
  import Categories

  /** The budget belongs to this user, category and period. */
  predicate ForPeriod(b: Budget, user: UserId, category: Id, month: int, year: int) {
    b.owner == user && b.category == category && b.month == month && b.year == year
  }

  predicate SamePeriod(a: Budget, b: Budget) {
    ForPeriod(b, a.owner, a.category, a.month, a.year)
  }

  /** BudgetRepository.existsByUserIdAndCategoryIdAndMonthAndYear. */
  predicate Exists(budgets: map<Id, Budget>, user: UserId, category: Id, month: int, year: int) {
    exists k :: k in budgets && ForPeriod(budgets[k], user, category, month, year)
  }

  /** The table's unique constraint on (user_id, category_id, month, year). */
  ghost predicate UniquePeriods(budgets: map<Id, Budget>) {
    forall j, k :: j in budgets && k in budgets && SamePeriod(budgets[j], budgets[k]) ==> j == k
  }

  /** BudgetRepository.findByIdAndUserId, failing as the service does. */
  function GetBudget(s: Ledger, id: Id, user: UserId): (r: Result<Budget>)
    ensures r.Ok? <==> id in s.budgets && s.budgets[id].owner == user
    ensures r.Ok? ==> r.value == s.budgets[id]
    ensures r.Err? ==> r.error == NotFound("Budget not found")
  {
    if id in s.budgets && s.budgets[id].owner == user then Ok(s.budgets[id])
    else Err(NotFound("Budget not found"))
  }

  /** The computed fields of BudgetResponse. */
  datatype BudgetView = BudgetView(budget: Budget, remaining: Cents, percentUsed: int)

  /** BudgetService.toResponse: what is left, and the share of the limit
      already spent in hundredths of a percent (0 for a non-positive limit). */
  function View(b: Budget): (v: BudgetView)
    ensures v.budget == b
    ensures v.remaining + b.spent == b.amount
    ensures b.amount <= 0 ==> v.percentUsed == 0
    ensures b.amount > 0 && b.spent >= 0 ==>
      v.percentUsed >= 0 && 2 * v.percentUsed * b.amount - b.amount <= 20000 * b.spent < 2 * v.percentUsed * b.amount + b.amount
    ensures b.amount > 0 && b.spent < 0 ==>
      v.percentUsed <= 0 && 2 * v.percentUsed * b.amount - b.amount < 20000 * b.spent <= 2 * v.percentUsed * b.amount + b.amount
  {
    BudgetView(b, b.amount - b.spent, PercentHundredths(b.spent, b.amount))
  }

  /** BudgetService.findById. */
  function FindById(s: Ledger, id: Id, user: UserId): (r: Result<BudgetView>)
    ensures r.Ok? <==> GetBudget(s, id, user).Ok?
    ensures r.Err? ==> r.error == NotFound("Budget not found")
    ensures r.Ok? ==> r.value.budget == s.budgets[id]
  {
    var b :- GetBudget(s, id, user);
    Ok(View(b))
  }

  function Views(rows: seq<Budget>): (vs: seq<BudgetView>)
    ensures |vs| == |rows|
    ensures forall i :: 0 <= i < |rows| ==> vs[i].budget == rows[i]
  {
    seq(|rows|, i requires 0 <= i < |rows| => View(rows[i]))
  }

  /** BudgetService.findAllByMonthAndYear: exactly the user's budgets of that
      period. */
  function FindAllByMonthAndYear(s: Ledger, user: UserId, month: int, year: int): (vs: seq<BudgetView>)
    ensures forall i :: 0 <= i < |vs| ==>
      (vs[i].budget in s.budgets.Values && vs[i].budget.owner == user
       && vs[i].budget.month == month && vs[i].budget.year == year)
    ensures forall k :: (k in s.budgets && s.budgets[k].owner == user && s.budgets[k].month == month
                         && s.budgets[k].year == year) ==> exists i :: 0 <= i < |vs| && vs[i].budget == s.budgets[k]
  {
    var rows := Select(s.budgets, (b: Budget) => b.owner == user && b.month == month && b.year == year);
    var vs := Views(rows);
    assert forall k :: (k in s.budgets && s.budgets[k].owner == user && s.budgets[k].month == month
                        && s.budgets[k].year == year) ==> s.budgets[k] in rows;
    vs
  }

  /** BudgetService.create: rejects a second budget for the same category and
      period before it even looks the category up; a new budget has spent
      nothing and is ACTIVE. */
  function Create(s: Ledger, req: BudgetRequest, user: UserId, id: Id): (r: Result<(Ledger, Budget)>)
    requires req.Complete()
    requires id !in s.budgets
    ensures Exists(s.budgets, user, req.categoryId.value, req.month.value, req.year.value) ==>
      r == Err(Business("Budget already exists for this category and period"))
    ensures (!Exists(s.budgets, user, req.categoryId.value, req.month.value, req.year.value)
             && Categories.GetCategory(s, req.categoryId.value, user).Err?) ==> r == Err(NotFound("Category not found"))
    ensures r.Ok? <==> (!Exists(s.budgets, user, req.categoryId.value, req.month.value, req.year.value)
                        && Categories.GetCategory(s, req.categoryId.value, user).Ok?)
    ensures r.Ok? ==> (r.value.1.spent == 0 && r.value.1.status == Active && r.value.1.owner == user
                       && r.value.1.amount == req.amount.value
                       && ForPeriod(r.value.1, user, req.categoryId.value, req.month.value, req.year.value))
    ensures r.Ok? ==> r.value.0 == s.(budgets := s.budgets[id := r.value.1])
  {
    if Exists(s.budgets, user, req.categoryId.value, req.month.value, req.year.value) then
      Err(Business("Budget already exists for this category and period"))
    else
      var _ :- Categories.GetCategory(s, req.categoryId.value, user);
      var budget := Budget(user, req.categoryId.value, req.amount.value, 0, req.month.value, req.year.value, Active);
      Ok((s.(budgets := s.budgets[id := budget]), budget))
  }

  /** Create never introduces a second budget for a period. */
  lemma CreatePreservesUniquePeriods(s: Ledger, req: BudgetRequest, user: UserId, id: Id)
    requires req.Complete()
    requires id !in s.budgets
    requires UniquePeriods(s.budgets)
    ensures Create(s, req, user, id).Ok? ==> UniquePeriods(Create(s, req, user, id).value.0.budgets)
  {
    var r := Create(s, req, user, id);
    if r.Ok? {
      var m := r.value.0.budgets;
      forall j, k | j in m && k in m && SamePeriod(m[j], m[k]) ensures j == k {
      }
    }
  }

  /** BudgetService.update: only the limit changes. The status is not
      re-evaluated against the new limit. */
  function Update(s: Ledger, id: Id, req: BudgetRequest, user: UserId): (r: Result<(Ledger, Budget)>)
    requires req.amount.Some?
    ensures r.Err? <==> GetBudget(s, id, user).Err?
    ensures r.Err? ==> r.error == NotFound("Budget not found")
    ensures r.Ok? ==> r.value.1.amount == req.amount.value
    ensures r.Ok? ==> (SamePeriod(s.budgets[id], r.value.1) && r.value.1.spent == s.budgets[id].spent
                       && r.value.1.status == s.budgets[id].status)
    ensures r.Ok? ==> r.value.0 == s.(budgets := s.budgets[id := r.value.1])
  {
    var budget :- GetBudget(s, id, user);
    var updated := budget.(amount := req.amount.value);
    Ok((s.(budgets := s.budgets[id := updated]), updated))
  }

  lemma UpdatePreservesUniquePeriods(s: Ledger, id: Id, req: BudgetRequest, user: UserId)
    requires req.amount.Some?
    requires UniquePeriods(s.budgets)
    ensures Update(s, id, req, user).Ok? ==> UniquePeriods(Update(s, id, req, user).value.0.budgets)
  {
    var r := Update(s, id, req, user);
    if r.Ok? {
      var m := r.value.0.budgets;
      forall j, k | j in m && k in m && SamePeriod(m[j], m[k]) ensures j == k {
        assert SamePeriod(s.budgets[j], s.budgets[k]);
      }
    }
  }

  /** BudgetService.delete. */
  function Delete(s: Ledger, id: Id, user: UserId): (r: Result<Ledger>)
    ensures r.Err? <==> GetBudget(s, id, user).Err?
    ensures r.Err? ==> r.error == NotFound("Budget not found")
    ensures r.Ok? ==> r.value == s.(budgets := s.budgets - {id})
    ensures r.Ok? ==> !Exists(r.value.budgets, user, s.budgets[id].category, s.budgets[id].month, s.budgets[id].year)
                      || !UniquePeriods(s.budgets)
  {
    var _ :- GetBudget(s, id, user);
    Ok(s.(budgets := s.budgets - {id}))
  }

  /** A budget after `amount` more has been spent; EXCEEDED exactly when the
      spent amount has reached the limit, ACTIVE otherwise. */
  function Spend(b: Budget, amount: Cents): (b': Budget)
    ensures b'.spent == b.spent + amount
    ensures b'.status == Exceeded <==> b'.spent >= b.amount
    ensures b'.status == Active <==> b'.spent < b.amount
    ensures SamePeriod(b, b') && b'.amount == b.amount
  {
    var spent := b.spent + amount;
    b.(spent := spent, status := if spent >= b.amount then Exceeded else Active)
  }

  /** BudgetService.updateSpentAmount: adds `amount` to the budget of that
      user, category and period, if there is one; every other budget is left
      alone. The source finds that budget through an Optional, which would
      throw on a second match; under the unique (user, category, month,
      year) constraint there is never one, and UpdateSpentTouchesAtMostOne
      shows that then at most one budget changes here too. */
  function UpdateSpent(budgets: map<Id, Budget>, user: UserId, category: Id, month: int, year: int, amount: Cents)
    : (r: map<Id, Budget>)
    ensures r.Keys == budgets.Keys
    ensures forall k :: k in budgets && !ForPeriod(budgets[k], user, category, month, year) ==> r[k] == budgets[k]
    ensures forall k :: k in budgets && ForPeriod(budgets[k], user, category, month, year) ==>
      r[k].spent == budgets[k].spent + amount && r[k].amount == budgets[k].amount
      && (r[k].status == Exceeded <==> r[k].spent >= r[k].amount)
      && (r[k].status == Active <==> r[k].spent < r[k].amount)
    ensures !Exists(budgets, user, category, month, year) ==> r == budgets
  {
    map k | k in budgets :: if ForPeriod(budgets[k], user, category, month, year) then Spend(budgets[k], amount) else budgets[k]
  }

  lemma UpdateSpentPreservesUniquePeriods(budgets: map<Id, Budget>, user: UserId, category: Id, month: int, year: int, amount: Cents)
    requires UniquePeriods(budgets)
    ensures UniquePeriods(UpdateSpent(budgets, user, category, month, year, amount))
  {
    var m := UpdateSpent(budgets, user, category, month, year, amount);
    forall j, k | j in m && k in m && SamePeriod(m[j], m[k]) ensures j == k {
      assert SamePeriod(budgets[j], budgets[k]);
    }
  }

  /** Two expenses in a period weigh on the budget exactly as one expense of
      their total: the status depends only on the accumulated amount. */
  lemma UpdateSpentAccumulates(budgets: map<Id, Budget>, user: UserId, category: Id, month: int, year: int, x: Cents, y: Cents)
    ensures UpdateSpent(UpdateSpent(budgets, user, category, month, year, x), user, category, month, year, y)
         == UpdateSpent(budgets, user, category, month, year, x + y)
  {
    var once := UpdateSpent(budgets, user, category, month, year, x);
    var twice := UpdateSpent(once, user, category, month, year, y);
    var direct := UpdateSpent(budgets, user, category, month, year, x + y);
    forall k | k in budgets ensures twice[k] == direct[k] {
      if ForPeriod(budgets[k], user, category, month, year) {
        assert ForPeriod(once[k], user, category, month, year);
      }
    }
  }

  /** Under the unique constraint an expense changes at most one budget. */
  lemma UpdateSpentTouchesAtMostOne(budgets: map<Id, Budget>, user: UserId, category: Id, month: int, year: int, amount: Cents, j: Id, k: Id)
    requires UniquePeriods(budgets)
    requires j in budgets && k in budgets
    requires UpdateSpent(budgets, user, category, month, year, amount)[j] != budgets[j]
    requires UpdateSpent(budgets, user, category, month, year, amount)[k] != budgets[k]
    ensures j == k
  {
    assert SamePeriod(budgets[j], budgets[k]);
  }

  /** A budget whose spending has reached its limit shows at least 100 %. */
  lemma ExceededShowsFullPercent(b: Budget)
    requires b.amount > 0 && b.spent >= b.amount
    ensures View(b).percentUsed >= 10000
    ensures View(b).remaining <= 0
  {
    PercentOfMultiple(b.amount, 1);
    PercentMonotonic(b.amount, b.spent, b.amount);
  }

  /** The converse fails: the percentage is rounded to two decimals, so a
      budget 0.01 short of a 1000.00 limit is still ACTIVE yet shows 100 %. */
  lemma NearlySpentShowsFullPercent()
    ensures var b := Spend(Budget(0, 0, 100000, 0, 1, 2025, Active), 99999);
      b.status == Active && View(b).percentUsed == 10000
  {
    var b := Spend(Budget(0, 0, 100000, 0, 1, 2025, Active), 99999);
    RoundHalfUpDivUnique(99999 * 10000, 100000, 10000);
  }

  /** A new budget shows nothing used and its whole limit remaining. */
  lemma NewBudgetShowsNothingUsed(s: Ledger, req: BudgetRequest, user: UserId, id: Id)
    requires req.Complete()
    requires id !in s.budgets
    requires Create(s, req, user, id).Ok?
    ensures View(Create(s, req, user, id).value.1).percentUsed == 0
    ensures View(Create(s, req, user, id).value.1).remaining == req.amount.value
  {
  }

  /** The cases of the service tests: 450.00 spent of 500.00 plus 100.00 is
      EXCEEDED; 100.00 spent plus 50.00 of the same limit is still ACTIVE. */
  lemma TestedSpending(b: Budget)
    requires b.amount == 50000
    ensures b.spent == 45000 ==> Spend(b, 10000).status == Exceeded
    ensures b.spent == 10000 ==> Spend(b, 5000).status == Active && Spend(b, 5000).spent == 15000
  {
  }
}
