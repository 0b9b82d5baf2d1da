/** InstallmentService: a purchase split into monthly installments, each
    paid through the transaction engine as a completed expense. */
module Installments {
  import opened Common
  import opened Dates
  import opened Entities
  import opened Requests
  import opened Balances
  import Accounts
  import Transactions
  import Budgets

  // ---------------------------------------------------------------------------
  // Splitting a total

  /** BigDecimal.divide with RoundingMode.DOWN on whole cents: the quotient
      truncated towards zero (Dafny's own / rounds towards minus infinity for
      a negative dividend). */
  function DivideDown(a: int, b: int): (q: int)
    requires b > 0
    ensures a >= 0 ==> q >= 0 && q * b <= a < q * b + b
    ensures a < 0 ==> q <= 0 && q * b - b < a <= q * b
  {
    if a >= 0 then
      EuclideanQuotient(a, b);
      a / b
    else
      var q := (-a) / b;
      EuclideanQuotient(-a, b);
      assert (-q) * b == -(q * b);
      -q
  }

  /** Dafny's / on a non-negative dividend is already the truncated quotient. */
  lemma EuclideanQuotient(a: int, b: int)
    requires a >= 0 && b > 0
    ensures a / b >= 0 && (a / b) * b <= a < (a / b) * b + b
  {
    assert a == (a / b) * b + a % b;
  }

  /** The common amount of every installment: the total divided by the
      count, truncated to whole cents. */
  function BaseAmount(total: Cents, count: int): (base: Cents)
    requires count > 0
    ensures total >= 0 ==> base >= 0 && base * count <= total < base * count + count
    ensures total < 0 ==> base <= 0 && base * count - count < total <= base * count
  {
    DivideDown(total, count)
  }

  /** The cents the division leaves over; installment 1 carries them. */
  function Remainder(total: Cents, count: int): (rem: Cents)
    requires count > 0
    ensures total >= 0 ==> 0 <= rem < count
    ensures total < 0 ==> -count < rem <= 0
    ensures BaseAmount(total, count) * count + rem == total
  {
    total - BaseAmount(total, count) * count
  }

  /** InstallmentService.generateInstallments: installment i + 1 of count is
      due i months after the start; all start PENDING with no transaction.
      A negative count gives no installments (the loop does not run). */
  function Generate(total: Cents, count: int, start: LocalDate): (xs: seq<Installment>)
    requires count != 0
    ensures count < 0 ==> xs == []
    ensures count > 0 ==> |xs| == count
    ensures forall i :: 0 <= i < |xs| ==>
      xs[i].number == i + 1 && xs[i].dueDate == PlusMonths(start, i)
      && xs[i].status == InstallmentStatus.Pending && xs[i].transaction.None?
    ensures |xs| > 0 ==> xs[0].amount == BaseAmount(total, count) + Remainder(total, count)
    ensures forall i :: 1 <= i < |xs| ==> xs[i].amount == BaseAmount(total, count)
  {
    if count < 0 then []
    else
      var base := BaseAmount(total, count);
      var rem := Remainder(total, count);
      seq(count, i requires 0 <= i < count =>
        Installment(i + 1, if i == 0 then base + rem else base, PlusMonths(start, i), InstallmentStatus.Pending, None))
  }

  /** The sum of the installment amounts. */
  function AmountSum(xs: seq<Installment>): Cents {
    if xs == [] then 0 else xs[0].amount + AmountSum(xs[1..])
  }

  lemma {:induction false} AmountSumOfEqualParts(xs: seq<Installment>, base: Cents)
    requires forall i :: 0 <= i < |xs| ==> xs[i].amount == base
    ensures AmountSum(xs) == |xs| * base
  {
    if xs != [] {
      AmountSumOfEqualParts(xs[1..], base);
    }
  }

  /** The installments add up exactly to the total: no cent is lost or
      invented by the truncated division. */
  lemma GeneratedAmountsSumToTotal(total: Cents, count: int, start: LocalDate)
    requires count > 0
    ensures AmountSum(Generate(total, count, start)) == total
  {
    var xs := Generate(total, count, start);
    var base, rem := BaseAmount(total, count), Remainder(total, count);
    AmountSumOfEqualParts(xs[1..], base);
    OneLessPart(count, base);
  }

  lemma OneLessPart(count: int, base: Cents)
    ensures (count - 1) * base == base * count - base
  {
  }

  /** The split of the first concrete case: 100.00 in three is 33.34, 33.33
      and 33.33. */
  lemma SplitOfOneHundredInThree(start: LocalDate)
    ensures var xs := Generate(10000, 3, start);
      |xs| == 3 && xs[0].amount == 3334 && xs[1].amount == 3333 && xs[2].amount == 3333
  {
  }

  // ---------------------------------------------------------------------------
  // The service

  /** InstallmentGroupRepository.findByIdAndUserId, failing as the service
      does. */
  function GetGroup(s: Ledger, id: Id, user: UserId): (r: Result<InstallmentGroup>)
    ensures r.Ok? <==> id in s.groups && s.groups[id].owner == user
    ensures r.Ok? ==> r.value == s.groups[id]
    ensures r.Err? ==> r.error == NotFound("Installment group not found")
  {
    if id in s.groups && s.groups[id].owner == user then Ok(s.groups[id])
    else Err(NotFound("Installment group not found"))
  }

  /** InstallmentService.findAll, before paging: exactly the user's
      installment groups. */
  function FindAll(s: Ledger, user: UserId): (rows: seq<InstallmentGroup>)
    ensures forall i :: 0 <= i < |rows| ==> rows[i] in s.groups.Values && rows[i].owner == user
    ensures forall k :: k in s.groups && s.groups[k].owner == user ==> s.groups[k] in rows
  {
    Select(s.groups, (g: InstallmentGroup) => g.owner == user)
  }

  /** InstallmentRepository.findByIdAndGroupUserId: an installment of one of
      the user's groups. */
  function GetInstallment(s: Ledger, ref: InstallmentRef, user: UserId): (r: Result<Installment>)
    ensures r.Ok? <==> ref.group in s.groups && s.groups[ref.group].owner == user
                       && ref.index < |s.groups[ref.group].installments|
    ensures r.Ok? ==> r.value == s.groups[ref.group].installments[ref.index]
    ensures r.Err? ==> r.error == NotFound("Installment not found")
  {
    if ref.group in s.groups && s.groups[ref.group].owner == user && ref.index < |s.groups[ref.group].installments|
    then Ok(s.groups[ref.group].installments[ref.index])
    else Err(NotFound("Installment not found"))
  }

  /** InstallmentService.create: the account must be the user's, then the
      category if one is given; a count of zero makes the division fail. */
  function Create(s: Ledger, req: InstallmentRequest, user: UserId, id: Id): (r: Result<(Ledger, InstallmentGroup)>)
    requires req.Complete()
    requires id !in s.groups
    ensures Accounts.GetAccount(s, req.accountId.value, user).Err? ==> r == Err(NotFound("Account not found"))
    ensures Accounts.GetAccount(s, req.accountId.value, user).Ok? && Transactions.CheckCategory(s, req.categoryId, user).Err? ==>
      r == Err(NotFound("Category not found"))
    ensures r.Ok? <==> Accounts.GetAccount(s, req.accountId.value, user).Ok?
                       && Transactions.CheckCategory(s, req.categoryId, user).Ok? && req.installmentCount.value != 0
    ensures r.Err? && !r.error.NotFound? ==> r.error.Unexpected? && req.installmentCount.value == 0
    ensures r.Ok? ==> r.value.1.owner == user && r.value.1.account == req.accountId.value
                      && r.value.1.category == req.categoryId && r.value.1.description == req.description.value
                      && r.value.1.totalAmount == req.totalAmount.value && r.value.1.count == req.installmentCount.value
                      && r.value.1.startDate == req.startDate.value && r.value.1.notes == req.notes
    ensures r.Ok? ==> r.value.1.installments == Generate(req.totalAmount.value, req.installmentCount.value, req.startDate.value)
    ensures r.Ok? ==> r.value.0 == s.(groups := s.groups[id := r.value.1])
  {
    var _ :- Accounts.GetAccount(s, req.accountId.value, user);
    var _ :- Transactions.CheckCategory(s, req.categoryId, user);
    if req.installmentCount.value == 0 then Err(Unexpected("Division by zero"))
    else
      var group := InstallmentGroup(user, req.accountId.value, req.categoryId, req.description.value,
                                    req.totalAmount.value, req.installmentCount.value, req.startDate.value, req.notes,
                                    Generate(req.totalAmount.value, req.installmentCount.value, req.startDate.value));
      Ok((s.(groups := s.groups[id := group]), group))
  }

  /** The description of the expense that pays installment n of count:
      "description (n/count)". */
  function PaymentDescription(description: string, n: int, count: int): (d: string)
    ensures |d| > |description| + 5 && d[..|description|] == description
    ensures d[|description|] == ' ' && d[|description| + 1] == '(' && d[|d| - 1] == ')'
    ensures d[|description| + 2 .. |d| - 1] == IntToDecimal(n) + "/" + IntToDecimal(count)
  {
    var numbers := IntToDecimal(n) + "/" + IntToDecimal(count);
    PartsOfBracketed(description, numbers);
    description + " (" + numbers + ")"
  }

  /** Where each part of "prefix (inner)" sits. */
  lemma PartsOfBracketed(prefix: string, inner: string)
    ensures var d := prefix + " (" + inner + ")";
      |d| == |prefix| + |inner| + 3 && d[..|prefix|] == prefix
      && d[|prefix|] == ' ' && d[|prefix| + 1] == '(' && d[|d| - 1] == ')'
      && d[|prefix| + 2 .. |d| - 1] == inner
  {
    var opening := prefix + " (";
    var d := opening + inner + ")";
    assert d[..|opening| + |inner|] == opening + inner;
    assert (opening + inner)[..|opening|] == opening && (opening + inner)[|opening|..] == inner;
    assert opening[..|prefix|] == prefix;
  }

  /** Each installment of a plan is paid by an expense with its own
      description: different numbers never give the same text. */
  lemma PaymentDescriptionsDiffer(description: string, n: nat, m: nat, count: int)
    requires n != m
    ensures PaymentDescription(description, n, count) != PaymentDescription(description, m, count)
  {
    var dn, dm, dc := NatToDecimal(n), NatToDecimal(m), IntToDecimal(count);
    var a := PaymentDescription(description, n, count);
    var b := PaymentDescription(description, m, count);
    var p := |description| + 2;
    if |dn| != |dm| {
      assert |a| != |b|;
    } else {
      var inA, inB := dn + "/" + dc, dm + "/" + dc;
      assert a[p..|a| - 1] == inA && b[p..|b| - 1] == inB;
      assert inA[..|dn|] == dn && inB[..|dm|] == dm;
      assert dn != dm by { assert DecimalValue(dn) != DecimalValue(dm); }
      assert inA != inB;
    }
  }

  /** The transaction request payInstallment builds: a COMPLETED EXPENSE on
      the group's account and category, dated on the day of payment. */
  function PaymentRequest(g: InstallmentGroup, x: Installment, today: LocalDate): (req: TransactionRequest)
    ensures req.Complete()
    ensures req.accountId == Some(g.account) && req.categoryId == g.category && req.destinationAccountId.None?
    ensures req.amount == Some(x.amount) && req.kind == Some(Expense) && req.status == Some(TransactionStatus.Completed)
    ensures req.transactionDate == Some(today) && req.notes.None?
    ensures req.description == Some(PaymentDescription(g.description, x.number, g.count))
  {
    TransactionRequest(Some(g.account), g.category, None, Some(PaymentDescription(g.description, x.number, g.count)),
                       Some(x.amount), Some(Expense), Some(TransactionStatus.Completed), Some(today), None)
  }

  /** t is the expense that pays installment x of group g. */
  predicate Paying(t: Transaction, g: InstallmentGroup, x: Installment, user: UserId, today: LocalDate) {
    t.owner == user && t.kind == Expense && t.status == TransactionStatus.Completed && t.account == g.account
    && t.category == g.category && t.destination.None? && t.amount == x.amount && t.date == today
    && t.description == PaymentDescription(g.description, x.number, g.count)
  }

  /** InstallmentService.payInstallment. txId and createdAt are the id and
      the creation time of the expense it records. */
  function Pay(s: Ledger, ref: InstallmentRef, user: UserId, today: LocalDate, txId: Id, createdAt: int)
    : (r: Result<(Ledger, Installment)>)
    requires txId !in s.transactions
    ensures GetInstallment(s, ref, user).Err? ==> r == Err(NotFound("Installment not found"))
    ensures GetInstallment(s, ref, user).Ok? && GetInstallment(s, ref, user).value.status == InstallmentStatus.Completed ==>
      r == Err(Business("Installment already paid"))
    ensures GetInstallment(s, ref, user).Ok? && GetInstallment(s, ref, user).value.status == InstallmentStatus.Cancelled ==>
      r == Err(Business("Installment is cancelled"))
    ensures GetInstallment(s, ref, user).Ok? && GetInstallment(s, ref, user).value.status == InstallmentStatus.Pending ==>
      var g := s.groups[ref.group];
      var created := Transactions.Create(s, PaymentRequest(g, g.installments[ref.index], today), user, txId, createdAt);
      (r.Ok? <==> created.Ok?) && (created.Err? ==> r == Err(created.error))
    ensures r.Ok? ==> ref.group in s.groups && ref.index < |s.groups[ref.group].installments|
                      && s.groups[ref.group].installments[ref.index].status == InstallmentStatus.Pending
    ensures r.Ok? ==> (ref.group in s.groups && ref.index < |s.groups[ref.group].installments|
                       && r.value.1 == s.groups[ref.group].installments[ref.index].(status := InstallmentStatus.Completed,
                                                                                     transaction := Some(txId)))
    ensures r.Ok? ==> (ref.group in s.groups && ref.index < |s.groups[ref.group].installments| && txId in r.value.0.transactions
                       && Paying(r.value.0.transactions[txId], s.groups[ref.group], s.groups[ref.group].installments[ref.index], user, today))
  {
    var x :- GetInstallment(s, ref, user);
    if x.status == InstallmentStatus.Completed then Err(Business("Installment already paid"))
    else if x.status == InstallmentStatus.Cancelled then Err(Business("Installment is cancelled"))
    else
      assert x == s.groups[ref.group].installments[ref.index] && x.status == InstallmentStatus.Pending;
      var g := s.groups[ref.group];
      var created :- Transactions.Create(s, PaymentRequest(g, x, today), user, txId, createdAt);
      var s' := created.0;
      assert s'.transactions[txId] == created.1;
      assert Paying(created.1, g, x, user, today);
      var paid := x.(status := InstallmentStatus.Completed, transaction := Some(txId));
      Ok((s'.(groups := s'.groups[ref.group := g.(installments := g.installments[ref.index := paid])]), paid))
  }

  /** Paying an installment debits the group's account by exactly its
      amount, moves no other balance, and changes no other installment. */
  lemma PayDebitsTheAccount(s: Ledger, ref: InstallmentRef, user: UserId, today: LocalDate, txId: Id, createdAt: int)
    requires txId !in s.transactions
    requires Pay(s, ref, user, today, txId, createdAt).Ok?
    ensures var s' := Pay(s, ref, user, today, txId, createdAt).value.0;
      var g := s.groups[ref.group];
      s'.accounts.Keys == s.accounts.Keys
      && g.account in s.accounts
      && s'.accounts[g.account].balance == s.accounts[g.account].balance - g.installments[ref.index].amount
      && (forall k :: k in s.accounts && k != g.account ==> s'.accounts[k] == s.accounts[k])
    ensures var s' := Pay(s, ref, user, today, txId, createdAt).value.0;
      var g := s.groups[ref.group];
      s'.groups.Keys == s.groups.Keys
      && (forall k :: k in s.groups && k != ref.group ==> s'.groups[k] == s.groups[k])
      && |s'.groups[ref.group].installments| == |g.installments|
      && (forall i :: 0 <= i < |g.installments| && i != ref.index ==>
            s'.groups[ref.group].installments[i] == g.installments[i])
      && s'.groups[ref.group].installments[ref.index] == Pay(s, ref, user, today, txId, createdAt).value.1
  {
    var g := s.groups[ref.group];
    var x := g.installments[ref.index];
    var created := Transactions.Create(s, PaymentRequest(g, x, today), user, txId, createdAt).value;
    assert Applied(s.accounts, created.0.accounts, created.1);
  }

  /** The expense goes through the transaction service, so it also weighs on
      the budget of the group's category for the month of payment; the
      other transactions, the goals and the categories stay as they were. */
  lemma PayRecordsTheExpense(s: Ledger, ref: InstallmentRef, user: UserId, today: LocalDate, txId: Id, createdAt: int)
    requires txId !in s.transactions
    requires Pay(s, ref, user, today, txId, createdAt).Ok?
    ensures var s' := Pay(s, ref, user, today, txId, createdAt).value.0;
      s'.transactions.Keys == s.transactions.Keys + {txId}
      && (forall k :: k in s.transactions ==> s'.transactions[k] == s.transactions[k])
    ensures var s' := Pay(s, ref, user, today, txId, createdAt).value.0;
      var g := s.groups[ref.group];
      g.category.Some? ==>
        s'.budgets == Budgets.UpdateSpent(s.budgets, user, g.category.value, today.month, today.year,
                                          g.installments[ref.index].amount)
    ensures var s' := Pay(s, ref, user, today, txId, createdAt).value.0;
      s.groups[ref.group].category.None? ==> s'.budgets == s.budgets
    ensures var s' := Pay(s, ref, user, today, txId, createdAt).value.0;
      s'.goals == s.goals && s'.categories == s.categories
  {
    var g := s.groups[ref.group];
    var x := g.installments[ref.index];
    var created := Transactions.Create(s, PaymentRequest(g, x, today), user, txId, createdAt).value;
    assert Paying(created.1, g, x, user, today);
  }

  /** Every PENDING installment becomes CANCELLED; paid and already
      cancelled ones stay as they are. */
  function CancelPending(xs: seq<Installment>): (ys: seq<Installment>)
    ensures |ys| == |xs|
    ensures forall i :: 0 <= i < |xs| ==> ys[i].status == (if xs[i].status == InstallmentStatus.Pending
                                                           then InstallmentStatus.Cancelled else xs[i].status)
    ensures forall i :: 0 <= i < |xs| ==> ys[i] == xs[i].(status := ys[i].status)
  {
    seq(|xs|, i requires 0 <= i < |xs| =>
      if xs[i].status == InstallmentStatus.Pending then xs[i].(status := InstallmentStatus.Cancelled) else xs[i])
  }

  /** InstallmentService.cancel. */
  function Cancel(s: Ledger, id: Id, user: UserId): (r: Result<Ledger>)
    ensures r.Err? <==> GetGroup(s, id, user).Err?
    ensures r.Err? ==> r.error == NotFound("Installment group not found")
    ensures r.Ok? ==> (id in s.groups
      && r.value == s.(groups := s.groups[id := s.groups[id].(installments := CancelPending(s.groups[id].installments))]))
  {
    var g :- GetGroup(s, id, user);
    Ok(s.(groups := s.groups[id := g.(installments := CancelPending(g.installments))]))
  }

  /** Cancelling twice is cancelling once. */
  lemma CancelIsIdempotent(s: Ledger, id: Id, user: UserId)
    requires Cancel(s, id, user).Ok?
    ensures Cancel(Cancel(s, id, user).value, id, user) == Cancel(s, id, user)
  {
    var once := Cancel(s, id, user).value;
    var twice := Cancel(once, id, user).value;
    assert twice.groups[id].installments == once.groups[id].installments;
    assert twice.groups == once.groups;
  }

  /** paidCount in toGroupResponse: how many installments are COMPLETED. */
  function PaidCount(xs: seq<Installment>): (n: nat)
    ensures n <= |xs|
  {
    if xs == [] then 0
    else (if xs[0].status == InstallmentStatus.Completed then 1 else 0) + PaidCount(xs[1..])
  }

  /** Two lists whose entries agree on being COMPLETED have the same paid
      count. */
  lemma {:induction false} PaidCountDependsOnStatusOnly(xs: seq<Installment>, ys: seq<Installment>)
    requires |xs| == |ys|
    requires forall i :: 0 <= i < |xs| ==>
      (xs[i].status == InstallmentStatus.Completed <==> ys[i].status == InstallmentStatus.Completed)
    ensures PaidCount(xs) == PaidCount(ys)
  {
    if xs != [] {
      PaidCountDependsOnStatusOnly(xs[1..], ys[1..]);
    }
  }

  /** A new plan has nothing paid. */
  lemma {:induction false} NothingPaidAtFirst(xs: seq<Installment>)
    requires forall i :: 0 <= i < |xs| ==> xs[i].status == InstallmentStatus.Pending
    ensures PaidCount(xs) == 0
  {
    if xs != [] {
      NothingPaidAtFirst(xs[1..]);
    }
  }

  /** Cancelling never changes how many installments are paid. */
  lemma CancelKeepsPaidCount(s: Ledger, id: Id, user: UserId)
    requires Cancel(s, id, user).Ok?
    ensures PaidCount(Cancel(s, id, user).value.groups[id].installments) == PaidCount(s.groups[id].installments)
  {
    PaidCountDependsOnStatusOnly(Cancel(s, id, user).value.groups[id].installments, s.groups[id].installments);
  }

  /** Paying one installment raises the paid count by exactly one. */
  lemma {:induction false} PayingOneCountsOne(xs: seq<Installment>, i: nat, paid: Installment)
    requires i < |xs| && xs[i].status != InstallmentStatus.Completed
    requires paid.status == InstallmentStatus.Completed
    ensures PaidCount(xs[i := paid]) == PaidCount(xs) + 1
  {
    if i > 0 {
      assert xs[i := paid][1..] == xs[1..][i - 1 := paid];
      PayingOneCountsOne(xs[1..], i - 1, paid);
    } else {
      assert xs[i := paid][1..] == xs[1..];
    }
  }

  /** A newly created plan has nothing paid. */
  lemma CreatedPlanHasNothingPaid(s: Ledger, req: InstallmentRequest, user: UserId, id: Id)
    requires req.Complete() && id !in s.groups
    requires Create(s, req, user, id).Ok?
    ensures PaidCount(Create(s, req, user, id).value.1.installments) == 0
  {
    NothingPaidAtFirst(Create(s, req, user, id).value.1.installments);
  }

  /** Each successful payment adds one to the group's paid count. */
  lemma PayCountsOnePayment(s: Ledger, ref: InstallmentRef, user: UserId, today: LocalDate, txId: Id, createdAt: int)
    requires txId !in s.transactions
    requires Pay(s, ref, user, today, txId, createdAt).Ok?
    ensures ref.group in Pay(s, ref, user, today, txId, createdAt).value.0.groups
    ensures PaidCount(Pay(s, ref, user, today, txId, createdAt).value.0.groups[ref.group].installments)
         == PaidCount(s.groups[ref.group].installments) + 1
  {
    var r := Pay(s, ref, user, today, txId, createdAt).value;
    var xs := s.groups[ref.group].installments;
    PayDebitsTheAccount(s, ref, user, today, txId, createdAt);
    assert r.0.groups[ref.group].installments == xs[ref.index := r.1];
    PayingOneCountsOne(xs, ref.index, r.1);
  }
}
