/** The request records the API accepts and their Jakarta Bean Validation
    constraints. Any field of a Java record may be null, so every field is an
    Option. The built-in constraints treat null as valid, except @NotNull and
    @NotBlank. */
module Requests {
  import opened Common
  import opened Dates
  import opened Entities

  datatype FieldError = FieldError(field: string, message: string)

  /** Each constraint of each request record that can fail. */
  datatype Violation =
    | AccountRequired
    | DescriptionRequired
    | DescriptionTooLong
    | AmountRequired
    | AmountNotPositive
    | TransactionTypeRequired
    | StatusRequired
    | TransactionDateRequired
    | TotalAmountRequired
    | TotalAmountNotPositive
    | CountRequired
    | CountBelowTwo
    | CountAbove360
    | StartDateRequired
    | CategoryRequired
    | MonthRequired
    | MonthBelowOne
    | MonthAboveTwelve
    | YearRequired
    | YearBefore2000
    | NameRequired
    | NameTooLong
    | TargetRequired
    | TargetNotPositive
    | CurrentRequired
    | CurrentNotPositive
    | AccountTypeRequired
    | BalanceRequired
    | BalanceNegative
    | CurrencyRequired
    | CurrencyNotThreeLetters
    | CategoryTypeRequired
    | ColourNotHex
    | IconTooLong

  /** The field and default message a violation is reported with. */
  function ToFieldError(v: Violation): FieldError {
    match v
    case AccountRequired => FieldError("accountId", "Account is required")
    case DescriptionRequired => FieldError("description", "Description is required")
    case DescriptionTooLong => FieldError("description", "Description must be at most 255 characters")
    case AmountRequired => FieldError("amount", "Amount is required")
    case AmountNotPositive => FieldError("amount", "Amount must be positive")
    case TransactionTypeRequired => FieldError("type", "Transaction type is required")
    case StatusRequired => FieldError("status", "Status is required")
    case TransactionDateRequired => FieldError("transactionDate", "Transaction date is required")
    case TotalAmountRequired => FieldError("totalAmount", "Total amount is required")
    case TotalAmountNotPositive => FieldError("totalAmount", "Total amount must be positive")
    case CountRequired => FieldError("installmentCount", "Installment count is required")
    case CountBelowTwo => FieldError("installmentCount", "Installment count must be at least 2")
    case CountAbove360 => FieldError("installmentCount", "Installment count must be at most 360")
    case StartDateRequired => FieldError("startDate", "Start date is required")
    case CategoryRequired => FieldError("categoryId", "Category is required")
    case MonthRequired => FieldError("month", "Month is required")
    case MonthBelowOne => FieldError("month", "Month must be between 1 and 12")
    case MonthAboveTwelve => FieldError("month", "Month must be between 1 and 12")
    case YearRequired => FieldError("year", "Year is required")
    case YearBefore2000 => FieldError("year", "Year must be 2000 or later")
    case NameRequired => FieldError("name", "Name is required")
    case NameTooLong => FieldError("name", "Name must be at most 100 characters")
    case TargetRequired => FieldError("targetAmount", "Target amount is required")
    case TargetNotPositive => FieldError("targetAmount", "Target amount must be positive")
    case CurrentRequired => FieldError("currentAmount", "Initial amount is required")
    case CurrentNotPositive => FieldError("currentAmount", "Current amount must be positive")
    case AccountTypeRequired => FieldError("type", "Account type is required")
    case BalanceRequired => FieldError("balance", "Initial balance is required")
    case BalanceNegative => FieldError("balance", "Balance must be zero or positive")
    case CurrencyRequired => FieldError("currency", "Currency is required")
    case CurrencyNotThreeLetters => FieldError("currency", "Currency must be a 3-letter code")
    case CategoryTypeRequired => FieldError("type", "Category type is required")
    case ColourNotHex => FieldError("color", "Color must be a valid hex code")
    case IconTooLong => FieldError("icon", "Icon must be at most 50 characters")
  }

  // ---------------------------------------------------------------------------
  // The built-in constraints

  /** @NotBlank: present and, after String.trim() drops every character up to
      U+0020, not empty. */
  predicate NotBlank(v: Option<string>) {
    v.Some? && exists i :: 0 <= i < |v.value| && v.value[i] > ' '
  }

  /** String.length(): the number of UTF-16 code units, so a character
      outside the Basic Multilingual Plane counts twice. */
  function Utf16Length(s: string): (n: nat)
    ensures |s| <= n <= 2 * |s|
    ensures (forall i :: 0 <= i < |s| ==> s[i] as int <= 0xFFFF) ==> n == |s|
    ensures (forall i :: 0 <= i < |s| ==> s[i] as int > 0xFFFF) ==> n == 2 * |s|
    ensures |s| == 1 ==> n == (if s[0] as int > 0xFFFF then 2 else 1)
  {
    if |s| == 0 then 0
    else Utf16Length(s[..|s| - 1]) + (if s[|s| - 1] as int > 0xFFFF then 2 else 1)
  }

  /** The length of a concatenation is the sum of the lengths, so with the
      one-character case it fixes the length of every string. */
  lemma {:induction false} Utf16LengthAdds(a: string, b: string)
    ensures Utf16Length(a + b) == Utf16Length(a) + Utf16Length(b)
    decreases |b|
  {
    if |b| == 0 {
      assert a + b == a;
    } else {
      var front := b[..|b| - 1];
      assert (a + b)[..|a + b| - 1] == a + front;
      assert (a + b)[|a + b| - 1] == b[|b| - 1];
      Utf16LengthAdds(a, front);
    }
  }

  /** @Size(min, max) on a string, which measures String.length(). */
  predicate SizeWithin(v: Option<string>, min: nat, max: nat) {
    v.None? || min <= Utf16Length(v.value) <= max
  }

  /** @Positive */
  predicate Positive(v: Option<int>) {
    v.None? || v.value > 0
  }

  /** @PositiveOrZero */
  predicate PositiveOrZero(v: Option<int>) {
    v.None? || v.value >= 0
  }

  /** @Min(bound) */
  predicate AtLeast(v: Option<int>, bound: int) {
    v.None? || v.value >= bound
  }

  /** @Max(bound) */
  predicate AtMost(v: Option<int>, bound: int) {
    v.None? || v.value <= bound
  }

  predicate IsHexDigit(c: char) {
    '0' <= c <= '9' || 'a' <= c <= 'f' || 'A' <= c <= 'F'
  }

  /** @Pattern("^#([A-Fa-f0-9]{6})$"), matched against the whole value. */
  predicate HexColour(v: Option<string>) {
    v.None? ||
    (|v.value| == 7 && v.value[0] == '#' && forall i :: 1 <= i < 7 ==> IsHexDigit(v.value[i]))
  }

  // ---------------------------------------------------------------------------
  // TransactionRequest

  datatype TransactionRequest = TransactionRequest(
    accountId: Option<Id>,
    categoryId: Option<Id>,
    destinationAccountId: Option<Id>,
    description: Option<string>,
    amount: Option<Cents>,
    kind: Option<TransactionType>,
    status: Option<TransactionStatus>,
    transactionDate: Option<LocalDate>,
    notes: Option<string>)
  {
    /** The fields the transaction service reads without a null check. */
    predicate Complete() {
      accountId.Some? && description.Some? && amount.Some? && kind.Some?
      && status.Some? && transactionDate.Some?
    }
  }

  predicate ValidTransactionRequest(r: TransactionRequest) {
    r.accountId.Some?
    && NotBlank(r.description) && SizeWithin(r.description, 0, 255)
    && r.amount.Some? && Positive(r.amount)
    && r.kind.Some? && r.status.Some? && r.transactionDate.Some?
  }

  /** The constraints declared on TransactionRequest. */
  const TransactionConstraints: set<Violation> :=
    {AccountRequired, DescriptionRequired, DescriptionTooLong, AmountRequired, AmountNotPositive, TransactionTypeRequired, StatusRequired, TransactionDateRequired}

  /** Whether r meets the constraint whose failure is reported as v. */
  predicate TransactionSatisfies(r: TransactionRequest, v: Violation) {
    match v
    case AccountRequired => r.accountId.Some?
    case DescriptionRequired => NotBlank(r.description)
    case DescriptionTooLong => SizeWithin(r.description, 0, 255)
    case AmountRequired => r.amount.Some?
    case AmountNotPositive => Positive(r.amount)
    case TransactionTypeRequired => r.kind.Some?
    case StatusRequired => r.status.Some?
    case TransactionDateRequired => r.transactionDate.Some?
    case _ => true
  }

  /** The violations Bean Validation reports for r, in no particular order. */
  function TransactionViolations(r: TransactionRequest): (errs: set<Violation>)
    ensures errs <= TransactionConstraints
    ensures AccountRequired in errs <==> r.accountId.None?
    ensures DescriptionRequired in errs <==> (r.description.None? || forall i :: 0 <= i < |r.description.value| ==> r.description.value[i] <= ' ')
    ensures DescriptionTooLong in errs <==> r.description.Some? && Utf16Length(r.description.value) > 255
    ensures AmountRequired in errs <==> r.amount.None?
    ensures AmountNotPositive in errs <==> r.amount.Some? && r.amount.value <= 0
    ensures TransactionTypeRequired in errs <==> r.kind.None?
    ensures StatusRequired in errs <==> r.status.None?
    ensures TransactionDateRequired in errs <==> r.transactionDate.None?
  {
    set v | v in TransactionConstraints && !TransactionSatisfies(r, v)
  }

  /** A request is accepted exactly when it breaks none of its constraints. */
  lemma TransactionViolationsEmptyIffValid(r: TransactionRequest)
    ensures TransactionViolations(r) == {} <==> ValidTransactionRequest(r)
  {
    if ValidTransactionRequest(r) {
      forall v | v in TransactionViolations(r) ensures false {
      }
    }
  }

  // ---------------------------------------------------------------------------
  // InstallmentRequest

  datatype InstallmentRequest = InstallmentRequest(
    accountId: Option<Id>,
    categoryId: Option<Id>,
    description: Option<string>,
    totalAmount: Option<Cents>,
    installmentCount: Option<int>,
    startDate: Option<LocalDate>,
    notes: Option<string>)
  {
    predicate Complete() {
      accountId.Some? && description.Some? && totalAmount.Some?
      && installmentCount.Some? && startDate.Some?
    }
  }

  predicate ValidInstallmentRequest(r: InstallmentRequest) {
    r.accountId.Some?
    && NotBlank(r.description) && SizeWithin(r.description, 0, 255)
    && r.totalAmount.Some? && Positive(r.totalAmount)
    && r.installmentCount.Some? && AtLeast(r.installmentCount, 2) && AtMost(r.installmentCount, 360)
    && r.startDate.Some?
  }

  /** The constraints declared on InstallmentRequest. */
  const InstallmentConstraints: set<Violation> :=
    {AccountRequired, DescriptionRequired, DescriptionTooLong, TotalAmountRequired, TotalAmountNotPositive, CountRequired, CountBelowTwo, CountAbove360, StartDateRequired}

  /** Whether r meets the constraint whose failure is reported as v. */
  predicate InstallmentSatisfies(r: InstallmentRequest, v: Violation) {
    match v
    case AccountRequired => r.accountId.Some?
    case DescriptionRequired => NotBlank(r.description)
    case DescriptionTooLong => SizeWithin(r.description, 0, 255)
    case TotalAmountRequired => r.totalAmount.Some?
    case TotalAmountNotPositive => Positive(r.totalAmount)
    case CountRequired => r.installmentCount.Some?
    case CountBelowTwo => AtLeast(r.installmentCount, 2)
    case CountAbove360 => AtMost(r.installmentCount, 360)
    case StartDateRequired => r.startDate.Some?
    case _ => true
  }

  /** The violations Bean Validation reports for r, in no particular order. */
  function InstallmentViolations(r: InstallmentRequest): (errs: set<Violation>)
    ensures errs <= InstallmentConstraints
    ensures AccountRequired in errs <==> r.accountId.None?
    ensures DescriptionRequired in errs <==> (r.description.None? || forall i :: 0 <= i < |r.description.value| ==> r.description.value[i] <= ' ')
    ensures DescriptionTooLong in errs <==> r.description.Some? && Utf16Length(r.description.value) > 255
    ensures TotalAmountRequired in errs <==> r.totalAmount.None?
    ensures TotalAmountNotPositive in errs <==> r.totalAmount.Some? && r.totalAmount.value <= 0
    ensures CountRequired in errs <==> r.installmentCount.None?
    ensures CountBelowTwo in errs <==> r.installmentCount.Some? && r.installmentCount.value < 2
    ensures CountAbove360 in errs <==> r.installmentCount.Some? && r.installmentCount.value > 360
    ensures StartDateRequired in errs <==> r.startDate.None?
  {
    set v | v in InstallmentConstraints && !InstallmentSatisfies(r, v)
  }

  /** A request is accepted exactly when it breaks none of its constraints. */
  lemma InstallmentViolationsEmptyIffValid(r: InstallmentRequest)
    ensures InstallmentViolations(r) == {} <==> ValidInstallmentRequest(r)
  {
    if ValidInstallmentRequest(r) {
      forall v | v in InstallmentViolations(r) ensures false {
      }
    }
  }

  // ---------------------------------------------------------------------------
  // BudgetRequest

  datatype BudgetRequest = BudgetRequest(
    categoryId: Option<Id>,
    amount: Option<Cents>,
    month: Option<int>,
    year: Option<int>)
  {
    predicate Complete() {
      categoryId.Some? && amount.Some? && month.Some? && year.Some?
    }
  }

  predicate ValidBudgetRequest(r: BudgetRequest) {
    r.categoryId.Some?
    && r.amount.Some? && Positive(r.amount)
    && r.month.Some? && AtLeast(r.month, 1) && AtMost(r.month, 12)
    && r.year.Some? && AtLeast(r.year, 2000)
  }

  /** The constraints declared on BudgetRequest. */
  const BudgetConstraints: set<Violation> :=
    {CategoryRequired, AmountRequired, AmountNotPositive, MonthRequired, MonthBelowOne, MonthAboveTwelve, YearRequired, YearBefore2000}

  /** Whether r meets the constraint whose failure is reported as v. */
  predicate BudgetSatisfies(r: BudgetRequest, v: Violation) {
    match v
    case CategoryRequired => r.categoryId.Some?
    case AmountRequired => r.amount.Some?
    case AmountNotPositive => Positive(r.amount)
    case MonthRequired => r.month.Some?
    case MonthBelowOne => AtLeast(r.month, 1)
    case MonthAboveTwelve => AtMost(r.month, 12)
    case YearRequired => r.year.Some?
    case YearBefore2000 => AtLeast(r.year, 2000)
    case _ => true
  }

  /** The violations Bean Validation reports for r, in no particular order. */
  function BudgetViolations(r: BudgetRequest): (errs: set<Violation>)
    ensures errs <= BudgetConstraints
    ensures CategoryRequired in errs <==> r.categoryId.None?
    ensures AmountRequired in errs <==> r.amount.None?
    ensures AmountNotPositive in errs <==> r.amount.Some? && r.amount.value <= 0
    ensures MonthRequired in errs <==> r.month.None?
    ensures MonthBelowOne in errs <==> r.month.Some? && r.month.value < 1
    ensures MonthAboveTwelve in errs <==> r.month.Some? && r.month.value > 12
    ensures YearRequired in errs <==> r.year.None?
    ensures YearBefore2000 in errs <==> r.year.Some? && r.year.value < 2000
  {
    set v | v in BudgetConstraints && !BudgetSatisfies(r, v)
  }

  /** A request is accepted exactly when it breaks none of its constraints. */
  lemma BudgetViolationsEmptyIffValid(r: BudgetRequest)
    ensures BudgetViolations(r) == {} <==> ValidBudgetRequest(r)
  {
    if ValidBudgetRequest(r) {
      forall v | v in BudgetViolations(r) ensures false {
      }
    }
  }

  // ---------------------------------------------------------------------------
  // GoalRequest

  datatype GoalRequest = GoalRequest(
    name: Option<string>,
    targetAmount: Option<Cents>,
    currentAmount: Option<Cents>,
    deadline: Option<LocalDate>,
    notes: Option<string>)
  {
    /** currentAmount is not among them: the goal service checks it for null. */
    predicate Complete() {
      name.Some? && targetAmount.Some?
    }
  }

  predicate ValidGoalRequest(r: GoalRequest) {
    NotBlank(r.name) && SizeWithin(r.name, 0, 100)
    && r.targetAmount.Some? && Positive(r.targetAmount)
    && r.currentAmount.Some? && Positive(r.currentAmount)
  }

  /** The constraints declared on GoalRequest. */
  const GoalConstraints: set<Violation> :=
    {NameRequired, NameTooLong, TargetRequired, TargetNotPositive, CurrentRequired, CurrentNotPositive}

  /** Whether r meets the constraint whose failure is reported as v. */
  predicate GoalSatisfies(r: GoalRequest, v: Violation) {
    match v
    case NameRequired => NotBlank(r.name)
    case NameTooLong => SizeWithin(r.name, 0, 100)
    case TargetRequired => r.targetAmount.Some?
    case TargetNotPositive => Positive(r.targetAmount)
    case CurrentRequired => r.currentAmount.Some?
    case CurrentNotPositive => Positive(r.currentAmount)
    case _ => true
  }

  /** The violations Bean Validation reports for r, in no particular order. */
  function GoalViolations(r: GoalRequest): (errs: set<Violation>)
    ensures errs <= GoalConstraints
    ensures NameRequired in errs <==> (r.name.None? || forall i :: 0 <= i < |r.name.value| ==> r.name.value[i] <= ' ')
    ensures NameTooLong in errs <==> r.name.Some? && Utf16Length(r.name.value) > 100
    ensures TargetRequired in errs <==> r.targetAmount.None?
    ensures TargetNotPositive in errs <==> r.targetAmount.Some? && r.targetAmount.value <= 0
    ensures CurrentRequired in errs <==> r.currentAmount.None?
    ensures CurrentNotPositive in errs <==> r.currentAmount.Some? && r.currentAmount.value <= 0
  {
    set v | v in GoalConstraints && !GoalSatisfies(r, v)
  }

  /** A request is accepted exactly when it breaks none of its constraints. */
  lemma GoalViolationsEmptyIffValid(r: GoalRequest)
    ensures GoalViolations(r) == {} <==> ValidGoalRequest(r)
  {
    if ValidGoalRequest(r) {
      forall v | v in GoalViolations(r) ensures false {
      }
    }
  }

  // ---------------------------------------------------------------------------
  // AccountRequest

  datatype AccountRequest = AccountRequest(
    name: Option<string>,
    kind: Option<AccountType>,
    balance: Option<Cents>,
    currency: Option<string>)
  {
    predicate Complete() {
      name.Some? && kind.Some? && balance.Some? && currency.Some?
    }
  }

  predicate ValidAccountRequest(r: AccountRequest) {
    NotBlank(r.name) && SizeWithin(r.name, 0, 100)
    && r.kind.Some?
    && r.balance.Some? && PositiveOrZero(r.balance)
    && NotBlank(r.currency) && SizeWithin(r.currency, 3, 3)
  }

  /** The constraints declared on AccountRequest. */
  const AccountConstraints: set<Violation> :=
    {NameRequired, NameTooLong, AccountTypeRequired, BalanceRequired, BalanceNegative, CurrencyRequired, CurrencyNotThreeLetters}

  /** Whether r meets the constraint whose failure is reported as v. */
  predicate AccountSatisfies(r: AccountRequest, v: Violation) {
    match v
    case NameRequired => NotBlank(r.name)
    case NameTooLong => SizeWithin(r.name, 0, 100)
    case AccountTypeRequired => r.kind.Some?
    case BalanceRequired => r.balance.Some?
    case BalanceNegative => PositiveOrZero(r.balance)
    case CurrencyRequired => NotBlank(r.currency)
    case CurrencyNotThreeLetters => SizeWithin(r.currency, 3, 3)
    case _ => true
  }

  /** The violations Bean Validation reports for r, in no particular order. */
  function AccountViolations(r: AccountRequest): (errs: set<Violation>)
    ensures errs <= AccountConstraints
    ensures NameRequired in errs <==> (r.name.None? || forall i :: 0 <= i < |r.name.value| ==> r.name.value[i] <= ' ')
    ensures NameTooLong in errs <==> r.name.Some? && Utf16Length(r.name.value) > 100
    ensures AccountTypeRequired in errs <==> r.kind.None?
    ensures BalanceRequired in errs <==> r.balance.None?
    ensures BalanceNegative in errs <==> r.balance.Some? && r.balance.value < 0
    ensures CurrencyRequired in errs <==> (r.currency.None? || forall i :: 0 <= i < |r.currency.value| ==> r.currency.value[i] <= ' ')
    ensures CurrencyNotThreeLetters in errs <==> r.currency.Some? && Utf16Length(r.currency.value) != 3
  {
    set v | v in AccountConstraints && !AccountSatisfies(r, v)
  }

  /** A request is accepted exactly when it breaks none of its constraints. */
  lemma AccountViolationsEmptyIffValid(r: AccountRequest)
    ensures AccountViolations(r) == {} <==> ValidAccountRequest(r)
  {
    if ValidAccountRequest(r) {
      forall v | v in AccountViolations(r) ensures false {
      }
    }
  }

  // ---------------------------------------------------------------------------
  // CategoryRequest

  datatype CategoryRequest = CategoryRequest(
    name: Option<string>,
    kind: Option<CategoryType>,
    color: Option<string>,
    icon: Option<string>)
  {
    predicate Complete() {
      name.Some? && kind.Some?
    }
  }

  predicate ValidCategoryRequest(r: CategoryRequest) {
    NotBlank(r.name) && SizeWithin(r.name, 0, 100)
    && r.kind.Some?
    && HexColour(r.color)
    && SizeWithin(r.icon, 0, 50)
  }

  /** The constraints declared on CategoryRequest. */
  const CategoryConstraints: set<Violation> :=
    {NameRequired, NameTooLong, CategoryTypeRequired, ColourNotHex, IconTooLong}

  /** Whether r meets the constraint whose failure is reported as v. */
  predicate CategorySatisfies(r: CategoryRequest, v: Violation) {
    match v
    case NameRequired => NotBlank(r.name)
    case NameTooLong => SizeWithin(r.name, 0, 100)
    case CategoryTypeRequired => r.kind.Some?
    case ColourNotHex => HexColour(r.color)
    case IconTooLong => SizeWithin(r.icon, 0, 50)
    case _ => true
  }

  /** The violations Bean Validation reports for r, in no particular order. */
  function CategoryViolations(r: CategoryRequest): (errs: set<Violation>)
    ensures errs <= CategoryConstraints
    ensures NameRequired in errs <==> (r.name.None? || forall i :: 0 <= i < |r.name.value| ==> r.name.value[i] <= ' ')
    ensures NameTooLong in errs <==> r.name.Some? && Utf16Length(r.name.value) > 100
    ensures CategoryTypeRequired in errs <==> r.kind.None?
    ensures ColourNotHex in errs <==> r.color.Some? && !(|r.color.value| == 7 && r.color.value[0] == '#' && forall i :: 1 <= i < 7 ==> IsHexDigit(r.color.value[i]))
    ensures IconTooLong in errs <==> r.icon.Some? && Utf16Length(r.icon.value) > 50
  {
    set v | v in CategoryConstraints && !CategorySatisfies(r, v)
  }

  /** A request is accepted exactly when it breaks none of its constraints. */
  lemma CategoryViolationsEmptyIffValid(r: CategoryRequest)
    ensures CategoryViolations(r) == {} <==> ValidCategoryRequest(r)
  {
    if ValidCategoryRequest(r) {
      forall v | v in CategoryViolations(r) ensures false {
      }
    }
  }

  /** @Size counts UTF-16 code units: 26 hamburger emoji (U+1F354) are 52
      units, too long for an icon, while a dollar-banknote emoji (U+1F4B5)
      followed by one letter is a three-unit currency. */
  lemma SupplementaryCharactersCountTwice(c: CategoryRequest, a: AccountRequest)
    requires c.icon.Some? && |c.icon.value| == 26
    requires forall i :: 0 <= i < 26 ==> c.icon.value[i] == '\U{1F354}'
    requires a.currency == Some(['\U{1F4B5}', 'x'])
    ensures IconTooLong in CategoryViolations(c)
    ensures CurrencyRequired !in AccountViolations(a) && CurrencyNotThreeLetters !in AccountViolations(a)
  {
    var cur := ['\U{1F4B5}', 'x'];
    assert cur[..1] == ['\U{1F4B5}'];
    assert Utf16Length(cur) == 3;
    assert cur[1] > ' ';
  }

  /** A valid request always has the fields the services read unchecked. */
  lemma ValidIsComplete(t: TransactionRequest, i: InstallmentRequest, b: BudgetRequest,
                        g: GoalRequest, a: AccountRequest, c: CategoryRequest)
    ensures ValidTransactionRequest(t) ==> t.Complete()
    ensures ValidInstallmentRequest(i) ==> i.Complete()
    ensures ValidBudgetRequest(b) ==> b.Complete()
    ensures ValidGoalRequest(g) ==> g.Complete()
    ensures ValidAccountRequest(a) ==> a.Complete()
    ensures ValidCategoryRequest(c) ==> c.Complete()
  {
  }

  /** A category request with only a name and a type is valid: the optional
      colour and icon constraints accept null. */
  lemma AbsentColourAndIconAreValid(name: string, kind: CategoryType)
    requires NotBlank(Some(name)) && Utf16Length(name) <= 100
    ensures ValidCategoryRequest(CategoryRequest(Some(name), Some(kind), None, None))
  {
  }

  /** A valid request never reaches the defensive branches of the services:
      a goal request always carries a positive current amount, so the
      service's zero default is never used, and an installment request
      always has at least two installments, so the division never fails and
      the plan is never empty. */
  lemma ValidRequestsAvoidServiceFallbacks(g: GoalRequest, i: InstallmentRequest)
    ensures ValidGoalRequest(g) ==> g.currentAmount.Some? && g.currentAmount.value > 0
    ensures ValidInstallmentRequest(i) ==> i.installmentCount.Some? && 2 <= i.installmentCount.value <= 360
  {
  }
}
