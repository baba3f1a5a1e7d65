/**
 * The budget overview: this month's income, expenses and balance, how much
 * of the monthly budget is used, and the expenses grouped by category.
 */
module BudgetOverview {
  import opened Common
  import opened Seqs
  import opened Entities

  /** `currentMonth`: the `YYYY-MM` of today. */
  function CurrentMonth(today: CalendarDate): (month: YearMonth)
    ensures forall t :: TransactionMonth(t) == month <==> t.date.year == today.year && t.date.month == today.month
  {
    YearMonth(today.year, today.month)
  }

  /** `monthlyTransactions`: the transactions dated in the month, in stored order. */
  function MonthlyTransactions(txs: seq<Transaction>, month: YearMonth): (r: seq<Transaction>)
    ensures |r| <= |txs|
    ensures forall i :: 0 <= i < |r| ==> r[i] in txs && TransactionMonth(r[i]) == month
    ensures forall i :: 0 <= i < |txs| && TransactionMonth(txs[i]) == month ==> txs[i] in r
  {
    Where(txs, TransactionMonth, month)
  }

  /** The month's transactions of one type. */
  function MonthlyOfType(txs: seq<Transaction>, month: YearMonth, kind: TransactionType): (r: seq<Transaction>)
    ensures forall i :: 0 <= i < |r| ==> r[i] in txs && TransactionMonth(r[i]) == month && r[i].kind == kind
    ensures forall i :: 0 <= i < |txs| && TransactionMonth(txs[i]) == month && txs[i].kind == kind ==> txs[i] in r
  {
    Where(MonthlyTransactions(txs, month), TransactionKind, kind)
  }

  /** A month's total of one type is not negative when no amount is. */
  lemma MonthSumNonNegative(txs: seq<Transaction>, month: YearMonth, kind: TransactionType)
    ensures (forall i :: 0 <= i < |txs| ==> txs[i].amount >= 0) ==>
      SumOf(MonthlyOfType(txs, month, kind), TransactionAmount) >= 0
  {
    if forall i :: 0 <= i < |txs| ==> txs[i].amount >= 0 {
      var s := MonthlyOfType(txs, month, kind);
      SumOfNonNegative(s, TransactionAmount);
    }
  }

  /** `income`. */
  function MonthlyIncome(txs: seq<Transaction>, month: YearMonth): (income: Money)
    ensures (forall i :: 0 <= i < |txs| ==> txs[i].amount >= 0) ==> income >= 0
  {
    MonthSumNonNegative(txs, month, Income);
    SumOf(MonthlyOfType(txs, month, Income), TransactionAmount)
  }

  /** `expenses`. */
  function MonthlyExpenses(txs: seq<Transaction>, month: YearMonth): (expenses: Money)
    ensures (forall i :: 0 <= i < |txs| ==> txs[i].amount >= 0) ==> expenses >= 0
  {
    MonthSumNonNegative(txs, month, Expense);
    SumOf(MonthlyOfType(txs, month, Expense), TransactionAmount)
  }

  /** `balance`: never above the income when no amount is negative. */
  function Balance(txs: seq<Transaction>, month: YearMonth): (balance: Money)
    ensures (forall i :: 0 <= i < |txs| ==> txs[i].amount >= 0) ==> balance <= MonthlyIncome(txs, month)
  {
    MonthlyIncome(txs, month) - MonthlyExpenses(txs, month)
  }

  /** Filtering a one-element list by month and then by type. */
  lemma MonthlyOfTypeSingle(t: Transaction, month: YearMonth, kind: TransactionType)
    ensures MonthlyOfType([t], month, kind) == if TransactionMonth(t) == month && t.kind == kind then [t] else []
  {
    WhereSingle(t, TransactionMonth, month);
    WhereSingle(t, TransactionKind, kind);
    assert Where([], TransactionKind, kind) == [];
  }

  /** The month's totals of a list with one more transaction in front. */
  lemma MonthlyOfTypePrepend(t: Transaction, txs: seq<Transaction>, month: YearMonth, kind: TransactionType)
    ensures SumOf(MonthlyOfType([t] + txs, month, kind), TransactionAmount)
         == (if TransactionMonth(t) == month && t.kind == kind then t.amount else 0)
          + SumOf(MonthlyOfType(txs, month, kind), TransactionAmount)
  {
    WhereConcat([t], txs, TransactionMonth, month);
    WhereConcat(MonthlyTransactions([t], month), MonthlyTransactions(txs, month), TransactionKind, kind);
    MonthlyOfTypeSingle(t, month, kind);
    SumOfConcat(MonthlyOfType([t], month, kind), MonthlyOfType(txs, month, kind), TransactionAmount);
    assert SumOf([t], TransactionAmount) == t.amount by {
      assert [t][1..] == [];
    }
  }

  /**
   * Recording a transaction (which puts it in front) moves this month's
   * totals only when it is dated in this month: an expense raises the
   * expenses and lowers the balance by its amount, an income raises both
   * income and balance.
   */
  lemma RecordedTransactionEffect(t: Transaction, txs: seq<Transaction>, month: YearMonth)
    ensures TransactionMonth(t) != month ==>
      MonthlyIncome([t] + txs, month) == MonthlyIncome(txs, month)
      && MonthlyExpenses([t] + txs, month) == MonthlyExpenses(txs, month)
    ensures TransactionMonth(t) == month && t.kind == Expense ==>
      MonthlyExpenses([t] + txs, month) == MonthlyExpenses(txs, month) + t.amount
      && Balance([t] + txs, month) == Balance(txs, month) - t.amount
    ensures TransactionMonth(t) == month && t.kind == Income ==>
      MonthlyIncome([t] + txs, month) == MonthlyIncome(txs, month) + t.amount
      && Balance([t] + txs, month) == Balance(txs, month) + t.amount
  {
    MonthlyOfTypePrepend(t, txs, month, Income);
    MonthlyOfTypePrepend(t, txs, month, Expense);
  }

  /** With non-negative amounts the expense total is non-negative. */
  lemma ExpensesNonNegative(txs: seq<Transaction>, month: YearMonth)
    requires forall i :: 0 <= i < |txs| ==> txs[i].amount >= 0
    ensures MonthlyExpenses(txs, month) >= 0
  {
    var s := MonthlyOfType(txs, month, Expense);
    forall i | 0 <= i < |s| ensures s[i].amount >= 0 {
      assert s[i] in MonthlyTransactions(txs, month);
    }
    SumOfNonNegative(s, TransactionAmount);
  }

  // ---- Budget ---------------------------------------------------------

  /** `budgetUsed`: the rounded percentage of the budget spent; 0 without a positive budget. */
  function BudgetUsed(expenses: Money, budget: Money): (used: int)
    ensures budget <= 0 ==> used == 0
  {
    if budget > 0 then RoundDiv(100 * expenses, budget) else 0
  }

  /** Spending between nothing and the whole budget uses 0 to 100 percent. */
  lemma BudgetUsedBetween(expenses: Money, budget: Money)
    requires budget > 0 && 0 <= expenses <= budget
    ensures 0 <= BudgetUsed(expenses, budget) <= 100
  {
    RoundDivBetween(100 * expenses, budget, 0, 100);
  }

  /** The badge and bar states of the budget card. */
  datatype BudgetLevel = OverBudget | NearBudget | WithinBudget

  function Level(used: int): (level: BudgetLevel)
    ensures level == OverBudget <==> used > 100
    ensures level == WithinBudget <==> used <= 80
  {
    if used > 100 then OverBudget else if used > 80 then NearBudget else WithinBudget
  }

  /**
   * The card turns red exactly when expenses reach 100.5% of a positive
   * budget: rounding hides smaller overshoots.
   */
  lemma OverBudgetIff(expenses: Money, budget: Money)
    requires budget > 0
    ensures Level(BudgetUsed(expenses, budget)) == OverBudget <==> 200 * expenses >= 201 * budget
  {
    var q, r := budget, BudgetUsed(expenses, budget);
    assert 2 * q * r - q == q * (2 * r - 1) && 2 * q * r + q == q * (2 * r + 1);
    if r > 100 {
      MultiplyMonotone(q, 201, 2 * r - 1);
    } else {
      MultiplyMonotone(q, 2 * r + 1, 201);
    }
  }

  /** `Math.max(0, budget - expenses)`: what is left, never below zero. */
  function Remaining(budget: Money, expenses: Money): (left: Money)
    ensures left >= 0 && left >= budget - expenses
    ensures left == 0 || left == budget - expenses
  {
    Max(0, budget - expenses)
  }

  /** The worked example: 650 euro spent of a 1000 euro budget is 65%, leaving 350 euro. */
  lemma BudgetExample()
    ensures BudgetUsed(65000, 100000) == 65 && Remaining(100000, 65000) == 35000
    ensures Level(BudgetUsed(65000, 100000)) == WithinBudget
  {
    RoundDivUnique(6500000, 100000, 65);
  }

  // ---- Expenses by category -------------------------------------------

  /** The categories that occur in a list. */
  ghost function CategoriesOf(txs: seq<Transaction>): set<Category>
  {
    set i | 0 <= i < |txs| :: txs[i].category
  }

  /** The amounts of a list's transactions in one category, added up. */
  function CategoryTotal(txs: seq<Transaction>, c: Category): Money
  {
    SumOf(Where(txs, TransactionCategory, c), TransactionAmount)
  }

  /**
   * The categories of a list in the order their first transaction occurs,
   * each once: the key order of an object filled in one pass over the list.
   */
  ghost function FirstSeen(txs: seq<Transaction>): (order: seq<Category>)
    ensures Distinct(order)
    ensures forall c :: c in order <==> c in CategoriesOf(txs)
    decreases |txs|
  {
    if txs == [] then []
    else
      var init, t := txs[..|txs| - 1], txs[|txs| - 1];
      assert txs == init + [t];
      CategoriesOfAppend(init, t);
      if t.category in CategoriesOf(init) then FirstSeen(init) else FirstSeen(init) + [t.category]
  }

  /** One more transaction: a new category goes last, a known one changes nothing. */
  lemma FirstSeenAppend(prefix: seq<Transaction>, t: Transaction)
    ensures FirstSeen(prefix + [t]) ==
      if t.category in CategoriesOf(prefix) then FirstSeen(prefix) else FirstSeen(prefix) + [t.category]
  {
    assert (prefix + [t])[..|prefix|] == prefix;
  }

  /** The key order of a prefix is a prefix of the key order: later transactions only add keys at the end. */
  lemma {:induction false} FirstSeenPrefix(txs: seq<Transaction>, i: nat)
    requires i <= |txs|
    ensures FirstSeen(txs[..i]) <= FirstSeen(txs)
    decreases |txs| - i
  {
    if i < |txs| {
      FirstSeenPrefix(txs, i + 1);
      assert txs[..i + 1] == txs[..i] + [txs[i]];
      FirstSeenAppend(txs[..i], txs[i]);
    } else {
      assert txs[..i] == txs;
    }
  }

  /** A Food expense followed by a Bills expense gives the key order Food, Bills. */
  lemma FirstSeenExample(a: Transaction, b: Transaction)
    requires a.category == Food && b.category == Bills
    ensures FirstSeen([a, b]) == [Food, Bills]
  {
    var empty: seq<Transaction> := [];
    assert a.category !in CategoriesOf(empty);
    FirstSeenAppend(empty, a);
    assert empty + [a] == [a];
    assert FirstSeen([a]) == [Food];
    CategoriesOfAppend(empty, a);
    assert b.category !in CategoriesOf([a]);
    FirstSeenAppend([a], b);
    assert [a] + [b] == [a, b];
  }

  /** Every listed category has a total. */
  predicate Covers(order: seq<Category>, totals: map<Category, Money>)
  {
    forall i :: 0 <= i < |order| ==> order[i] in totals
  }

  /** The totals of the listed categories, added up in list order. */
  function EntrySum(order: seq<Category>, totals: map<Category, Money>): Money
    requires Covers(order, totals)
  {
    if order == [] then 0
    else EntrySum(order[..|order| - 1], totals) + totals[order[|order| - 1]]
  }

  lemma CategoryTotalAppend(txs: seq<Transaction>, t: Transaction, c: Category)
    ensures CategoryTotal(txs + [t], c) == CategoryTotal(txs, c) + (if t.category == c then t.amount else 0)
  {
    WhereConcat(txs, [t], TransactionCategory, c);
    WhereSingle(t, TransactionCategory, c);
    SumOfConcat(Where(txs, TransactionCategory, c), Where([t], TransactionCategory, c), TransactionAmount);
    assert SumOf([t], TransactionAmount) == t.amount by {
      assert [t][1..] == [];
    }
  }

  lemma CategoriesOfAppend(txs: seq<Transaction>, t: Transaction)
    ensures CategoriesOf(txs + [t]) == CategoriesOf(txs) + {t.category}
  {
    var s := txs + [t];
    assert s[|txs|] == t;
    forall c | c in CategoriesOf(s) ensures c in CategoriesOf(txs) + {t.category} {
      var i :| 0 <= i < |s| && s[i].category == c;
      if i < |txs| {
        assert s[i] == txs[i];
      }
    }
    forall c | c in CategoriesOf(txs) ensures c in CategoriesOf(s) {
      var i :| 0 <= i < |txs| && txs[i].category == c;
      assert s[i] == txs[i];
    }
  }

  /** Changing a total no list entry names leaves the entry sum alone. */
  lemma {:induction false} EntrySumFresh(order: seq<Category>, totals: map<Category, Money>, c: Category, v: Money)
    requires Covers(order, totals) && c !in order
    ensures Covers(order, totals[c := v])
    ensures EntrySum(order, totals[c := v]) == EntrySum(order, totals)
  {
    if order != [] {
      EntrySumFresh(order[..|order| - 1], totals, c, v);
    }
  }

  /** Changing the total of a category listed once moves the entry sum by the change. */
  lemma {:induction false} EntrySumUpdate(order: seq<Category>, totals: map<Category, Money>, c: Category, v: Money)
    requires Covers(order, totals) && Distinct(order) && c in order
    ensures Covers(order, totals[c := v])
    ensures EntrySum(order, totals[c := v]) == EntrySum(order, totals) - totals[c] + v
  {
    var init, last := order[..|order| - 1], order[|order| - 1];
    assert order == init + [last];
    if last == c {
      assert c !in init;
      EntrySumFresh(init, totals, c, v);
    } else {
      assert c in init;
      assert Distinct(init);
      EntrySumUpdate(init, totals, c, v);
    }
  }

  /** Appending a covered category adds its total. */
  lemma EntrySumAppend(order: seq<Category>, totals: map<Category, Money>, c: Category)
    requires Covers(order, totals) && c in totals
    ensures Covers(order + [c], totals)
    ensures EntrySum(order + [c], totals) == EntrySum(order, totals) + totals[c]
  {
    assert (order + [c])[..|order|] == order;
  }

  /** order lists, once each, exactly the categories met in prefix, and they are the keys of totals. */
  ghost predicate KeysMatch(prefix: seq<Transaction>, order: seq<Category>, totals: map<Category, Money>)
  {
    Distinct(order) && Covers(order, totals)
    && (forall c :: c in totals <==> c in order)
    && totals.Keys == CategoriesOf(prefix)
  }

  /** Every key's total is the sum of its category's amounts in prefix. */
  ghost predicate TotalsMatch(prefix: seq<Transaction>, totals: map<Category, Money>)
  {
    forall c :: c in totals ==> totals[c] == CategoryTotal(prefix, c)
  }

  /** The listed totals add up to the sum of all amounts in prefix. */
  ghost predicate SumMatches(prefix: seq<Transaction>, order: seq<Category>, totals: map<Category, Money>)
  {
    Covers(order, totals) && EntrySum(order, totals) == SumOf(prefix, TransactionAmount)
  }

  lemma SumOfAppend(prefix: seq<Transaction>, t: Transaction)
    ensures SumOf(prefix + [t], TransactionAmount) == SumOf(prefix, TransactionAmount) + t.amount
  {
    SumOfConcat(prefix, [t], TransactionAmount);
    assert [t][1..] == [];
  }

  /** A category that occurs nowhere in a list has a zero total. */
  lemma AbsentCategoryTotal(prefix: seq<Transaction>, c: Category)
    requires c !in CategoriesOf(prefix)
    ensures CategoryTotal(prefix, c) == 0
  {
  }

  /** One more expense of a category already met: the keys and the order stay. */
  lemma KeysStepSeen(prefix: seq<Transaction>, t: Transaction, order: seq<Category>, totals: map<Category, Money>, v: Money)
    requires KeysMatch(prefix, order, totals) && t.category in totals
    ensures KeysMatch(prefix + [t], order, totals[t.category := v])
  {
    CategoriesOfAppend(prefix, t);
  }

  /** One more expense of a new category: it joins the keys and goes last in the order. */
  lemma KeysStepNew(prefix: seq<Transaction>, t: Transaction, order: seq<Category>, totals: map<Category, Money>, v: Money)
    requires KeysMatch(prefix, order, totals) && t.category !in totals
    ensures KeysMatch(prefix + [t], order + [t.category], totals[t.category := v])
  {
    CategoriesOfAppend(prefix, t);
  }

  /** One more expense: only its category's total grows, by its amount. */
  lemma TotalsStep(prefix: seq<Transaction>, t: Transaction, totals: map<Category, Money>)
    requires TotalsMatch(prefix, totals)
    requires t.category !in totals ==> t.category !in CategoriesOf(prefix)
    ensures TotalsMatch(prefix + [t], totals[t.category := (if t.category in totals then totals[t.category] else 0) + t.amount])
  {
    if t.category !in totals {
      AbsentCategoryTotal(prefix, t.category);
    }
    forall c ensures CategoryTotal(prefix + [t], c) == CategoryTotal(prefix, c) + (if t.category == c then t.amount else 0) {
      CategoryTotalAppend(prefix, t, c);
    }
  }

  /** One more expense of a category already met: the entry sum grows by its amount. */
  lemma SumStepSeen(prefix: seq<Transaction>, t: Transaction, order: seq<Category>, totals: map<Category, Money>)
    requires SumMatches(prefix, order, totals) && Distinct(order) && t.category in order
    ensures SumMatches(prefix + [t], order, totals[t.category := totals[t.category] + t.amount])
  {
    EntrySumUpdate(order, totals, t.category, totals[t.category] + t.amount);
    SumOfAppend(prefix, t);
  }

  /** One more expense of a new category: its amount is added as a new last entry. */
  lemma SumStepNew(prefix: seq<Transaction>, t: Transaction, order: seq<Category>, totals: map<Category, Money>)
    requires SumMatches(prefix, order, totals) && t.category !in order
    ensures SumMatches(prefix + [t], order + [t.category], totals[t.category := t.amount])
  {
    EntrySumFresh(order, totals, t.category, t.amount);
    EntrySumAppend(order, totals[t.category := t.amount], t.category);
    SumOfAppend(prefix, t);
  }

  /** The whole loop invariant: order and totals group the expenses of prefix. */
  ghost predicate Grouped(prefix: seq<Transaction>, order: seq<Category>, totals: map<Category, Money>)
  {
    KeysMatch(prefix, order, totals) && TotalsMatch(prefix, totals) && SumMatches(prefix, order, totals)
  }

  lemma GroupedStepSeen(prefix: seq<Transaction>, t: Transaction, order: seq<Category>, totals: map<Category, Money>)
    requires Grouped(prefix, order, totals) && t.category in totals
    ensures Grouped(prefix + [t], order, totals[t.category := totals[t.category] + t.amount])
  {
    TotalsStep(prefix, t, totals);
    KeysStepSeen(prefix, t, order, totals, totals[t.category] + t.amount);
    SumStepSeen(prefix, t, order, totals);
  }

  lemma GroupedStepNew(prefix: seq<Transaction>, t: Transaction, order: seq<Category>, totals: map<Category, Money>)
    requires Grouped(prefix, order, totals) && t.category !in totals
    ensures Grouped(prefix + [t], order + [t.category], totals[t.category := t.amount])
  {
    TotalsStep(prefix, t, totals);
    KeysStepNew(prefix, t, order, totals, t.amount);
    SumStepNew(prefix, t, order, totals);
  }

  /**
   * `expensesByCategory`: one pass over the month's expenses adding each
   * amount to its category's total; a category enters the key order when
   * its first expense is met.
   */
  method ExpensesByCategory(txs: seq<Transaction>, month: YearMonth)
    returns (order: seq<Category>, totals: map<Category, Money>)
    ensures Distinct(order) && Covers(order, totals)
    ensures forall c :: c in totals <==> c in order
    ensures totals.Keys == CategoriesOf(MonthlyOfType(txs, month, Expense))
    ensures forall c :: c in totals ==> totals[c] == CategoryTotal(MonthlyOfType(txs, month, Expense), c)
    ensures EntrySum(order, totals) == MonthlyExpenses(txs, month)
    ensures order == FirstSeen(MonthlyOfType(txs, month, Expense))
  {
    var expenses := MonthlyOfType(txs, month, Expense);
    order, totals := [], map[];
    for i := 0 to |expenses|
      invariant Grouped(expenses[..i], order, totals)
      invariant order == FirstSeen(expenses[..i])
    {
      var t := expenses[i];
      TakeOneMore(expenses, i);
      FirstSeenAppend(expenses[..i], t);
      if t.category in totals {
        GroupedStepSeen(expenses[..i], t, order, totals);
        totals := totals[t.category := totals[t.category] + t.amount];
      } else {
        GroupedStepNew(expenses[..i], t, order, totals);
        totals := totals[t.category := t.amount];
        order := order + [t.category];
      }
    }
    assert expenses[..|expenses|] == expenses;
  }

  /** An entry of `Object.entries(expensesByCategory)`. */
  datatype CategoryAmount = CategoryAmount(category: Category, amount: Money)

  function EntryCategory(e: CategoryAmount): Category { e.category }
  function EntryAmount(e: CategoryAmount): Money { e.amount }

  /** `Object.entries`: the pairs in key order. */
  function Entries(order: seq<Category>, totals: map<Category, Money>): (entries: seq<CategoryAmount>)
    requires Covers(order, totals)
    ensures |entries| == |order|
    ensures forall i :: 0 <= i < |order| ==> entries[i] == CategoryAmount(order[i], totals[order[i]])
  {
    seq(|order|, i requires 0 <= i < |order| => CategoryAmount(order[i], totals[order[i]]))
  }

  lemma {:induction false} EntriesSum(order: seq<Category>, totals: map<Category, Money>)
    requires Covers(order, totals)
    ensures SumOf(Entries(order, totals), EntryAmount) == EntrySum(order, totals)
  {
    if order != [] {
      var init := order[..|order| - 1];
      EntriesSum(init, totals);
      assert Entries(order, totals) == Entries(init, totals) + [Entries(order, totals)[|order| - 1]];
      SumOfConcat(Entries(init, totals), [Entries(order, totals)[|order| - 1]], EntryAmount);
      assert SumOf([Entries(order, totals)[|order| - 1]], EntryAmount) == totals[order[|order| - 1]] by {
        assert [Entries(order, totals)[|order| - 1]][1..] == [];
      }
    }
  }

  /** The comparator `b[1] - a[1]`, as "a goes after b". */
  function SmallerThan(a: CategoryAmount, b: CategoryAmount): bool
  {
    b.amount - a.amount > 0
  }

  function NotSmaller(a: CategoryAmount, b: CategoryAmount): bool
  {
    a.amount >= b.amount
  }

  /** `sortedCategories`: the entries, largest total first. */
  function SortedCategories(order: seq<Category>, totals: map<Category, Money>): (sorted: seq<CategoryAmount>)
    requires Covers(order, totals)
    ensures multiset(sorted) == multiset(Entries(order, totals))
    ensures forall i, j :: 0 <= i < j < |sorted| ==> sorted[i].amount >= sorted[j].amount
  {
    SortWithSorted(Entries(order, totals), SmallerThan, NotSmaller);
    SortWith(Entries(order, totals), SmallerThan)
  }

  /** When the key order lists each category once, so does the breakdown. */
  lemma SortedCategoriesOnce(order: seq<Category>, totals: map<Category, Money>)
    requires Covers(order, totals) && Distinct(order)
    ensures UniqueBy(SortedCategories(order, totals), EntryCategory)
  {
    var entries := Entries(order, totals);
    assert UniqueBy(entries, EntryCategory) by {
      forall i, j | 0 <= i < j < |entries| ensures EntryCategory(entries[i]) != EntryCategory(entries[j]) {
        assert order[i] != order[j];
      }
    }
    UniqueByPermutation(entries, SortedCategories(order, totals), EntryCategory);
  }

  /** The breakdown's amounts add up to the month's expenses. */
  lemma SortedCategoriesSum(order: seq<Category>, totals: map<Category, Money>)
    requires Covers(order, totals)
    ensures SumOf(SortedCategories(order, totals), EntryAmount) == EntrySum(order, totals)
  {
    EntriesSum(order, totals);
    SumOfPermutation(Entries(order, totals), SortedCategories(order, totals), EntryAmount);
  }

  /**
   * A row's `Math.round(amount / expenses * 100)`; absent when the month's
   * expenses are zero and the quotient is not a finite number.
   */
  function CategoryPercent(amount: Money, expenses: Money): (percent: Option<int>)
    ensures expenses == 0 <==> percent.None?
  {
    if expenses == 0 then None else Some(RoundDiv(100 * amount, expenses))
  }

  /** A category's share of positive expenses lies between 0 and 100 percent. */
  lemma CategoryPercentBetween(amount: Money, expenses: Money)
    requires 0 <= amount <= expenses && expenses > 0
    ensures 0 <= CategoryPercent(amount, expenses).value <= 100
  {
    RoundDivBetween(100 * amount, expenses, 0, 100);
  }

  /** The percentages of the listed rows, added up. */
  function PercentSum(rows: seq<CategoryAmount>, expenses: Money): int
    requires expenses > 0
  {
    if rows == [] then 0 else CategoryPercent(rows[0].amount, expenses).value + PercentSum(rows[1..], expenses)
  }

  lemma {:induction false} PercentSumBracket(rows: seq<CategoryAmount>, q: Money)
    requires q > 0
    ensures 2 * q * PercentSum(rows, q) - |rows| * q <= 200 * SumOf(rows, EntryAmount)
    ensures 200 * SumOf(rows, EntryAmount) + |rows| <= 2 * q * PercentSum(rows, q) + |rows| * q
  {
    if rows != [] {
      PercentSumBracket(rows[1..], q);
      var r, rest := CategoryPercent(rows[0].amount, q).value, PercentSum(rows[1..], q);
      assert 2 * q * (r + rest) == 2 * q * r + 2 * q * rest;
      assert |rows| * q == q + |rows[1..]| * q;
      assert 200 * SumOf(rows, EntryAmount) == 200 * rows[0].amount + 200 * SumOf(rows[1..], EntryAmount);
    }
  }

  /**
   * Each row's percentage is rounded on its own, so the rows of a month's
   * breakdown add up to 100 only within half a point per row.
   */
  lemma PercentagesNearHundred(rows: seq<CategoryAmount>, expenses: Money)
    requires expenses > 0 && rows != [] && SumOf(rows, EntryAmount) == expenses
    ensures 2 * PercentSum(rows, expenses) - |rows| <= 200 < 2 * PercentSum(rows, expenses) + |rows|
  {
    PercentSumBracket(rows, expenses);
    DivideBracket(expenses, PercentSum(rows, expenses), |rows|);
  }

  lemma DivideBracket(q: int, ps: int, k: int)
    requires q > 0 && k >= 1
    requires 2 * q * ps - k * q <= 200 * q && 200 * q + k <= 2 * q * ps + k * q
    ensures 2 * ps - k <= 200 < 2 * ps + k
  {
    assert q * (2 * ps - k) == 2 * q * ps - k * q;
    assert q * (2 * ps + k) == 2 * q * ps + k * q;
    CancelPositive(q, 2 * ps - k, 200);
    CancelPositiveStrict(q, 200, 2 * ps + k);
  }

  /** Two equal halves round to 50 each, so rows can also add up exactly. */
  lemma PercentagesExample()
    ensures PercentSum([CategoryAmount(Food, 25000), CategoryAmount(Bills, 25000)], 50000) == 100
  {
    RoundDivUnique(2500000, 50000, 50);
    var rows := [CategoryAmount(Food, 25000), CategoryAmount(Bills, 25000)];
    assert rows[1..][1..] == [];
  }
}
