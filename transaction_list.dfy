/**
 * The transaction list: recording and deleting transactions, the type
 * filter and the newest-first order of the list.
 */
module TransactionList {
  import opened Common
  import opened Seqs
  import opened Entities

  /** The new-transaction form, its amount already read as cents. */
  datatype TransactionForm = TransactionForm(description: string, amount: Money, kind: TransactionType, category: Category, date: CalendarDate)

  /** The form as it opens and as it is reset: an expense in "other", dated today. */
  function EmptyTransactionForm(today: CalendarDate): (form: TransactionForm)
    ensures form.kind == Expense && form.category == Other && form.date == today
    ensures form.description == "" && form.amount == 0
  {
    TransactionForm("", 0, Expense, Other, today)
  }

  /**
   * `handleSubmit`: the new transaction goes to the FRONT of the list and the
   * form is reset to today's date.
   */
  function SubmitTransaction(txs: seq<Transaction>, form: TransactionForm, freshId: Id, today: CalendarDate)
    : (r: (seq<Transaction>, TransactionForm))
    ensures |r.0| == |txs| + 1 && r.0[1..] == txs
    ensures r.0[0] == Transaction(freshId, form.description, form.amount, form.kind, form.category, form.date)
    ensures r.1 == EmptyTransactionForm(today)
  {
    ([Transaction(freshId, form.description, form.amount, form.kind, form.category, form.date)] + txs,
     EmptyTransactionForm(today))
  }

  /** `deleteTransaction` once confirmed. */
  function DeleteTransaction(txs: seq<Transaction>, id: Id): (r: seq<Transaction>)
    ensures |r| <= |txs|
    ensures forall i :: 0 <= i < |r| ==> r[i] in txs && r[i].id != id
    ensures forall i :: 0 <= i < |txs| && txs[i].id != id ==> txs[i] in r
  {
    Without(txs, TransactionId, id)
  }

  /** The filter tabs: `'all'`, `'income'` or `'expense'`. */
  datatype TransactionFilter = AllTransactions | OfType(kind: TransactionType)

  /** `filteredTransactions`. */
  function FilteredTransactions(txs: seq<Transaction>, filter: TransactionFilter): (r: seq<Transaction>)
    ensures filter.AllTransactions? ==> r == txs
    ensures filter.OfType? ==>
      |r| <= |txs|
      && (forall i :: 0 <= i < |r| ==> r[i] in txs && r[i].kind == filter.kind)
      && (forall i :: 0 <= i < |txs| && txs[i].kind == filter.kind ==> txs[i] in r)
  {
    match filter
    case AllTransactions => txs
    case OfType(k) => Where(txs, TransactionKind, k)
  }

  /** The comparator `new Date(b.date) - new Date(a.date)`, as "a goes after b". */
  predicate OlderThan(a: Transaction, b: Transaction)
    ensures OlderThan(a, b) ==> NotOlder(b, a) && !NotOlder(a, b)
    ensures !OlderThan(a, b) ==> NotOlder(a, b)
  {
    DateOrdinal(b.date) - DateOrdinal(a.date) > 0
  }

  function NotOlder(a: Transaction, b: Transaction): bool
  {
    DateOrdinal(a.date) >= DateOrdinal(b.date)
  }

  /** `sortedTransactions`: the filtered list, newest date first. */
  function SortedTransactions(txs: seq<Transaction>, filter: TransactionFilter): (r: seq<Transaction>)
    ensures multiset(r) == multiset(FilteredTransactions(txs, filter))
    ensures forall i, j :: 0 <= i < j < |r| ==> DateOrdinal(r[i].date) >= DateOrdinal(r[j].date)
  {
    var shown := FilteredTransactions(txs, filter);
    SortWithSorted(shown, OlderThan, NotOlder);
    SortWith(shown, OlderThan)
  }

  /** Later dates of the calendar get larger ordinals, so "newest first" is calendar order. */
  lemma OrdinalFollowsCalendar(a: CalendarDate, b: CalendarDate)
    requires 1 <= a.month <= 12 && 1 <= b.month <= 12 && 1 <= a.day <= 31 && 1 <= b.day <= 31
    requires a.year < b.year || (a.year == b.year && (a.month < b.month || (a.month == b.month && a.day < b.day)))
    ensures DateOrdinal(a) < DateOrdinal(b)
  {
  }

  /** A recorded transaction appears in the "all" view and in its own type's view. */
  lemma SubmittedIsListed(txs: seq<Transaction>, form: TransactionForm, freshId: Id, today: CalendarDate)
    ensures var t := SubmitTransaction(txs, form, freshId, today).0[0];
      t in SortedTransactions(SubmitTransaction(txs, form, freshId, today).0, AllTransactions)
      && t in SortedTransactions(SubmitTransaction(txs, form, freshId, today).0, OfType(form.kind))
  {
    var all := SubmitTransaction(txs, form, freshId, today).0;
    var t := all[0];
    assert t in multiset(SortedTransactions(all, AllTransactions));
    assert t in FilteredTransactions(all, OfType(form.kind));
    assert t in multiset(SortedTransactions(all, OfType(form.kind)));
  }

  /** Recording a transaction under a fresh id keeps the ids unique. */
  lemma SubmitKeepsIdsUnique(txs: seq<Transaction>, form: TransactionForm, freshId: Id, today: CalendarDate)
    requires UniqueBy(txs, TransactionId)
    requires forall i :: 0 <= i < |txs| ==> txs[i].id != freshId
    ensures UniqueBy(SubmitTransaction(txs, form, freshId, today).0, TransactionId)
  {
    PrependKeepsUnique(Transaction(freshId, form.description, form.amount, form.kind, form.category, form.date), txs, TransactionId);
  }

  /** With unique ids, deleting a listed transaction removes exactly that one. */
  lemma DeleteTransactionRemovesOne(txs: seq<Transaction>, k: nat)
    requires UniqueBy(txs, TransactionId) && k < |txs|
    ensures DeleteTransaction(txs, txs[k].id) == txs[..k] + txs[k + 1..]
  {
    WithoutRemovesOne(txs, TransactionId, k);
  }
}
