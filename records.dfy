/** The persisted document's records: income, expense items and month records. */
module Records {
  import opened Wrappers
  import opened Text
  import opened Amounts

  /** Planned and, once known, actual income of a month, in cents. */
  datatype Income = Income(planned: int, actual: Option<int>)

  /** One expense category of a month, in cents. */
  datatype Expense = Expense(category: string, planned: int, actual: Option<int>)

  datatype MonthRecord = MonthRecord(income: Income, expenses: seq<Expense>, notes: string)

  /**
   * An expense item as a caller supplies it: the category may be missing, the
   * amounts missing (None) or not numbers.
   */
  datatype ExpenseInput = ExpenseInput(category: Option<string>, planned: Option<Raw>, actual: Option<Raw>)

  /** The identity of a category: trimmed and lower-cased. */
  function CategoryKey(category: string): string {
    Lower(Strip(category))
  }

  /** The order in which categories are listed: the lower-cased display name. */
  function SortKey(e: Expense): string {
    Lower(e.category)
  }

  predicate ExpenseOk(e: Expense) {
    AmountOk(e.planned) && (e.actual.Some? ==> AmountOk(e.actual.value))
  }

  /** Every amount of a record is a cleaned amount. */
  ghost predicate RecordOk(rec: MonthRecord) {
    && AmountOk(rec.income.planned)
    && (rec.income.actual.Some? ==> AmountOk(rec.income.actual.value))
    && forall i :: 0 <= i < |rec.expenses| ==> ExpenseOk(rec.expenses[i])
  }

  /** Equal sort keys mean equal category keys, so distinct categories never tie in the sort. */
  lemma SortKeyDeterminesCategoryKey(c: string, d: string)
    requires Lower(c) == Lower(d)
    ensures CategoryKey(c) == CategoryKey(d)
  {
    StripLower(c);
    StripLower(d);
  }
}
