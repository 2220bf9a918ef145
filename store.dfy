/**
 * The budget store: the `months` document behind `save_month_budget` and the
 * read-side queries, held as a map field of a class.
 */
module Store {
  import opened Wrappers
  import opened Text
  import opened Sorting
  import opened Months
  import opened Amounts
  import opened Records
  import opened Merge
  import opened Rollup

  /** The arguments of `save_month_budget`. */
  datatype SaveRequest = SaveRequest(
    month: string,
    incomePlanned: Option<Raw>,
    incomeActual: Option<Raw>,
    expenses: seq<ExpenseInput>,
    notes: Option<string>,
    merge: bool)

  /** What `save_month_budget` has validated before it reads the store. */
  datatype Prepared = Prepared(month: string, income: Income, items: seq<Expense>)

  /**
   * One incoming item as `save_month_budget` normalises it: the category must be
   * present and is stripped; planned goes through `or 0.0` and is cleaned; actual is
   * cleaned when given.
   */
  function NormalizeItem(item: ExpenseInput): (r: Result<Expense, Error>)
    ensures item.category.None? ==> r == Failure(MissingCategory)
    ensures r.Success? ==> ExpenseOk(r.value) && r.value.actual.None? == item.actual.None?
    ensures r.Success? ==> r.value.category == Strip(item.category.value)
    ensures r.Success? && item.planned.Some? && item.planned.value.Num? ==> r.value.planned == Abs(item.planned.value.cents)
    ensures r.Success? && (item.planned.None? || (item.planned.value.NotANumber? && !item.planned.value.truthy))
            ==> r.value.planned == 0
    ensures r.Success? && item.actual.Some? ==> item.actual.value.Num? && r.value.actual == Some(Abs(item.actual.value.cents))
    ensures item.category.Some? && item.planned.Some? && item.planned.value.NotANumber? && item.planned.value.truthy
            ==> r == Failure(InvalidAmount)
    ensures item.category.Some? && item.planned.Some? && item.planned.value.Num? && Abs(item.planned.value.cents) > MaxAmount
            ==> r == Failure(AmountTooLarge)
    ensures item.category.Some? && CleanAmount(Some(OrZero(item.planned))).Success? && CleanAmount(item.actual).Failure?
            ==> r == Failure(CleanAmount(item.actual).error)
  {
    if item.category.None? then Failure(MissingCategory)
    else
      var planned :- CleanAmount(Some(OrZero(item.planned)));
      var actual :- CleanAmount(item.actual);
      Success(Expense(Strip(item.category.value), planned.GetOr(0), actual))
  }

  /** The normalising loop, stopping at the first item that raises. */
  function NormalizeAll(items: seq<ExpenseInput>): Result<seq<Expense>, Error> {
    if items == [] then Success([])
    else
      var done :- NormalizeAll(items[..|items| - 1]);
      var e :- NormalizeItem(items[|items| - 1]);
      Success(done + [e])
  }

  /** The loop of `save_month_budget` that builds `incoming_expenses`. */
  method NormalizeExpenses(items: seq<ExpenseInput>) returns (r: Result<seq<Expense>, Error>)
    ensures r == NormalizeAll(items)
  {
    var out: seq<Expense> := [];
    for i := 0 to |items|
      invariant NormalizeAll(items[..i]) == Success(out)
    {
      assert items[..i + 1][..i] == items[..i];
      var item := items[i];
      if item.category.None? {
        NormalizeFailurePersists(items, i + 1);
        return Failure(MissingCategory);
      }
      var planned := CleanAmount(Some(OrZero(item.planned)));
      if planned.Failure? {
        NormalizeFailurePersists(items, i + 1);
        return Failure(planned.error);
      }
      var actual := CleanAmount(item.actual);
      if actual.Failure? {
        NormalizeFailurePersists(items, i + 1);
        return Failure(actual.error);
      }
      out := out + [Expense(Strip(item.category.value), planned.value.GetOr(0), actual.value)];
    }
    assert items[..|items|] == items;
    return Success(out);
  }

  lemma {:induction false} NormalizeFailurePersists(items: seq<ExpenseInput>, n: nat)
    requires n <= |items| && NormalizeAll(items[..n]).Failure?
    ensures NormalizeAll(items) == NormalizeAll(items[..n])
    decreases |items|
  {
    if n < |items| {
      var m := |items| - 1;
      assert items[..m][..n] == items[..n];
      NormalizeFailurePersists(items[..m], n);
    } else {
      assert items[..n] == items;
    }
  }

  /**
   * Normalising succeeds exactly when every item does; the items then keep their
   * order, one output per input.
   */
  lemma {:induction false} NormalizeAllItems(items: seq<ExpenseInput>)
    ensures NormalizeAll(items).Success? <==> forall i :: 0 <= i < |items| ==> NormalizeItem(items[i]).Success?
    ensures NormalizeAll(items).Success? ==>
      && |NormalizeAll(items).value| == |items|
      && forall i :: 0 <= i < |items| ==> NormalizeAll(items).value[i] == NormalizeItem(items[i]).value
  {
    if items != [] {
      var n := |items| - 1;
      var front := items[..n];
      NormalizeAllItems(front);
      NormalizeStep(items);
      if NormalizeAll(items).Success? {
        var out := NormalizeAll(items).value;
        forall i | 0 <= i < |items| ensures out[i] == NormalizeItem(items[i]).value {
          if i < n {
            assert front[i] == items[i];
          } else {
            assert i == n;
          }
        }
      }
      forall i | 0 <= i < n ensures front[i] == items[i] {
      }
    }
  }

  /** One more item: the loop gets through when it got through the others and through this one. */
  lemma NormalizeStep(items: seq<ExpenseInput>)
    requires items != []
    ensures NormalizeAll(items).Success?
        <==> NormalizeAll(items[..|items| - 1]).Success? && NormalizeItem(items[|items| - 1]).Success?
    ensures NormalizeAll(items).Success?
        ==> NormalizeAll(items).value == NormalizeAll(items[..|items| - 1]).value + [NormalizeItem(items[|items| - 1]).value]
  {
  }

  /** The error of the first item that raises is the error of the loop. */
  lemma NormalizeAllFails(items: seq<ExpenseInput>, j: nat)
    requires j < |items| && NormalizeItem(items[j]).Failure?
    requires forall i :: 0 <= i < j ==> NormalizeItem(items[i]).Success?
    ensures NormalizeAll(items) == Failure(NormalizeItem(items[j]).error)
  {
    NormalizeAllItems(items[..j]);
    assert forall i :: 0 <= i < j ==> items[..j][i] == items[i];
    assert items[..j + 1][..j] == items[..j];
    NormalizeFailurePersists(items, j + 1);
  }

  /** A normalised category has no surrounding whitespace and keeps its category key. */
  lemma NormalizedCategory(item: ExpenseInput)
    requires NormalizeItem(item).Success?
    ensures var e := NormalizeItem(item).value;
      && Strip(e.category) == e.category
      && CategoryKey(e.category) == CategoryKey(item.category.value)
      && (e.category != "" ==> ItemOk(e))
  {
    StripIdempotent(item.category.value);
  }

  /** The validation `save_month_budget` does before it reads the store, in its order. */
  function Prepare(req: SaveRequest): Result<Prepared, Error> {
    var m :- NormMonth(req.month);
    var ip :- CleanAmount(req.incomePlanned);
    var ia :- CleanAmount(req.incomeActual);
    var items :- NormalizeAll(req.expenses);
    Success(Prepared(m, Income(ip.GetOr(0), ia), items))
  }

  /**
   * The store update: a month without a record gets a new one (notes defaulting to
   * ""); an existing record has its income overwritten, its notes replaced when
   * given, and its expenses merged or replaced. A merge that raises changes nothing.
   */
  function Upsert(months: map<string, MonthRecord>, p: Prepared, notes: Option<string>, merge: bool)
    : Result<map<string, MonthRecord>, Error>
  {
    if p.month in months then
      var rec := months[p.month];
      var expenses :- if merge then Merged(rec.expenses, p.items) else Success(p.items);
      Success(months[p.month := MonthRecord(p.income, expenses, if notes.Some? then notes.value else rec.notes)])
    else
      Success(months[p.month := MonthRecord(p.income, p.items, notes.GetOr(""))])
  }

  /** The store after `save_month_budget`, or the error it raises. */
  function SaveOutcome(months: map<string, MonthRecord>, req: SaveRequest): Result<map<string, MonthRecord>, Error> {
    var p :- Prepare(req);
    Upsert(months, p, req.notes, req.merge)
  }

  /** Every stored key is a canonical month and every stored amount a cleaned one. */
  ghost predicate StoreOk(months: map<string, MonthRecord>) {
    forall m :: m in months ==> IsMonthKey(m) && RecordOk(months[m])
  }

  // ---------------------------------------------------------------------------
  // What the queries return.

  /** `get_month_budget`'s result: the rollup, its categories re-sorted by lower-cased name. */
  datatype MonthView = MonthView(month: string, notes: string, rollup: MonthRollup)

  /** The sort key of a category row. */
  function RowOrder(row: CategoryRow): string {
    Lower(row.category)
  }

  function MonthViewOf(months: map<string, MonthRecord>, month: string): Result<MonthView, Error> {
    var m :- NormMonth(month);
    if m !in months then Failure(NotFound)
    else
      var roll := RollupOf(months[m]);
      Success(MonthView(m, months[m].notes, roll.(categories := SortBy(roll.categories, RowOrder))))
  }

  /** One month of `get_year_overview`. */
  datatype YearRow = YearRow(
    month: string,
    incomePlanned: int,
    incomeActual: Option<int>,
    expensePlanned: int,
    expenseActual: Option<int>,
    netPlanned: int,
    netActual: Option<int>)

  datatype YearOverview = YearOverview(year: int, months: seq<YearRow>)

  /** The row of month key m: its rollup's top-line figures, or zeros and Nones without a record. */
  function YearRowOf(months: map<string, MonthRecord>, m: string): YearRow {
    if m in months then
      var r := RollupOf(months[m]);
      YearRow(m, r.incomePlanned, r.incomeActual, r.expensePlanned, Some(r.expenseActual), r.netPlanned, r.netActual)
    else
      YearRow(m, 0, None, 0, None, 0, None)
  }

  /** The twelve keys `f"{year:04d}-{i:02d}"` for i from 1 to 12. */
  function YearMonths(year: int): (ms: seq<string>)
    ensures |ms| == 12
  {
    seq(12, i => MonthKey(year, i + 1))
  }

  function YearOverviewOf(months: map<string, MonthRecord>, year: int): YearOverview {
    YearOverview(year, seq(12, i requires 0 <= i < 12 => YearRowOf(months, YearMonths(year)[i])))
  }

  /** One month of `get_series`. */
  datatype SeriesRow = SeriesRow(month: string, netPlanned: int, netActual: Option<int>, cumulative: int)

  datatype Series = Series(from: string, to: string, rows: seq<SeriesRow>)

  function NetPlannedOf(months: map<string, MonthRecord>, m: string): int {
    if m in months then RollupOf(months[m]).netPlanned else 0
  }

  function NetActualOf(months: map<string, MonthRecord>, m: string): Option<int> {
    if m in months then RollupOf(months[m]).netActual else None
  }

  /** The running total of the actual net savings over the keys ms, a missing one adding nothing. */
  function Cumulative(months: map<string, MonthRecord>, ms: seq<string>): int {
    if ms == [] then 0
    else Cumulative(months, ms[..|ms| - 1]) + NetActualOf(months, ms[|ms| - 1]).GetOr(0)
  }

  function SeriesRowsOf(months: map<string, MonthRecord>, ms: seq<string>): seq<SeriesRow> {
    seq(|ms|, i requires 0 <= i < |ms| =>
      SeriesRow(ms[i], NetPlannedOf(months, ms[i]), NetActualOf(months, ms[i]), Cumulative(months, ms[..i + 1])))
  }

  function SeriesOf(months: map<string, MonthRecord>, fromMonth: string, toMonth: string): Result<Series, Error> {
    var rng :- MonthRange(fromMonth, toMonth);
    MonthRangeValue(fromMonth, toMonth);
    Success(Series(rng[0], rng[|rng| - 1], SeriesRowsOf(months, rng)))
  }

  /** Every stored category name, stripped, the empty name included. */
  function CategoriesIn(months: map<string, MonthRecord>, ks: set<string>): set<string> {
    set m, i | m in ks && m in months && 0 <= i < |months[m].expenses| :: Strip(months[m].expenses[i].category)
  }

  class BudgetStore {
    /** `store["months"]`: the month records by canonical month key. */
    var months: map<string, MonthRecord>

    ghost predicate Valid()
      reads this
    {
      StoreOk(months)
    }

    /** A store with no months, as a missing or unreadable file yields. */
    constructor()
      ensures months == map[] && Valid()
    {
      months := map[];
    }

    /**
     * `save_month_budget`: returns the normalised month; on an error the store is
     * left as it was.
     */
    method SaveMonthBudget(month: string, incomePlanned: Option<Raw>, incomeActual: Option<Raw>,
                           expenses: seq<ExpenseInput>, notes: Option<string>, merge: bool)
      returns (r: Result<string, Error>)
      modifies this
      ensures var outcome := SaveOutcome(old(months), SaveRequest(month, incomePlanned, incomeActual, expenses, notes, merge));
        && (r.Success? <==> outcome.Success?)
        && (r.Success? ==> months == outcome.value && NormMonth(month) == Success(r.value))
        && (r.Failure? ==> months == old(months) && r.error == outcome.error)
      ensures old(Valid()) ==> Valid()
    {
      ghost var req := SaveRequest(month, incomePlanned, incomeActual, expenses, notes, merge);
      var m := NormMonth(month);
      if m.Failure? {
        return Failure(m.error);
      }
      var ip := CleanAmount(incomePlanned);
      if ip.Failure? {
        return Failure(ip.error);
      }
      var ia := CleanAmount(incomeActual);
      if ia.Failure? {
        return Failure(ia.error);
      }
      var incoming := NormalizeExpenses(expenses);
      if incoming.Failure? {
        return Failure(incoming.error);
      }
      var income := Income(ip.value.GetOr(0), ia.value);
      ghost var p := Prepared(m.value, income, incoming.value);
      assert Prepare(req) == Success(p);
      SaveOutcomeOf(months, req);
      SaveKeepsStoreOk(months, req);
      if m.value in months {
        var rec := months[m.value];
        var newExpenses := incoming.value;
        if merge {
          var merged := MergeExpenses(rec.expenses, incoming.value);
          if merged.Failure? {
            return Failure(merged.error);
          }
          newExpenses := merged.value;
        }
        var newNotes := if notes.Some? then notes.value else rec.notes;
        months := months[m.value := MonthRecord(income, newExpenses, newNotes)];
      } else {
        months := months[m.value := MonthRecord(income, incoming.value, notes.GetOr(""))];
      }
      return Success(m.value);
    }

    /** `get_month_budget`: NotFound for a month without a record. */
    method GetMonthBudget(month: string) returns (r: Result<MonthView, Error>)
      ensures r == MonthViewOf(months, month)
    {
      var m := NormMonth(month);
      if m.Failure? {
        return Failure(m.error);
      }
      if m.value !in months {
        return Failure(NotFound);
      }
      var rec := months[m.value];
      var roll := CalcMonthRollup(rec);
      r := Success(MonthView(m.value, rec.notes, roll.(categories := SortBy(roll.categories, RowOrder))));
    }

    /** `get_year_overview`: a row for each of the twelve months of the year. */
    method GetYearOverview(year: int) returns (r: YearOverview)
      ensures r == YearOverviewOf(months, year)
      ensures Valid() && !(1 <= year <= 9999) ==>
        forall i :: 0 <= i < 12 ==> r.months[i] == YearRow(MonthKey(year, i + 1), 0, None, 0, None, 0, None)
    {
      var ms := YearMonths(year);
      var rows: seq<YearRow> := [];
      for i := 0 to 12
        invariant |rows| == i
        invariant forall j :: 0 <= j < i ==> rows[j] == YearRowOf(months, ms[j])
      {
        var m := ms[i];
        if m in months {
          var roll := CalcMonthRollup(months[m]);
          rows := rows + [YearRow(m, roll.incomePlanned, roll.incomeActual, roll.expensePlanned,
                                  Some(roll.expenseActual), roll.netPlanned, roll.netActual)];
        } else {
          rows := rows + [YearRow(m, 0, None, 0, None, 0, None)];
        }
      }
      r := YearOverview(year, rows);
      OverviewRows(months, year, rows);
      if Valid() && !(1 <= year <= 9999) {
        YearOverviewOutOfRange(months, year);
      }
    }

    /** `get_series`: the net savings of each month of the range, with their running total. */
    method GetSeries(fromMonth: string, toMonth: string) returns (r: Result<Series, Error>)
      ensures r == SeriesOf(months, fromMonth, toMonth)
    {
      var rng := MonthIter(fromMonth, toMonth);
      if rng.Failure? {
        return Failure(rng.error);
      }
      var ms := rng.value;
      var rows: seq<SeriesRow> := [];
      var cumulative := 0;
      for i := 0 to |ms|
        invariant cumulative == Cumulative(months, ms[..i])
        invariant rows == SeriesRowsOf(months, ms[..i])
      {
        var m := ms[i];
        SeriesRowsStep(months, ms, i);
        if m in months {
          var roll := CalcMonthRollup(months[m]);
          if roll.netActual.Some? {
            cumulative := cumulative + roll.netActual.value;
          }
          rows := rows + [SeriesRow(m, roll.netPlanned, roll.netActual, cumulative)];
        } else {
          rows := rows + [SeriesRow(m, 0, None, cumulative)];
        }
      }
      assert ms[..|ms|] == ms;
      r := Success(Series(ms[0], ms[|ms| - 1], rows));
    }

    /**
     * `list_all_categories`: every stored category name, stripped, without the empty
     * name and without repeats, in the order of its lower-cased form.
     */
    method ListAllCategories() returns (r: seq<string>)
      ensures forall c :: c in r ==> c in CategoriesIn(months, months.Keys) && c != ""
      ensures forall c :: c in CategoriesIn(months, months.Keys) && c != "" ==> c in r
      ensures Distinct(r) && SortedBy(r, Lower)
    {
      var cats := CollectCategories(months);
      r := SortDistinct(cats);
    }
  }

  // ---------------------------------------------------------------------------
  // Properties of saving.

  /** What validation guarantees of a request it accepts. */
  ghost predicate PreparedOk(p: Prepared) {
    && IsMonthKey(p.month)
    && AmountOk(p.income.planned) && (p.income.actual.Some? ==> AmountOk(p.income.actual.value))
    && forall i :: 0 <= i < |p.items| ==> ExpenseOk(p.items[i])
  }

  /** An accepted request has a canonical month and cleaned amounts. */
  lemma PrepareOk(req: SaveRequest)
    requires Prepare(req).Success?
    ensures PreparedOk(Prepare(req).value)
  {
    NormMonthSound(req.month);
    NormalizeAllItems(req.expenses);
  }

  /** Storing an accepted request keeps the store well formed. */
  lemma UpsertOk(months: map<string, MonthRecord>, p: Prepared, notes: Option<string>, merge: bool)
    requires StoreOk(months) && PreparedOk(p) && Upsert(months, p, notes, merge).Success?
    ensures StoreOk(Upsert(months, p, notes, merge).value)
  {
    if p.month in months && merge {
      var rec := months[p.month];
      assert RecordOk(rec);
      MergeOnlyOk(rec.expenses, p.items);
      MergeAmountsOk(rec.expenses, p.items);
    }
  }

  /** A save keeps the store well formed. */
  lemma SaveKeepsStoreOk(months: map<string, MonthRecord>, req: SaveRequest)
    ensures StoreOk(months) && SaveOutcome(months, req).Success? ==> StoreOk(SaveOutcome(months, req).value)
  {
    if StoreOk(months) && SaveOutcome(months, req).Success? {
      PrepareOk(req);
      UpsertOk(months, Prepare(req).value, req.notes, req.merge);
    }
  }

  /** Adding one month's names to the names of the months ks. */
  lemma CategoriesStep(months: map<string, MonthRecord>, ks: set<string>, m: string)
    requires m in months
    ensures CategoriesIn(months, ks + {m})
         == CategoriesIn(months, ks) + set j | 0 <= j < |months[m].expenses| :: Strip(months[m].expenses[j].category)
  {
  }

  /** The two loops of `list_all_categories` that fill the set `cats`. */
  method CollectCategories(months: map<string, MonthRecord>) returns (cats: set<string>)
    ensures cats == CategoriesIn(months, months.Keys)
  {
    cats := {};
    var todo := months.Keys;
    while todo != {}
      invariant todo <= months.Keys
      invariant cats == CategoriesIn(months, months.Keys - todo)
      decreases |todo|
    {
      var m :| m in todo;
      var expenses := months[m].expenses;
      ghost var before := cats;
      for i := 0 to |expenses|
        invariant cats == before + set j | 0 <= j < i :: Strip(expenses[j].category)
      {
        cats := cats + {Strip(expenses[i].category)};
      }
      CategoriesStep(months, months.Keys - todo, m);
      assert months.Keys - (todo - {m}) == (months.Keys - todo) + {m};
      todo := todo - {m};
    }
    assert months.Keys - todo == months.Keys;
  }

  /**
   * `sorted([c for c in cats if c], key=lambda x: x.lower())`, the set taken in some
   * order: the non-empty names, each once, ordered by their lower-cased form.
   */
  method SortDistinct(cats: set<string>) returns (r: seq<string>)
    ensures forall c :: c in r ==> c in cats && c != ""
    ensures forall c :: c in cats && c != "" ==> c in r
    ensures Distinct(r) && SortedBy(r, Lower)
  {
    r := [];
    var rest := cats;
    while rest != {}
      invariant rest <= cats
      invariant forall c :: c in r ==> c in cats - rest && c != ""
      invariant forall c :: c in cats - rest && c != "" ==> c in r
      invariant Distinct(r) && SortedBy(r, Lower)
      decreases |rest|
    {
      var c :| c in rest;
      rest := rest - {c};
      if c != "" {
        InsertElements(c, r, Lower);
        InsertSorted(c, r, Lower);
        InsertDistinct(c, r, Lower);
        r := Insert(c, r, Lower);
      }
    }
  }

  lemma SeriesRowsStep(months: map<string, MonthRecord>, ms: seq<string>, i: nat)
    requires i < |ms|
    ensures Cumulative(months, ms[..i + 1]) == Cumulative(months, ms[..i]) + NetActualOf(months, ms[i]).GetOr(0)
    ensures SeriesRowsOf(months, ms[..i + 1])
         == SeriesRowsOf(months, ms[..i])
            + [SeriesRow(ms[i], NetPlannedOf(months, ms[i]), NetActualOf(months, ms[i]), Cumulative(months, ms[..i + 1]))]
  {
    assert ms[..i + 1][..i] == ms[..i];
    var a := SeriesRowsOf(months, ms[..i + 1]);
    var b := SeriesRowsOf(months, ms[..i])
      + [SeriesRow(ms[i], NetPlannedOf(months, ms[i]), NetActualOf(months, ms[i]), Cumulative(months, ms[..i + 1]))];
    forall j | 0 <= j < i + 1 ensures a[j] == b[j] {
      if j < i {
        assert ms[..i + 1][..j + 1] == ms[..j + 1] == ms[..i][..j + 1];
        assert ms[..i + 1][j] == ms[j] == ms[..i][j];
      } else {
        assert ms[..i + 1][..i + 1] == ms[..i + 1];
      }
    }
    assert a == b;
  }

  /** A save changes the record of its own month only. */
  lemma SaveTouchesOneMonth(months: map<string, MonthRecord>, req: SaveRequest)
    requires SaveOutcome(months, req).Success?
    ensures NormMonth(req.month).Success?
    ensures var m := NormMonth(req.month).value;
      var after := SaveOutcome(months, req).value;
      && m in after
      && after.Keys == months.Keys + {m}
      && forall k :: k in months && k != m ==> after[k] == months[k]
  {
  }

  /**
   * A save fails when validation fails, or when it merges into an existing record
   * an item whose category is blank; the latter raises MissingCategory. Without a
   * merge a blank category is stored as it is.
   */
  lemma SaveBlankCategory(months: map<string, MonthRecord>, req: SaveRequest)
    requires Prepare(req).Success?
    ensures var blank := exists i :: 0 <= i < |req.expenses| && req.expenses[i].category.Some?
                                     && Strip(req.expenses[i].category.value) == "";
      var merging := NormMonth(req.month).value in months && req.merge;
      && (SaveOutcome(months, req).Failure? <==> merging && blank)
      && (SaveOutcome(months, req).Failure? ==> SaveOutcome(months, req).error == MissingCategory)
  {
    var p := Prepare(req).value;
    SaveOutcomeOf(months, req);
    UpsertFails(months, p, req.notes, req.merge);
    PreparedItems(req);
    if p.month in months && req.merge {
      MergeBlank(months[p.month].expenses, p.items);
      if exists i :: 0 <= i < |req.expenses| && req.expenses[i].category.Some? && Strip(req.expenses[i].category.value) == "" {
        var i :| 0 <= i < |req.expenses| && req.expenses[i].category.Some? && Strip(req.expenses[i].category.value) == "";
        assert Strip(p.items[i].category) == "";
      }
      if exists i :: 0 <= i < |p.items| && Strip(p.items[i].category) == "" {
        var i :| 0 <= i < |p.items| && Strip(p.items[i].category) == "";
        assert req.expenses[i].category.Some? && Strip(req.expenses[i].category.value) == "";
      }
    }
  }

  /** An accepted request is stored under its normalised month. */
  lemma SaveOutcomeOf(months: map<string, MonthRecord>, req: SaveRequest)
    requires Prepare(req).Success?
    ensures NormMonth(req.month).Success? && Prepare(req).value.month == NormMonth(req.month).value
    ensures SaveOutcome(months, req) == Upsert(months, Prepare(req).value, req.notes, req.merge)
  {
  }

  /** Storing fails only in a merge into an existing record, with the merge's error. */
  lemma UpsertFails(months: map<string, MonthRecord>, p: Prepared, notes: Option<string>, merge: bool)
    ensures Upsert(months, p, notes, merge).Failure?
        <==> p.month in months && merge && Merged(months[p.month].expenses, p.items).Failure?
    ensures Upsert(months, p, notes, merge).Failure?
        ==> Upsert(months, p, notes, merge).error == Merged(months[p.month].expenses, p.items).error
  {
  }

  /** The items of an accepted request, one per input, each blank exactly when its input is. */
  lemma PreparedItems(req: SaveRequest)
    requires Prepare(req).Success?
    ensures var items := Prepare(req).value.items;
      && |items| == |req.expenses|
      && (forall i :: 0 <= i < |items| ==> ExpenseOk(items[i]))
      && forall i :: 0 <= i < |items| ==>
           req.expenses[i].category.Some? && (Strip(items[i].category) == "" <==> Strip(req.expenses[i].category.value) == "")
  {
    NormalizeAllItems(req.expenses);
    var items := Prepare(req).value.items;
    forall i | 0 <= i < |items|
      ensures req.expenses[i].category.Some? && (Strip(items[i].category) == "" <==> Strip(req.expenses[i].category.value) == "")
    {
      NormalizedCategory(req.expenses[i]);
    }
  }

  /** A merge of cleaned items fails exactly when one has a blank category, and then with MissingCategory. */
  lemma MergeBlank(existing: seq<Expense>, items: seq<Expense>)
    requires forall i :: 0 <= i < |items| ==> ExpenseOk(items[i])
    ensures Merged(existing, items).Failure? <==> exists i :: 0 <= i < |items| && Strip(items[i].category) == ""
    ensures Merged(existing, items).Failure? ==> Merged(existing, items).error == MissingCategory
  {
    MergeOnlyOk(existing, items);
    if Merged(existing, items).Failure? {
      MergeFailureError(existing, items);
    }
  }

  /**
   * Saving the same request twice leaves the store as one save does, provided the
   * month already had a record or the expenses are replaced rather than merged.
   */
  lemma SaveIdempotent(months: map<string, MonthRecord>, req: SaveRequest)
    requires SaveOutcome(months, req).Success?
    requires NormMonth(req.month).value in months || !req.merge
    ensures SaveOutcome(SaveOutcome(months, req).value, req) == SaveOutcome(months, req)
  {
    var p := Prepare(req).value;
    var once := SaveOutcome(months, req).value;
    var rec := once[p.month];
    if req.merge {
      var prior := months[p.month];
      MergeOnlyOk(prior.expenses, p.items);
      MergeIdempotent(prior.expenses, p.items);
      assert Merged(rec.expenses, p.items) == Success(rec.expenses);
    }
    assert Upsert(once, p, req.notes, req.merge) == Success(once[p.month := rec]);
    assert once[p.month := rec] == once;
  }

  /** Two items, "b" before "a", saved into a month "2026-01" that has no record yet. */
  function ReorderRequest(): SaveRequest {
    SaveRequest("2026-01", None, None,
                [ExpenseInput(Some("b"), None, None), ExpenseInput(Some("a"), None, None)],
                None, true)
  }

  /** The two items of ReorderRequest normalise to themselves, in the given order. */
  lemma ReorderItems()
    ensures NormalizeAll(ReorderRequest().expenses) == Success([Expense("b", 0, None), Expense("a", 0, None)])
  {
    var req := ReorderRequest();
    var b, a := Expense("b", 0, None), Expense("a", 0, None);
    assert Strip("b") == "b" && Strip("a") == "a";
    assert NormalizeItem(req.expenses[0]) == Success(b);
    assert NormalizeItem(req.expenses[1]) == Success(a);
    var none: seq<ExpenseInput> := [];
    var first := req.expenses[..1];
    assert NormalizeAll(none) == Success([]);
    assert first[..|first| - 1] == none && first[|first| - 1] == req.expenses[0];
    NormalizeStep(first);
    assert NormalizeAll(first).value == [] + [b];
    assert req.expenses[..|req.expenses| - 1] == first && req.expenses[|req.expenses| - 1] == req.expenses[1];
    NormalizeStep(req.expenses);
    assert NormalizeAll(req.expenses).value == [b] + [a] == [b, a];
  }

  lemma ReorderPrepared()
    ensures Prepare(ReorderRequest())
         == Success(Prepared("2026-01", Income(0, None), [Expense("b", 0, None), Expense("a", 0, None)]))
  {
    var req := ReorderRequest();
    NormMonthKey("2026-01");
    ReorderItems();
    assert NormMonth(req.month) == Success("2026-01");
    assert CleanAmount(req.incomePlanned) == Success(None) && CleanAmount(req.incomeActual) == Success(None);
  }

  lemma ReorderFirstSave()
    ensures SaveOutcome(map[], ReorderRequest())
         == Success(map["2026-01" := MonthRecord(Income(0, None), [Expense("b", 0, None), Expense("a", 0, None)], "")])
  {
    ReorderPrepared();
  }

  lemma ReorderMergeSorts()
    ensures Merged([Expense("b", 0, None), Expense("a", 0, None)], [Expense("b", 0, None), Expense("a", 0, None)]).Success?
    ensures Merged([Expense("b", 0, None), Expense("a", 0, None)], [Expense("b", 0, None), Expense("a", 0, None)]).value
         != [Expense("b", 0, None), Expense("a", 0, None)]
  {
    var items := [Expense("b", 0, None), Expense("a", 0, None)];
    assert Strip("b") == "b" && Strip("a") == "a";
    assert ItemOk(items[0]) && ItemOk(items[1]);
    MergeSorted(items, items);
    assert !StrLe(SortKey(items[0]), SortKey(items[1])) by {
      assert Lower("b") == "b" && Lower("a") == "a";
    }
  }

  /**
   * The first save of a month stores the items as given, and a second identical save
   * merges and sorts them: two items out of order come back reordered.
   */
  lemma SaveTwiceOnNewMonth()
    ensures var once := SaveOutcome(map[], ReorderRequest());
      && once.Success?
      && "2026-01" in once.value
      && once.value["2026-01"].expenses == [Expense("b", 0, None), Expense("a", 0, None)]
      && SaveOutcome(once.value, ReorderRequest()).Success?
      && SaveOutcome(once.value, ReorderRequest()) != once
  {
    var items := [Expense("b", 0, None), Expense("a", 0, None)];
    var once := map["2026-01" := MonthRecord(Income(0, None), items, "")];
    ReorderFirstSave();
    ReorderPrepared();
    ReorderMergeSorts();
    var r := Merged(items, items).value;
    var twice := once["2026-01" := MonthRecord(Income(0, None), r, "")];
    assert SaveOutcome(once, ReorderRequest()) == Success(twice);
    assert twice["2026-01"].expenses != once["2026-01"].expenses;
  }

  // ---------------------------------------------------------------------------
  // Properties of the queries.

  /**
   * `get_month_budget` fails with InvalidFormat or, for a month without a record,
   * NotFound; otherwise its figures are the record's rollup, its categories the
   * rollup's rows sorted stably by lower-cased name.
   */
  lemma MonthViewFacts(months: map<string, MonthRecord>, month: string)
    ensures var v := MonthViewOf(months, month);
      && (NormMonth(month).Failure? ==> v == Failure(InvalidFormat))
      && (NormMonth(month).Success? && NormMonth(month).value !in months ==> v == Failure(NotFound))
      && (NormMonth(month).Success? && NormMonth(month).value in months ==> v.Success?)
    ensures var v := MonthViewOf(months, month);
      v.Success? ==>
        var m := NormMonth(month).value;
        var rows := v.value.rollup.categories;
        && v.value.month == m
        && v.value.notes == months[m].notes
        && v.value.rollup.(categories := RowsOf(months[m].expenses)) == RollupOf(months[m])
        && SortedBy(rows, RowOrder)
        && multiset(rows) == multiset(RowsOf(months[m].expenses))
        && forall k :: WithKey(rows, RowOrder, k) == WithKey(RowsOf(months[m].expenses), RowOrder, k)
  {
    if MonthViewOf(months, month).Success? {
      var m := NormMonth(month).value;
      var rows := RowsOf(months[m].expenses);
      SortByProps(rows, RowOrder);
      forall k ensures WithKey(SortBy(rows, RowOrder), RowOrder, k) == WithKey(rows, RowOrder, k) {
        SortByStable(rows, RowOrder, k);
      }
    }
  }

  /**
   * After a save, the month reads back with the cleaned income, the notes given (or
   * those kept), and the stored expenses as the normalised items or their merge.
   */
  lemma SaveThenGet(months: map<string, MonthRecord>, req: SaveRequest)
    requires SaveOutcome(months, req).Success?
    ensures Prepare(req).Success?
    ensures var after := SaveOutcome(months, req).value;
      var m := NormMonth(req.month).value;
      var items := Prepare(req).value.items;
      var v := MonthViewOf(after, req.month);
      && v.Success?
      && v.value.rollup.incomePlanned == CleanAmount(req.incomePlanned).value.GetOr(0)
      && v.value.rollup.incomeActual == CleanAmount(req.incomeActual).value
      && v.value.notes == (if req.notes.Some? then req.notes.value else if m in months then months[m].notes else "")
      && (m !in months || !req.merge ==> after[m].expenses == items)
      && (m in months && req.merge ==>
            && KeysOf(after[m].expenses) == KeysOf(months[m].expenses) + KeysOf(items)
            && forall i :: 0 <= i < |after[m].expenses| ==>
                 after[m].expenses[i] == MergedEntry(months[m].expenses, items, CategoryKey(after[m].expenses[i].category)))
  {
    var p := Prepare(req).value;
    MonthViewFacts(SaveOutcome(months, req).value, req.month);
    if p.month in months && req.merge {
      MergeOnlyOk(months[p.month].expenses, p.items);
      MergeEntries(months[p.month].expenses, p.items);
    }
  }

  /**
   * For a year from 1 to 9999 the overview's months are the canonical keys of
   * January to December, in order; a month without a record has the zero row, and
   * one with a record carries its rollup's totals, net planned being income minus
   * expenses.
   */
  lemma YearOverviewRows(months: map<string, MonthRecord>, year: int)
    ensures var rows := YearOverviewOf(months, year).months;
      && |rows| == 12
      && forall i :: 0 <= i < 12 ==>
           && rows[i].month == FormatMonth(YearMonth(year, i + 1))
           && (1 <= year <= 9999 ==> NormMonth(rows[i].month) == Success(rows[i].month))
           && (rows[i].month !in months ==> rows[i] == YearRow(rows[i].month, 0, None, 0, None, 0, None))
           && (rows[i].month in months ==>
                 && rows[i].expenseActual.Some?
                 && rows[i].netPlanned == rows[i].incomePlanned - rows[i].expensePlanned
                 && (rows[i].netActual.Some? <==> rows[i].incomeActual.Some?))
  {
    var ms := YearMonths(year);
    forall i | 0 <= i < 12 && 1 <= year <= 9999 ensures NormMonth(ms[i]) == Success(ms[i]) {
      NormMonthComplete(YearMonth(year, i + 1));
    }
  }

  /** Proof step for GetYearOverview: twelve rows built month by month are the overview. */
  lemma OverviewRows(months: map<string, MonthRecord>, year: int, rows: seq<YearRow>)
    requires |rows| == 12 && forall j :: 0 <= j < 12 ==> rows[j] == YearRowOf(months, YearMonths(year)[j])
    ensures YearOverview(year, rows) == YearOverviewOf(months, year)
  {
  }

  /** A well-formed store holds no month of a year outside 1..9999, so that year's rows are all zero rows. */
  lemma YearOverviewOutOfRange(months: map<string, MonthRecord>, year: int)
    requires StoreOk(months) && !(1 <= year <= 9999)
    ensures var rows := YearOverviewOf(months, year).months;
      forall i :: 0 <= i < 12 ==> rows[i] == YearRow(MonthKey(year, i + 1), 0, None, 0, None, 0, None)
  {
    var ms := YearMonths(year);
    forall i | 0 <= i < 12 ensures ms[i] !in months {
      OutOfRangeKey(year, i + 1);
    }
  }

  /** Every stored month of the year appears in the overview, at its own position. */
  lemma YearOverviewCovers(months: map<string, MonthRecord>, year: int)
    requires StoreOk(months)
    ensures forall m :: m in months ==> ParseMonth(m).Some?
    ensures var rows := YearOverviewOf(months, year).months;
      forall m :: m in months && ParseMonth(m).value.year == year ==>
        && 1 <= ParseMonth(m).value.month <= 12
        && rows[ParseMonth(m).value.month - 1] == YearRowOf(months, m)
  {
    forall m | m in months ensures ParseMonth(m).Some? && ValidMonth(ParseMonth(m).value) && m == FormatMonth(ParseMonth(m).value) {
      NormMonthKey(m);
      NormMonthSound(m);
    }
  }

  /**
   * The running total of the series rows starts at the first month's actual net
   * savings and grows by each later month's, unchanged where there is none.
   */
  lemma SeriesRowsFacts(months: map<string, MonthRecord>, ms: seq<string>)
    ensures var rows := SeriesRowsOf(months, ms);
      && |rows| == |ms|
      && (forall i :: 0 <= i < |ms| ==> rows[i].month == ms[i])
      && (|ms| >= 1 ==> rows[0].cumulative == rows[0].netActual.GetOr(0))
      && (forall i :: 0 < i < |ms| ==> rows[i].cumulative == rows[i - 1].cumulative + rows[i].netActual.GetOr(0))
      && (forall i :: 0 <= i < |ms| && ms[i] !in months ==> rows[i].netPlanned == 0 && rows[i].netActual.None?)
  {
    if |ms| >= 1 {
      SeriesRowsStep(months, ms, 0);
      assert ms[..0] == [];
    }
    forall i | 0 < i < |ms|
      ensures Cumulative(months, ms[..i + 1]) == Cumulative(months, ms[..i]) + NetActualOf(months, ms[i]).GetOr(0)
    {
      SeriesRowsStep(months, ms, i);
    }
  }

  /**
   * `get_series` fails as `_month_iter` does; otherwise it runs from the normalised
   * start to the normalised end, with one row per month of the range.
   */
  lemma SeriesFacts(months: map<string, MonthRecord>, fromMonth: string, toMonth: string)
    ensures SeriesOf(months, fromMonth, toMonth).Failure? <==> MonthRange(fromMonth, toMonth).Failure?
    ensures SeriesOf(months, fromMonth, toMonth).Failure? ==>
      SeriesOf(months, fromMonth, toMonth).error == MonthRange(fromMonth, toMonth).error
    ensures SeriesOf(months, fromMonth, toMonth).Success? ==>
      var s := SeriesOf(months, fromMonth, toMonth).value;
      var ms := MonthRange(fromMonth, toMonth).value;
      && s.from == NormMonth(fromMonth).value
      && s.to == NormMonth(toMonth).value
      && |ms| >= 1
      && s.rows == SeriesRowsOf(months, ms)
  {
    if MonthRange(fromMonth, toMonth).Success? {
      MonthRangeValue(fromMonth, toMonth);
      MonthRangeEnds(fromMonth, toMonth);
    }
  }
}
