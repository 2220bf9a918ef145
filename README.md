# Monthly budget store — a verified model

`budget.py` keeps a household budget as one JSON document. The document maps
canonical month keys (`"YYYY-MM"`) to month records. Each record holds a planned and
an actual income, a list of expense categories with planned and actual amounts, and
free-text notes. The store's operations are:

- `save_month_budget` creates or updates a month. It can merge the incoming expense
  categories into the stored ones, matching them by trimmed, lower-cased name, or it
  can replace them.
- `get_month_budget` returns a month's rollup: totals, net savings, variances and
  savings rates.
- `get_year_overview` returns twelve monthly rows for a year.
- `get_series` returns net savings with a running total over a range of months.
- `list_all_categories` returns every category name in use.

This project models that core in Dafny and proves what it promises.

Modules, in dependency order:

| module | models |
|---|---|
| `Wrappers` | `Option`, `Result` and the error kinds the store raises |
| `Text` | `str.strip` (Python's whitespace set), `str.lower` on ASCII, and string order |
| `Sorting` | `sorted(..., key=...)`: a stable sort, as insertion sort |
| `Months` | `_norm_month` (the `%Y-%m` grammar) and `_month_iter` |
| `Amounts` | `_clean_amount` and the `x or 0.0` idiom |
| `Records` | the stored records and the category key |
| `Merge` | `_merge_expenses`: a two-loop method, its specification function, and a key-by-key reference description |
| `Rollup` | `_calc_month_rollup` |
| `Store` | the `BudgetStore` class: `save_month_budget` and the four queries |

How values are represented:

- Amounts are integer cents. Rounding to two decimals is then the identity, and the
  bound 1e8 is `MaxAmount = 10_000_000_000` cents.
- A caller-supplied amount is a `Raw`. It is either a number, or a value `float()`
  rejects, together with that value's Python truthiness.
- Savings rates are exact `real` fractions.
- Each method that has a loop in the source is a Dafny method with loop invariants.
  Its postcondition equates its result with a pure function: `MergeExpenses` with
  `Merged`, `CalcMonthRollup` with `RollupOf`, `MonthIter` with `MonthRange`. The
  lemmas state the source's promises about those functions.

## Model

| member | source | states |
|---|---|---|
| `Months.ParseMonth` | budget.py:50 | `strptime(month, "%Y-%m")`: four digits, `-`, then a month matching `1[0-2]`, `0[1-9]` or `[1-9]`, with year 0 refused. `ParseMonthChars` proves that a parsed month has a year in 1–9999 and a month in 1–12, and what its characters are. |
| `Months.NormMonth` | budget.py:47-53 | `_norm_month`: the only error is InvalidFormat, raised exactly when `strptime` fails. What it accepts and returns is proved by `NormMonthSound`, `NormMonthComplete` and `NormMonthKey`. |
| `Months.NormMonthSound` | budget.py:47-53 | Any string `_norm_month` accepts is either the zero-padded `YYYY-MM` or the one-digit `YYYY-M` spelling of a month with year 1–9999 and month 1–12. The result is the canonical padded key. Normalising a normalised key returns it unchanged. |
| `Months.NormMonthComplete` | budget.py:47-53 | Every valid month is accepted in its padded spelling and, for months 1–9, in its one-digit spelling. Both normalise to the padded key. |
| `Months.NormMonthKey` | budget.py:47-53 | A canonical key is accepted and returned unchanged. |
| `Months.NormMonthPadded` | budget.py:47-53 | `"2026-02"` is accepted and returned unchanged. |
| `Months.NormMonthShort` | budget.py:47-53 | `"2026-2"` is accepted and normalised to `"2026-02"`. |
| `Months.NormMonthRejects` | budget.py:47-53 | `"2026-13"` and `"0000-01"` raise InvalidFormat. |
| `Months.MonthKey` | budget.py:63 | The f-string `f"{y:04d}-{m:02d}"` used as a month key, here and at budget.py:223. Proved by `FormatParse` and `OutOfRangeKey`. |
| `Months.FormatMonth` | budget.py:51 | `dt.strftime("%Y-%m")`: the key of a parsed month. Proved by `FormatParse`. |
| `Months.FormatParse` | budget.py:50-51 | Formatting a valid month as `%Y-%m` and parsing it back gives the same month, and the formatted key is canonical. |
| `Months.MonthRange` | budget.py:55-68 | `_month_iter`'s result, as the specification of `MonthIter`: InvalidFormat for a malformed endpoint, InvalidRange when the start is after the end, else the keys from start to end. Its properties are proved by the `MonthRange…` lemmas below. |
| `Months.MonthIter` | budget.py:55-68 | The while loop over `cur_y`/`cur_m` returns exactly the range function's result: InvalidFormat for a malformed endpoint (the start is checked first), InvalidRange when start is after end, and otherwise the list of keys. |
| `Months.WalkMonths` | budget.py:60-68 | The loop from start to end appends the keys of the months from start to end, in order, one per month, and stops after the end month. |
| `Months.NextMonth` | budget.py:63-67 | One step of the loop moves to the next month: month 12 rolls over to month 1 of the next year, and the month's ordinal grows by one. |
| `Months.After` | budget.py:63-67 | k steps from a month reach the month whose ordinal is k larger, and stay within months 1–12. |
| `Months.OrdinalOrder` | budget.py:58 | For months 1–12, one ordinal is smaller than another exactly when its year is smaller, or the years are equal and its month is smaller: the datetime order that `start > end` uses. |
| `Months.OrdinalInjective` | budget.py:58 | Two months with months 1–12 and the same ordinal are the same month. |
| `Months.BetweenValid` | budget.py:55-68 | A month between two months of years 1–9999 is itself within years 1–9999. |
| `Months.BetweenKey` | budget.py:61-64 | Key i of the keys from start to end is canonical and parses to the month i months after the start. |
| `Months.BetweenEnds` | budget.py:61-64 | The keys from start to end begin with the start's key and finish with the end's key. |
| `Months.MonthRangeValue` | budget.py:55-68 | On success both endpoints parse to months of years 1–9999 with start ≤ end. The result is the keys of the months from start to end, and the endpoints normalise to the start and end keys. |
| `Months.MonthRangeLength` | budget.py:55-68 | The range has (ey − sy)·12 + (em − sm) + 1 keys. |
| `Months.MonthRangeEnds` | budget.py:55-68 | The first and last keys are the normalised endpoints. |
| `Months.MonthRangeSteps` | budget.py:61-67 | Every key is canonical, and each key is the month after the previous one: month 12 rolls over to month 1 of the next year. |
| `Months.MonthRangeIncreasing` | budget.py:55-68 | The keys are strictly increasing in ordinal, which by `OrdinalOrder` is the datetime order. |
| `Amounts.CleanAmount` | budget.py:70-83 | None passes through. A value `float()` rejects raises InvalidAmount. A magnitude above 1e8 raises AmountTooLarge, and this is checked before the sign is dropped. Otherwise the result is the magnitude, between 0 and 1e8. |
| `Amounts.CleanAmountIdempotent` | budget.py:70-83 | Cleaning a cleaned amount again returns the same amount. |
| `Amounts.CleanAmountExamples` | budget.py:77-82 | −50.00 cleans to 50.00. Both 1e9 and −1e9 raise AmountTooLarge. A non-number raises InvalidAmount. |
| `Amounts.OrZero` | budget.py:96 | `x or 0.0` yields 0 exactly for a missing value, a zero, or a falsy non-number. A number and a truthy non-number pass through unchanged. A missing value or a falsy non-number becomes the number 0. |
| `Text.Strip` | budget.py:133 | `str.strip()` with no argument: leading and trailing characters of Python's whitespace set are removed. Proved by `StripIdempotent` and `StripEmpty`. |
| `Text.StripIdempotent` | budget.py:133 | Stripping a stripped category changes nothing. |
| `Text.StripEmpty` | budget.py:93 | A category is blank after `strip()` exactly when every character is whitespace. |
| `Records.CategoryKey` | budget.py:89 | The merge key `category.strip().lower()`, also at budget.py:95. Proved by `SortKeyDeterminesCategoryKey` and `NormalizedCategory`. |
| `Records.SortKey` | budget.py:107 | The sort key `x["category"].lower()` of the merged items. Proved by `SortKeyDeterminesCategoryKey` and `MergeSorted`. |
| `Records.SortKeyDeterminesCategoryKey` | budget.py:89-107 | Two names with the same lower-cased form have the same category key. So once category keys are unique, the sort by lower-cased name has no ties. |
| `Sorting.SortBy` | budget.py:107 | `sorted(..., key=...)`, as an insertion sort. Proved by `SortByProps`, `SortByStable` and `SortedUnique`. |
| `Sorting.SortByProps` | budget.py:107 | The sort returns a permutation of its input that is ordered by the key. |
| `Sorting.SortByStable` | budget.py:107 | The sort is stable: elements with equal keys keep their input order. |
| `Sorting.SortedUnique` | budget.py:107 | Two key-sorted lists with no repeated key and the same elements are equal. |
| `Merge.Put` | budget.py:90 | `by_key[key] = …`: a new key goes to the end of the key list, and an existing key keeps its place. Proved through `IndexExisting` and `FoldIncoming`. |
| `Merge.Values` | budget.py:107 | `by_key.values()`, in insertion order. Proved through `MergeKeys` and `MergeEntries`. |
| `Merge.IndexExisting` | budget.py:87-90 | The first loop yields a dict whose keys are distinct, whose key list and entries hold the same keys, and whose entry under each key has that category key. |
| `Merge.IndexExistingEntries` | budget.py:88-90 | The entry under each key is the last existing item with that key. |
| `Merge.ApplyIncoming` | budget.py:92-104 | One pass of the second loop: blank category, then amounts, are rejected; a known key gets the new planned amount and, when given, the new actual amount, keeping its display name; a new key is inserted. Proved by `FoldIncomingEntries`, `MergeRejects` and `MergeOnlyOk`. |
| `Merge.FoldIncoming` | budget.py:92-104 | The second loop keeps the dict well formed. |
| `Merge.FoldIncomingEntries` | budget.py:92-104 | The update rules, key by key. A known key keeps its display name. Its planned amount becomes the last incoming planned amount, with the sign dropped. Its actual amount becomes the last incoming actual that is not null, or else stays as it was. A new key takes the name of its first incoming item. |
| `Merge.Merged` | budget.py:85-108 | `_merge_expenses`' result, as the specification of `MergeExpenses`: the two loops' dict, sorted by lower-cased name. Its properties are proved by `MergeSorted`, `MergeKeys`, `MergeEntries`, `MergeIdempotent` and the `Merge…` failure lemmas. |
| `Merge.MergeExpenses` | budget.py:85-108 | The two loops over the `by_key` dict, followed by the sort, compute exactly the merge function's result or its error. |
| `Merge.FoldFailurePersists` | budget.py:92-104 | Once an incoming item raises, the loop raises that error whatever items follow. |
| `Merge.MergeRejects` | budget.py:92-97 | A merge raises the error of the first rejected item. A blank category raises MissingCategory, checked before the amounts. An amount above 1e8 raises AmountTooLarge. |
| `Merge.MergeOnlyOk` | budget.py:92-104 | A merge succeeds exactly when every incoming item has a non-blank category and amounts within 1e8. |
| `Merge.MergeFailureError` | budget.py:92-104 | A merge that raises reports the error of one of the rejected items. |
| `Merge.MergeSorted` | budget.py:106-107 | The merged list is sorted by lower-cased name. No category key occurs twice, and no two names tie. |
| `Merge.MergeKeys` | budget.py:85-108 | Nothing is deleted: the merged keys are exactly the existing keys together with the incoming keys. |
| `Merge.MergeEntries` | budget.py:96-104 | Each merged item is the reference entry for its key, as the update rules define it. |
| `Merge.MergeAmountsOk` | budget.py:96-104 | Merging stored items keeps every amount a cleaned amount. |
| `Merge.MergeIdempotent` | budget.py:85-108 | Merging the same items into a merged list again returns the same list. |
| `Rollup.Rate` | budget.py:184-191 | A savings rate: `net / income` when income is positive, otherwise None. Proved by `RollupRates` and `RatesAtMostOne`. |
| `Rollup.RollupOf` | budget.py:161-206 | `_calc_month_rollup`'s result, as the specification of `CalcMonthRollup`. Its properties are proved by `RowsCarryTotals`, `SumBounds`, `RollupNet`, `RollupRates`, `RatesAtMostOne` and `RollupPermutation`. |
| `Rollup.CalcMonthRollup` | budget.py:161-206 | The accumulating loop and the net and rate computations return exactly the rollup function's result. |
| `Rollup.RowOf` | budget.py:175-180 | A category row has a variance exactly when the item has an actual amount, and planned + variance = actual. |
| `Rollup.RowsCarryTotals` | budget.py:166-180 | There is one row per expense, in input order, carrying the item's amounts. When every item has an actual amount, the variances add up to actual total − planned total. |
| `Rollup.SumPermutation` | budget.py:166-174 | The expense totals do not depend on the order of the items. |
| `Rollup.SumBounds` | budget.py:166-174 | For cleaned amounts, both totals are non-negative and at most 1e8 per item. A missing actual counts as 0, so the actual total is always a number. |
| `Rollup.RollupNet` | budget.py:182-200 | Planned net = planned income − planned expenses. Actual net and net variance exist exactly when actual income does. Then actual net = actual income − actual expenses, and variance = actual net − planned net. |
| `Rollup.RollupRates` | budget.py:184-191 | A savings rate exists exactly when its income is positive. Then rate × income = net. |
| `Rollup.RatesAtMostOne` | budget.py:184-191 | For cleaned amounts, each savings rate is at most 1. It is non-negative exactly when expenses do not exceed income. |
| `Rollup.RollupPermutation` | budget.py:161-206 | Reordering the expense items changes neither the totals, nor the net savings, nor the rates. |
| `Store.NormalizeItem` | budget.py:130-136 | A missing category raises MissingCategory. A truthy non-number planned amount raises InvalidAmount, and a planned magnitude above 1e8 raises AmountTooLarge; after the planned amount, the actual amount's error is raised. On success the category is the stripped input category, the planned amount is the magnitude of the given number, or 0 when it is missing or falsy, and the actual amount is the magnitude of the given number exactly when one was given. |
| `Store.NormalizeAll` | budget.py:128-136 | The normalising loop's result: the items normalised in order, or the error of the first item that raises. Proved by `NormalizeAllItems`, `NormalizeAllFails` and `NormalizeStep`. |
| `Store.NormalizeExpenses` | budget.py:128-136 | The normalising loop computes exactly the normalisation function's result or its error. |
| `Store.NormalizeAllItems` | budget.py:128-136 | Normalisation succeeds exactly when every item does. It then yields one item per input, in order. |
| `Store.NormalizeAllFails` | budget.py:129-136 | Normalisation raises the error of the first failing item. |
| `Store.NormalizeStep` | budget.py:129-136 | One more item: normalising succeeds exactly when the earlier items and the new one do, and the new item's result goes last. |
| `Store.NormalizedCategory` | budget.py:133 | A normalised category has no surrounding whitespace and keeps the input's category key. |
| `Store.BudgetStore.constructor` | budget.py:28-39 | A new store has no months. |
| `Store.Prepare` | budget.py:123-136 | The validation `save_month_budget` does before it reads the store, in its order: month, planned income, actual income, then the items. Proved by `PrepareOk` and `PreparedItems`. |
| `Store.Upsert` | budget.py:138-156 | The store update: a new record, or the existing one with income overwritten, notes replaced when given, and expenses merged or replaced. Proved by `UpsertOk`, `UpsertFails`, `SaveTouchesOneMonth` and `SaveThenGet`. |
| `Store.SaveOutcome` | budget.py:123-156 | The store after `save_month_budget`, or its error: the specification of `SaveMonthBudget`. Proved by `SaveOutcomeOf`, `SaveKeepsStoreOk`, `SaveIdempotent` and `SaveBlankCategory`. |
| `Store.BudgetStore.SaveMonthBudget` | budget.py:112-159 | On success the store becomes the save function's result, and the call returns the normalised month. On any error the store is unchanged. Every stored key stays canonical and every stored amount stays cleaned. |
| `Store.SaveKeepsStoreOk` | budget.py:123-156 | A save keeps every key a canonical month and every amount a cleaned amount. |
| `Store.PrepareOk` | budget.py:123-136 | An accepted request has a canonical month key, cleaned income amounts and items with cleaned amounts. |
| `Store.UpsertOk` | budget.py:140-156 | Storing an accepted request into a well-formed store keeps it well formed, on both the merge and the replace path. |
| `Store.UpsertFails` | budget.py:140-156 | Storing fails only when it merges into an existing record and the merge raises, and then with the merge's error. |
| `Store.SaveOutcomeOf` | budget.py:123-156 | An accepted request is stored under its normalised month. |
| `Store.PreparedItems` | budget.py:128-136 | An accepted request yields one item per input, each with cleaned amounts, and an item is blank exactly when its input category is. |
| `Store.MergeBlank` | budget.py:85-108 | A merge of items with cleaned amounts fails exactly when one of them has a blank category, and then it raises MissingCategory. |
| `Store.SaveTouchesOneMonth` | budget.py:140-156 | A save adds or changes only its own month's record. Every other month is unchanged. |
| `Store.SaveBlankCategory` | budget.py:128-156 | After validation, a save fails only by merging a blank category into an existing record, and then it raises MissingCategory. Without a merge, a blank category is stored. |
| `Store.SaveIdempotent` | budget.py:141-156 | A second identical save leaves the store as the first one did, if the month already had a record or the expenses are replaced. |
| `Store.SaveTwiceOnNewMonth` | budget.py:141-154 | On a month without a record, a second identical save can change the store. The first save stores the items as given; the second merges them and sorts them. |
| `Store.SaveThenGet` | budget.py:112-159 | After a save, the month reads back with the cleaned income and the given notes. Without notes, the old notes are kept, or `""` for a new record. The expenses are the normalised items, or, on the merge path, the key-by-key merge with the old ones. |
| `Store.RowOrder` | budget.py:218 | The sort key `x["category"].lower()` of the month view's rows. Proved by `MonthViewFacts`. |
| `Store.MonthViewOf` | budget.py:208-219 | `get_month_budget`'s result, as the specification of `GetMonthBudget`. Proved by `MonthViewFacts`. |
| `Store.BudgetStore.GetMonthBudget` | budget.py:208-219 | Returns exactly the month view function's result. |
| `Store.MonthViewFacts` | budget.py:208-219 | A malformed month raises InvalidFormat, and a month without a record raises NotFound. Otherwise the figures are the record's rollup. The categories are the rollup's rows, as a permutation sorted stably by lower-cased name. |
| `Store.YearOverviewOf` | budget.py:221-250 | `get_year_overview`'s result, as the specification of `GetYearOverview`. Proved by `YearOverviewRows`, `YearOverviewCovers` and `YearOverviewOutOfRange`. |
| `Store.YearMonths` | budget.py:223 | The twelve keys `f"{year:04d}-{i:02d}"` for i from 1 to 12. Proved by `YearOverviewRows`. |
| `Store.YearRowOf` | budget.py:228-249 | One overview row: the rollup's top-line figures for a stored month, or zeros and Nones without a record. Proved by `YearOverviewRows`. |
| `Store.BudgetStore.GetYearOverview` | budget.py:221-250 | Returns exactly the overview function's result. For a well-formed store and a year outside 1–9999, all twelve rows are zero rows. |
| `Store.YearOverviewRows` | budget.py:221-250 | For any year, there are twelve rows keyed `f"{year:04d}-{i:02d}"` for January to December, in order; for years 1–9999 these are canonical keys. A month without a record has the zero row. A month with a record has a numeric actual expense total, and net planned = income − expenses. |
| `Store.YearOverviewCovers` | budget.py:223-229 | Every stored month of the year appears in the overview, at the position of its month number. |
| `Store.YearOverviewOutOfRange` | budget.py:221-250 | In a well-formed store no month of a year outside 1–9999 has a record, so every row of that year's overview is a zero row. |
| `Months.OutOfRangeKey` | budget.py:223 | The key `f"{year:04d}-{i:02d}"` of a year outside 1–9999 is never a canonical month key. |
| `Months.DecimalLong` | budget.py:223 | A year of 10000 or more has at least five decimal digits, so its key is longer than `YYYY-MM`. |
| `Store.SeriesOf` | budget.py:252-279 | `get_series`' result, as the specification of `GetSeries`. Proved by `SeriesFacts` and `SeriesRowsFacts`. |
| `Store.Cumulative` | budget.py:255-270 | The running total `cumulative_actual`: each month's actual net savings added in order, a missing one adding nothing. Proved by `SeriesRowsFacts`. |
| `Store.BudgetStore.GetSeries` | budget.py:252-279 | Returns exactly the series function's result. |
| `Store.SeriesFacts` | budget.py:252-279 | The series fails exactly as the month range does. Otherwise it runs from the normalised start to the normalised end, with one row per month of the range. |
| `Store.SeriesRowsFacts` | budget.py:255-278 | The running total starts at the first month's actual net savings. It then grows by each later month's actual net, and stays unchanged where there is none. A month without a record has net planned 0 and no actual net. |
| `Store.CategoriesIn` | budget.py:282-287 | The set `cats` built by `list_all_categories`' loops over the given month keys. Proved by `CollectCategories`. |
| `Store.BudgetStore.ListAllCategories` | budget.py:281-288 | Returns every stored category name, stripped, with the empty name left out. Each name occurs once, and the names are sorted by their lower-cased form. |
| `Store.CollectCategories` | budget.py:282-287 | The nested loops collect exactly the set of stripped stored category names. |
| `Store.SortDistinct` | budget.py:288 | The filter and sort return the non-empty names of the set, each once, sorted by their lower-cased form. |

## Where the code differs from what it suggests

The model follows the code in each case.

- Month parsing: the comment at budget.py:48 and the error message at budget.py:53
  ask for `YYYY-MM`. But `strptime`'s `%m` also accepts a one-digit month, so
  `"2026-2"` is accepted and normalised to `"2026-02"` (`NormMonthShort`).
- Merge, planned amount: the comment at budget.py:86 says planned and actual are
  updated "if provided". The actual amount is. The planned amount always overwrites
  the stored one: `_clean_amount(... or 0.0)` at budget.py:96 never returns None, so
  the test `if planned is not None` at budget.py:100 is always true. An item saved
  without a planned amount therefore resets the stored one to 0 (`NormalizeItem`,
  `FoldIncomingEntries`).
- Saving twice with the same input is not idempotent for a month that had no record.
  The first save stores the normalised items as given: unsorted, and possibly with
  repeated keys. The second save merges them and sorts them (`SaveTwiceOnNewMonth`).
  Idempotence does hold once the month has a record, or when expenses are replaced
  (`SaveIdempotent`).
- Blank categories: the merge's error at budget.py:94 asks for a non-empty category,
  while the normalising loop's check at budget.py:130-131 only asks that the key be
  present. So a blank category is rejected only when it is merged into an existing
  record. A new record, or a replace, stores it (`SaveBlankCategory`).

## Left out

- Reading and writing the JSON file (`_ensure_store`, `_save_store`): creation,
  silent repair of a corrupt document, and the atomic rename. The document is the
  `months` map field of `BudgetStore`.
- `_DATA_LOCK`: it only serialises threads, and the model is sequential.
- Binary floating point. Amounts are integer cents, so `round(v, 2)` is the
  identity. Savings rates are exact fractions, and `round(rate, 4)` is not modelled.
  `float(x)` on strings and other objects is reduced to the `Raw` cases: a number,
  or a rejected value with its truthiness.
- The `datetime` library: the `%Y-%m` grammar is modelled directly.
  - Only ASCII digits are modelled, whereas the `\d` in `strptime`'s pattern also
    matches other Unicode decimal digits.
  - The `%Y` output for years below 1000 is platform-dependent; the model pads them
    to four digits.
- `str.lower` is modelled for ASCII letters only. Other characters are left as they
  are.
- Values that are not strings: categories are modelled as strings, so `str(...)` of
  another type is not modelled. An `expenses` argument of None, which the code treats
  as an empty list, is not representable either.
- Python truthiness of records: a stored record is never an empty dict, so "has a
  record" is map membership. Stored items always carry `planned` and `category`, so
  the `.get` defaults in the rollup and in `_merge_expenses`' first loop are not
  modelled.
- `_merge_expenses`' check for an item without a `category` key: its only caller
  always supplies one, and the model's `Expense` always has one.
- The dict `{"status": "ok", "month": m}` returned by `save_month_budget` is modelled
  as the month `m`.
- `Store.BudgetStore.ListAllCategories`: its contract leaves the order of two names
  with the same lower-cased form open. The code's order for them follows the
  iteration order of a Python set.
