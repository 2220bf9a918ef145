/** `_calc_month_rollup`: the totals, net savings and savings rates of one month. */
module Rollup {
  import opened Wrappers
  import opened Amounts
  import opened Records

  /** One row of `categories`: the item's amounts and, once an actual is known, actual minus planned. */
  datatype CategoryRow = CategoryRow(category: string, planned: int, actual: Option<int>, variance: Option<int>)

  /** The rollup of a month; amounts in cents, savings rates as exact fractions. */
  datatype MonthRollup = MonthRollup(
    incomePlanned: int,
    incomeActual: Option<int>,
    expensePlanned: int,
    expenseActual: int,
    categories: seq<CategoryRow>,
    netPlanned: int,
    netActual: Option<int>,
    netVariance: Option<int>,
    ratePlanned: Option<real>,
    rateActual: Option<real>)

  function PlannedOf(e: Expense): int {
    e.planned
  }

  /** `a or 0.0`: an item without an actual amount counts as nothing spent. */
  function ActualOf(e: Expense): int {
    e.actual.GetOr(0)
  }

  /** The sum of amount(e) over the items, added up front to back. */
  function SumOf(xs: seq<Expense>, amount: Expense -> int): int {
    if xs == [] then 0 else SumOf(xs[..|xs| - 1], amount) + amount(xs[|xs| - 1])
  }

  function RowOf(e: Expense): (row: CategoryRow)
    ensures row.category == e.category && row.planned == e.planned && row.actual == e.actual
    ensures row.variance.Some? <==> e.actual.Some?
    ensures row.variance.Some? ==> row.planned + row.variance.value == row.actual.value
  {
    CategoryRow(e.category, e.planned, e.actual, if e.actual.Some? then Some(e.actual.value - e.planned) else None)
  }

  function RowsOf(xs: seq<Expense>): (rows: seq<CategoryRow>)
    ensures |rows| == |xs|
  {
    seq(|xs|, i requires 0 <= i < |xs| => RowOf(xs[i]))
  }

  /** `net / income` when income is positive, else None. */
  function Rate(net: int, income: int): Option<real> {
    if income > 0 then Some(net as real / income as real) else None
  }

  /** The rollup `_calc_month_rollup` returns for a record. */
  function RollupOf(rec: MonthRecord): MonthRollup {
    var ip := rec.income.planned;
    var ia := rec.income.actual;
    var ep := SumOf(rec.expenses, PlannedOf);
    var ea := SumOf(rec.expenses, ActualOf);
    var np := ip - ep;
    var na := if ia.Some? then Some(ia.value - ea) else None;
    MonthRollup(
      ip, ia, ep, ea, RowsOf(rec.expenses),
      np, na, if ia.Some? then Some(na.value - np) else None,
      Rate(np, ip), if ia.Some? then Rate(na.value, ia.value) else None)
  }

  /** `_calc_month_rollup`: one pass over the expense items, then the net amounts and rates. */
  method CalcMonthRollup(rec: MonthRecord) returns (r: MonthRollup)
    ensures r == RollupOf(rec)
  {
    var expP := 0;
    var expA := 0;
    var rows: seq<CategoryRow> := [];
    var xs := rec.expenses;
    for i := 0 to |xs|
      invariant expP == SumOf(xs[..i], PlannedOf)
      invariant expA == SumOf(xs[..i], ActualOf)
      invariant rows == RowsOf(xs[..i])
    {
      var e := xs[i];
      assert xs[..i + 1][..i] == xs[..i];
      expP := expP + e.planned;
      expA := expA + e.actual.GetOr(0);
      var variance := if e.actual.Some? then Some(e.actual.value - e.planned) else None;
      rows := rows + [CategoryRow(e.category, e.planned, e.actual, variance)];
    }
    assert xs[..|xs|] == xs;
    var ip := rec.income.planned;
    var ia := rec.income.actual;
    var netP := ip - expP;
    var netA: Option<int> := None;
    var rateA: Option<real> := None;
    if ia.Some? {
      netA := Some(ia.value - expA);
      rateA := if ia.value > 0 then Some(netA.value as real / ia.value as real) else None;
    }
    var rateP := if ip > 0 then Some(netP as real / ip as real) else None;
    r := MonthRollup(ip, ia, expP, expA, rows, netP, netA,
                     if ia.Some? then Some(netA.value - netP) else None, rateP, rateA);
  }

  // ---------------------------------------------------------------------------
  // Properties of the rollup.

  lemma {:induction false} SumAppend(xs: seq<Expense>, ys: seq<Expense>, amount: Expense -> int)
    ensures SumOf(xs + ys, amount) == SumOf(xs, amount) + SumOf(ys, amount)
    decreases |ys|
  {
    if ys == [] {
      assert xs + ys == xs;
    } else {
      var n := |ys| - 1;
      assert (xs + ys)[..|xs + ys| - 1] == xs + ys[..n];
      assert (xs + ys)[|xs + ys| - 1] == ys[n];
      SumAppend(xs, ys[..n], amount);
    }
  }

  /** The totals do not depend on the order of the items (the merge reorders them). */
  lemma {:induction false} SumPermutation(xs: seq<Expense>, ys: seq<Expense>, amount: Expense -> int)
    requires multiset(xs) == multiset(ys)
    ensures SumOf(xs, amount) == SumOf(ys, amount)
    decreases |xs|
  {
    if xs != [] {
      var n := |xs| - 1;
      var x := xs[n];
      assert xs == xs[..n] + [x];
      assert x in multiset(ys);
      var j :| 0 <= j < |ys| && ys[j] == x;
      assert ys == ys[..j] + [x] + ys[j + 1..];
      var rest := ys[..j] + ys[j + 1..];
      assert multiset(xs[..n]) == multiset(rest) by {
        assert multiset(xs) == multiset(xs[..n]) + multiset{x};
        assert multiset(ys) == multiset(rest) + multiset{x};
        assert multiset(xs[..n]) == multiset(xs) - multiset{x};
        assert multiset(rest) == multiset(ys) - multiset{x};
      }
      SumPermutation(xs[..n], rest, amount);
      SumAppend(ys[..j] + [x], ys[j + 1..], amount);
      SumAppend(ys[..j], [x], amount);
      SumAppend(ys[..j], ys[j + 1..], amount);
      assert SumOf([x], amount) == amount(x) by {
        assert [x][..0] == [];
      }
    }
  }

  /** Totals of cleaned amounts are non-negative and at most 1e8 per item. */
  lemma {:induction false} SumBounds(xs: seq<Expense>)
    requires forall i :: 0 <= i < |xs| ==> ExpenseOk(xs[i])
    ensures 0 <= SumOf(xs, ActualOf) && 0 <= SumOf(xs, PlannedOf) <= |xs| * MaxAmount
    ensures SumOf(xs, ActualOf) <= |xs| * MaxAmount
  {
    if xs != [] {
      SumBounds(xs[..|xs| - 1]);
      assert ExpenseOk(xs[|xs| - 1]);
    }
  }

  /**
   * The category rows carry the totals: the planned column adds up to the planned
   * expenses, the actual column (missing as 0) to the actual ones, and when every
   * item has an actual amount the variances add up to actual minus planned.
   */
  lemma {:induction false} RowsCarryTotals(xs: seq<Expense>)
    ensures var rows := RowsOf(xs);
      && (forall i :: 0 <= i < |rows| ==> rows[i].planned == xs[i].planned && rows[i].actual == xs[i].actual)
      && ((forall i :: 0 <= i < |xs| ==> xs[i].actual.Some?) ==>
            VarianceSum(rows) == SumOf(xs, ActualOf) - SumOf(xs, PlannedOf))
  {
    if xs != [] {
      var n := |xs| - 1;
      RowsCarryTotals(xs[..n]);
      assert RowsOf(xs)[..n] == RowsOf(xs[..n]);
    }
  }

  /** The sum of the variances of the rows, a missing variance counting as 0. */
  function VarianceSum(rows: seq<CategoryRow>): int {
    if rows == [] then 0 else VarianceSum(rows[..|rows| - 1]) + rows[|rows| - 1].variance.GetOr(0)
  }

  /**
   * Net savings are income minus expenses; the actual figures exist exactly when an
   * actual income is recorded, and the variance is actual minus planned net.
   */
  lemma RollupNet(rec: MonthRecord)
    ensures var r := RollupOf(rec);
      && r.netPlanned + r.expensePlanned == rec.income.planned
      && (r.netActual.Some? <==> rec.income.actual.Some?)
      && (r.netVariance.Some? <==> rec.income.actual.Some?)
      && (r.netActual.Some? ==>
            r.netActual.value + r.expenseActual == rec.income.actual.value
            && r.netVariance.value == r.netActual.value - r.netPlanned)
  {
  }

  /**
   * A savings rate exists exactly when its income is positive, and then it is the
   * fraction of that income saved.
   */
  lemma RollupRates(rec: MonthRecord)
    ensures var r := RollupOf(rec);
      && (r.ratePlanned.Some? <==> r.incomePlanned > 0)
      && (r.ratePlanned.Some? ==> r.ratePlanned.value * r.incomePlanned as real == r.netPlanned as real)
      && (r.rateActual.Some? <==> r.incomeActual.Some? && r.incomeActual.value > 0)
      && (r.rateActual.Some? ==> r.rateActual.value * r.incomeActual.value as real == r.netActual.value as real)
  {
  }

  /**
   * For a record of cleaned amounts, a savings rate is at most 1, and it is
   * non-negative exactly when the expenses do not exceed the income.
   */
  lemma RatesAtMostOne(rec: MonthRecord)
    requires RecordOk(rec)
    ensures var r := RollupOf(rec);
      && (r.ratePlanned.Some? ==> r.ratePlanned.value <= 1.0 && (r.ratePlanned.value >= 0.0 <==> r.expensePlanned <= r.incomePlanned))
      && (r.rateActual.Some? ==> r.rateActual.value <= 1.0 && (r.rateActual.value >= 0.0 <==> r.expenseActual <= r.incomeActual.value))
  {
    SumBounds(rec.expenses);
    var r := RollupOf(rec);
    if r.ratePlanned.Some? {
      RateBounds(r.netPlanned, r.expensePlanned, r.incomePlanned);
    }
    if r.rateActual.Some? {
      RateBounds(r.netActual.value, r.expenseActual, r.incomeActual.value);
    }
  }

  lemma RateBounds(net: int, spent: int, income: int)
    requires income > 0 && spent >= 0 && net == income - spent
    ensures Rate(net, income).Some?
    ensures Rate(net, income).value <= 1.0
    ensures Rate(net, income).value >= 0.0 <==> spent <= income
  {
    var q := net as real / income as real;
    assert q * income as real == net as real;
    assert (1.0 - q) * income as real == spent as real;
  }

  /** Reordering the items changes neither the totals nor the net savings. */
  lemma RollupPermutation(rec: MonthRecord, expenses: seq<Expense>)
    requires multiset(expenses) == multiset(rec.expenses)
    ensures var r := RollupOf(rec);
      var s := RollupOf(rec.(expenses := expenses));
      && s.expensePlanned == r.expensePlanned && s.expenseActual == r.expenseActual
      && s.netPlanned == r.netPlanned && s.netActual == r.netActual
      && s.ratePlanned == r.ratePlanned && s.rateActual == r.rateActual
  {
    SumPermutation(expenses, rec.expenses, PlannedOf);
    SumPermutation(expenses, rec.expenses, ActualOf);
  }
}
