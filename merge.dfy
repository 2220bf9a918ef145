/**
 * `_merge_expenses`: merging incoming expense items into a month's existing ones,
 * keyed by trimmed, lower-cased category, the result sorted by lower-cased name.
 */
module Merge {
  import opened Wrappers
  import opened Text
  import opened Sorting
  import opened Amounts
  import opened Records

  /** `by_key`: entries by category key, with the keys in insertion order, as a Python dict keeps them. */
  datatype Table = Table(order: seq<string>, entries: map<string, Expense>)

  ghost predicate TableOk(t: Table) {
    && (forall k :: k in t.entries <==> k in t.order)
    && (forall i, j :: 0 <= i < j < |t.order| ==> t.order[i] != t.order[j])
    && (forall k :: k in t.entries ==> CategoryKey(t.entries[k].category) == k)
  }

  /** `by_key[key] = e`: a new key goes to the end, an existing key keeps its place. */
  function Put(t: Table, key: string, e: Expense): Table {
    Table(if key in t.entries then t.order else t.order + [key], t.entries[key := e])
  }

  /** `by_key.values()`, in insertion order. */
  function Values(t: Table): seq<Expense>
    requires forall k :: k in t.order ==> k in t.entries
  {
    seq(|t.order|, i requires 0 <= i < |t.order| => t.entries[t.order[i]])
  }

  /** The first loop: each existing item under its key, a later duplicate replacing an earlier one. */
  function IndexExisting(existing: seq<Expense>): (t: Table)
    ensures TableOk(t)
  {
    if existing == [] then Table([], map[])
    else
      var e := existing[|existing| - 1];
      Put(IndexExisting(existing[..|existing| - 1]), CategoryKey(e.category), Expense(e.category, e.planned, e.actual))
  }

  /**
   * One pass of the second loop: a blank category raises MissingCategory; the amounts
   * are cleaned; a known key gets the new planned amount and, when one is given, the
   * new actual one, keeping its display name; a new key is inserted as given.
   */
  function ApplyIncoming(t: Table, e: Expense): Result<Table, Error> {
    if Strip(e.category) == "" then Failure(MissingCategory)
    else
      var key := CategoryKey(e.category);
      var planned :- CleanAmount(Some(Num(e.planned)));
      var actual :- if e.actual.Some? then CleanAmount(Some(Num(e.actual.value))) else Success(None);
      if key in t.entries then
        var cur := t.entries[key];
        var newPlanned := if planned.Some? then planned.value else cur.planned;
        var newActual := if actual.Some? then actual else cur.actual;
        Success(Put(t, key, Expense(cur.category, newPlanned, newActual)))
      else
        Success(Put(t, key, Expense(e.category, planned.GetOr(0), actual)))
  }

  /** The second loop over the incoming items, stopping at the first that raises. */
  function FoldIncoming(t: Table, incoming: seq<Expense>): (r: Result<Table, Error>)
    requires TableOk(t)
    ensures r.Success? ==> TableOk(r.value)
  {
    if incoming == [] then Success(t)
    else
      var t' :- FoldIncoming(t, incoming[..|incoming| - 1]);
      ApplyIncoming(t', incoming[|incoming| - 1])
  }

  /** The result of `_merge_expenses`, as the specification of MergeExpenses. */
  function Merged(existing: seq<Expense>, incoming: seq<Expense>): Result<seq<Expense>, Error> {
    var t :- FoldIncoming(IndexExisting(existing), incoming);
    Success(SortBy(Values(t), SortKey))
  }

  /** `_merge_expenses`, with the dict `by_key` held as its key order and its entries. */
  method MergeExpenses(existing: seq<Expense>, incoming: seq<Expense>) returns (r: Result<seq<Expense>, Error>)
    ensures r == Merged(existing, incoming)
  {
    var order: seq<string> := [];
    var byKey: map<string, Expense> := map[];
    for i := 0 to |existing|
      invariant Table(order, byKey) == IndexExisting(existing[..i])
    {
      var e := existing[i];
      var key := CategoryKey(e.category);
      assert existing[..i + 1][..i] == existing[..i];
      if key !in byKey {
        order := order + [key];
      }
      byKey := byKey[key := Expense(e.category, e.planned, e.actual)];
    }
    assert existing[..|existing|] == existing;
    ghost var start := IndexExisting(existing);
    for i := 0 to |incoming|
      invariant FoldIncoming(start, incoming[..i]) == Success(Table(order, byKey))
    {
      var e := incoming[i];
      assert incoming[..i + 1][..i] == incoming[..i];
      if Strip(e.category) == "" {
        FoldFailurePersists(start, incoming, i + 1);
        return Failure(MissingCategory);
      }
      var key := CategoryKey(e.category);
      var planned := CleanAmount(Some(Num(e.planned)));
      if planned.Failure? {
        FoldFailurePersists(start, incoming, i + 1);
        return Failure(planned.error);
      }
      var actual: Option<int> := None;
      if e.actual.Some? {
        var cleaned := CleanAmount(Some(Num(e.actual.value)));
        if cleaned.Failure? {
          FoldFailurePersists(start, incoming, i + 1);
          return Failure(cleaned.error);
        }
        actual := cleaned.value;
      }
      if key in byKey {
        var cur := byKey[key];
        if planned.value.Some? {
          cur := cur.(planned := planned.value.value);
        }
        cur := cur.(actual := if actual.Some? then actual else cur.actual);
        byKey := byKey[key := cur];
      } else {
        order := order + [key];
        byKey := byKey[key := Expense(e.category, planned.value.GetOr(0), actual)];
      }
    }
    assert incoming[..|incoming|] == incoming;
    r := Success(SortBy(Values(Table(order, byKey)), SortKey));
  }

  /** Proof step for FoldFailureExtends: once the loop has raised, the last item is never looked at. */
  lemma FoldStepFails(t: Table, incoming: seq<Expense>)
    requires TableOk(t) && incoming != [] && FoldIncoming(t, incoming[..|incoming| - 1]).Failure?
    ensures FoldIncoming(t, incoming) == FoldIncoming(t, incoming[..|incoming| - 1])
  {
  }

  /** Items after the one that raised change nothing. */
  lemma {:induction false} FoldFailureExtends(t: Table, done: seq<Expense>, rest: seq<Expense>)
    requires TableOk(t) && FoldIncoming(t, done).Failure?
    ensures FoldIncoming(t, done + rest) == FoldIncoming(t, done)
    decreases |rest|
  {
    if rest == [] {
      assert done + rest == done;
    } else {
      var front := rest[..|rest| - 1];
      var all := done + rest;
      assert all[..|all| - 1] == done + front;
      FoldFailureExtends(t, done, front);
      FoldStepFails(t, all);
    }
  }

  /** Once an item raises, the whole loop raises the same error. */
  lemma FoldFailurePersists(t: Table, incoming: seq<Expense>, n: nat)
    requires TableOk(t) && n <= |incoming|
    requires FoldIncoming(t, incoming[..n]).Failure?
    ensures FoldIncoming(t, incoming) == FoldIncoming(t, incoming[..n])
  {
    assert incoming[..n] + incoming[n..] == incoming;
    FoldFailureExtends(t, incoming[..n], incoming[n..]);
  }

  // ---------------------------------------------------------------------------
  // A reference description of the merge, key by key.

  /** The category keys occurring in xs. */
  function KeysOf(xs: seq<Expense>): (ks: set<string>)
    ensures forall i :: 0 <= i < |xs| ==> CategoryKey(xs[i].category) in ks
  {
    set i | 0 <= i < |xs| :: CategoryKey(xs[i].category)
  }

  /** The last item of xs with category key k. */
  function LastWith(xs: seq<Expense>, k: string): Option<Expense> {
    if xs == [] then None
    else if CategoryKey(xs[|xs| - 1].category) == k then Some(xs[|xs| - 1])
    else LastWith(xs[..|xs| - 1], k)
  }

  /** The first item of xs with category key k. */
  function FirstWith(xs: seq<Expense>, k: string): Option<Expense> {
    if xs == [] then None
    else
      var f := FirstWith(xs[..|xs| - 1], k);
      if f.Some? then f
      else if CategoryKey(xs[|xs| - 1].category) == k then Some(xs[|xs| - 1])
      else None
  }

  /** The last actual amount given for key k in xs. */
  function LastActual(xs: seq<Expense>, k: string): Option<int> {
    if xs == [] then None
    else if CategoryKey(xs[|xs| - 1].category) == k && xs[|xs| - 1].actual.Some? then xs[|xs| - 1].actual
    else LastActual(xs[..|xs| - 1], k)
  }

  lemma {:induction false} WithFacts(xs: seq<Expense>, k: string)
    ensures LastWith(xs, k).Some? <==> k in KeysOf(xs)
    ensures FirstWith(xs, k).Some? <==> k in KeysOf(xs)
    ensures LastWith(xs, k).Some? ==> CategoryKey(LastWith(xs, k).value.category) == k
    ensures FirstWith(xs, k).Some? ==> CategoryKey(FirstWith(xs, k).value.category) == k
    ensures LastActual(xs, k).Some? ==> k in KeysOf(xs)
  {
    if xs != [] {
      var ys := xs[..|xs| - 1];
      WithFacts(ys, k);
      assert KeysOf(xs) == KeysOf(ys) + {CategoryKey(xs[|xs| - 1].category)} by {
        forall c | c in KeysOf(xs) ensures c in KeysOf(ys) + {CategoryKey(xs[|xs| - 1].category)} {
          var i :| 0 <= i < |xs| && CategoryKey(xs[i].category) == c;
          if i < |xs| - 1 {
            assert ys[i] == xs[i];
          }
        }
        forall c | c in KeysOf(ys) ensures c in KeysOf(xs) {
          var i :| 0 <= i < |ys| && CategoryKey(ys[i].category) == c;
          assert xs[i] == ys[i];
        }
      }
    }
  }

  /** An item is accepted when its category is not blank and its amounts are at most 1e8 in magnitude. */
  predicate ItemOk(e: Expense) {
    && Strip(e.category) != ""
    && Abs(e.planned) <= MaxAmount
    && (e.actual.Some? ==> Abs(e.actual.value) <= MaxAmount)
  }

  /**
   * What the merge keeps under key k: the existing display name, or else the first
   * incoming one; the last incoming planned amount (made non-negative), or else the
   * existing one; the last actual amount given incoming (made non-negative), or else
   * the existing actual amount.
   */
  function MergedEntry(existing: seq<Expense>, incoming: seq<Expense>, k: string): Expense
    requires k in KeysOf(existing) + KeysOf(incoming)
  {
    WithFacts(existing, k);
    WithFacts(incoming, k);
    var prior := LastWith(existing, k);
    var category := if prior.Some? then prior.value.category else FirstWith(incoming, k).value.category;
    var planned :=
      if LastWith(incoming, k).Some? then Abs(LastWith(incoming, k).value.planned)
      else if prior.Some? then prior.value.planned
      else 0;
    var actual :=
      if LastActual(incoming, k).Some? then Some(Abs(LastActual(incoming, k).value))
      else if prior.Some? then prior.value.actual
      else None;
    Expense(category, planned, actual)
  }

  lemma {:induction false} IndexExistingEntries(existing: seq<Expense>)
    ensures forall k :: k in IndexExisting(existing).entries <==> LastWith(existing, k).Some?
    ensures forall k :: k in IndexExisting(existing).entries ==> IndexExisting(existing).entries[k] == LastWith(existing, k).value
  {
    if existing != [] {
      IndexExistingEntries(existing[..|existing| - 1]);
    }
  }

  /** The entry under k after the second loop has run from table t over incoming. */
  function FoldEntry(t: Table, incoming: seq<Expense>, k: string): Expense
    requires k in t.entries || FirstWith(incoming, k).Some?
  {
    var category := if k in t.entries then t.entries[k].category else FirstWith(incoming, k).value.category;
    var planned :=
      if LastWith(incoming, k).Some? then Abs(LastWith(incoming, k).value.planned)
      else if k in t.entries then t.entries[k].planned
      else 0;
    var actual :=
      if LastActual(incoming, k).Some? then Some(Abs(LastActual(incoming, k).value))
      else if k in t.entries then t.entries[k].actual
      else None;
    Expense(category, planned, actual)
  }

  lemma {:induction false} FoldIncomingEntries(t: Table, incoming: seq<Expense>)
    requires TableOk(t)
    requires forall i :: 0 <= i < |incoming| ==> ItemOk(incoming[i])
    ensures FoldIncoming(t, incoming).Success?
    ensures forall k :: k in FoldIncoming(t, incoming).value.entries <==> k in t.entries || FirstWith(incoming, k).Some?
    ensures forall k :: k in FoldIncoming(t, incoming).value.entries ==>
              FoldIncoming(t, incoming).value.entries[k] == FoldEntry(t, incoming, k)
  {
    if incoming != [] {
      var n := |incoming| - 1;
      var ys := incoming[..n];
      var x := incoming[n];
      FoldIncomingEntries(t, ys);
      var t1 := FoldIncoming(t, ys).value;
      var key := CategoryKey(x.category);
      assert ItemOk(x);
      var t2 := ApplyIncoming(t1, x);
      assert t2.Success?;
      assert FoldIncoming(t, incoming) == t2;
      forall k ensures k in t2.value.entries <==> k in t.entries || FirstWith(incoming, k).Some? {
        WithFacts(ys, k);
      }
      forall k | k in t2.value.entries ensures t2.value.entries[k] == FoldEntry(t, incoming, k) {
        WithFacts(ys, k);
        if k == key && key !in t1.entries {
          assert FirstWith(ys, k).None?;
        }
      }
    }
  }

  /** The error a rejected item raises: a blank category is checked before the amounts. */
  function ItemError(e: Expense): (err: Error)
    requires !ItemOk(e)
    ensures err == MissingCategory <==> Strip(e.category) == ""
    ensures err != MissingCategory ==> err == AmountTooLarge
  {
    if Strip(e.category) == "" then MissingCategory else AmountTooLarge
  }

  /** The loop raises the error of the first rejected item. */
  lemma FoldIncomingFails(t: Table, incoming: seq<Expense>, j: nat)
    requires TableOk(t)
    requires j < |incoming| && !ItemOk(incoming[j])
    requires forall i :: 0 <= i < j ==> ItemOk(incoming[i])
    ensures FoldIncoming(t, incoming) == Failure(ItemError(incoming[j]))
  {
    var ys := incoming[..j];
    assert forall i :: 0 <= i < |ys| ==> ItemOk(ys[i]);
    FoldIncomingEntries(t, ys);
    var t1 := FoldIncoming(t, ys).value;
    ApplyRejects(t1, incoming[j]);
    assert incoming[..j + 1][..j] == ys;
    assert FoldIncoming(t, incoming[..j + 1]) == ApplyIncoming(t1, incoming[j]);
    FoldFailurePersists(t, incoming, j + 1);
  }

  lemma ApplyRejects(t: Table, e: Expense)
    requires !ItemOk(e)
    ensures ApplyIncoming(t, e) == Failure(ItemError(e))
  {
    if Strip(e.category) != "" {
      var planned := CleanAmount(Some(Num(e.planned)));
      if planned.Success? {
        assert CleanAmount(Some(Num(e.actual.value))).Failure?;
      }
    }
  }

  /** With the first loop's table, the second loop's entries are the reference ones. */
  lemma MergedTableEntries(existing: seq<Expense>, incoming: seq<Expense>)
    requires forall i :: 0 <= i < |incoming| ==> ItemOk(incoming[i])
    ensures FoldIncoming(IndexExisting(existing), incoming).Success?
    ensures forall k :: k in FoldIncoming(IndexExisting(existing), incoming).value.entries
              <==> k in KeysOf(existing) + KeysOf(incoming)
    ensures forall k :: k in FoldIncoming(IndexExisting(existing), incoming).value.entries ==>
              FoldIncoming(IndexExisting(existing), incoming).value.entries[k] == MergedEntry(existing, incoming, k)
  {
    var t0 := IndexExisting(existing);
    IndexExistingEntries(existing);
    FoldIncomingEntries(t0, incoming);
    var t := FoldIncoming(t0, incoming).value;
    forall k ensures k in t.entries <==> k in KeysOf(existing) + KeysOf(incoming) {
      WithFacts(existing, k);
      WithFacts(incoming, k);
    }
    forall k | k in t.entries ensures t.entries[k] == MergedEntry(existing, incoming, k) {
      WithFacts(existing, k);
      WithFacts(incoming, k);
    }
  }

  lemma ValuesFacts(t: Table)
    requires TableOk(t)
    ensures |Values(t)| == |t.order|
    ensures forall i :: 0 <= i < |t.order| ==> CategoryKey(Values(t)[i].category) == t.order[i]
    ensures KeysOf(Values(t)) == t.entries.Keys
    ensures Distinct(Values(t))
    ensures forall i :: 0 <= i < |Values(t)| ==>
      CategoryKey(Values(t)[i].category) in t.entries && Values(t)[i] == t.entries[CategoryKey(Values(t)[i].category)]
  {
    var vs := Values(t);
    forall k | k in t.entries.Keys ensures k in KeysOf(vs) {
      var i :| 0 <= i < |t.order| && t.order[i] == k;
      assert CategoryKey(vs[i].category) == k;
    }
  }

  lemma KeysOfPermutation(a: seq<Expense>, b: seq<Expense>)
    requires multiset(a) == multiset(b)
    ensures KeysOf(a) == KeysOf(b)
  {
    forall k | k in KeysOf(a) ensures k in KeysOf(b) {
      var i :| 0 <= i < |a| && CategoryKey(a[i].category) == k;
      assert a[i] in multiset(b);
      var j :| 0 <= j < |b| && b[j] == a[i];
    }
    forall k | k in KeysOf(b) ensures k in KeysOf(a) {
      var i :| 0 <= i < |b| && CategoryKey(b[i].category) == k;
      assert b[i] in multiset(a);
      var j :| 0 <= j < |a| && a[j] == b[i];
    }
  }

  /** A merge with a rejected item raises the error of the first one. */
  lemma MergeRejects(existing: seq<Expense>, incoming: seq<Expense>, j: nat)
    requires j < |incoming| && !ItemOk(incoming[j])
    requires forall i :: 0 <= i < j ==> ItemOk(incoming[i])
    ensures Merged(existing, incoming) == Failure(ItemError(incoming[j]))
  {
    FoldIncomingFails(IndexExisting(existing), incoming, j);
  }

  /** Sorting a table's values keeps one entry per key, each the table's entry for its key. */
  lemma SortedValues(t: Table)
    requires TableOk(t)
    ensures var r := SortBy(Values(t), SortKey);
      && SortedBy(r, SortKey)
      && Distinct(r)
      && KeysOf(r) == t.entries.Keys
      && forall i :: 0 <= i < |r| ==> CategoryKey(r[i].category) in t.entries && r[i] == t.entries[CategoryKey(r[i].category)]
  {
    var vs := Values(t);
    ValuesFacts(t);
    SortByProps(vs, SortKey);
    SortByDistinct(vs, SortKey);
    var r := SortBy(vs, SortKey);
    KeysOfPermutation(r, vs);
    PermutedEntries(t, vs, r);
  }

  /** A permutation of table entries holds only table entries, each under its own key. */
  lemma PermutedEntries(t: Table, vs: seq<Expense>, r: seq<Expense>)
    requires forall i :: 0 <= i < |vs| ==> CategoryKey(vs[i].category) in t.entries && vs[i] == t.entries[CategoryKey(vs[i].category)]
    requires multiset(r) == multiset(vs)
    ensures forall i :: 0 <= i < |r| ==> CategoryKey(r[i].category) in t.entries && r[i] == t.entries[CategoryKey(r[i].category)]
  {
    forall i | 0 <= i < |r| ensures CategoryKey(r[i].category) in t.entries && r[i] == t.entries[CategoryKey(r[i].category)] {
      assert r[i] in multiset(vs);
      var m :| 0 <= m < |vs| && vs[m] == r[i];
    }
  }

  /** The facts about the merged list shared by the lemmas below. */
  lemma MergedValues(existing: seq<Expense>, incoming: seq<Expense>)
    requires forall i :: 0 <= i < |incoming| ==> ItemOk(incoming[i])
    ensures Merged(existing, incoming).Success?
    ensures var r := Merged(existing, incoming).value;
      && SortedBy(r, SortKey)
      && Distinct(r)
      && KeysOf(r) == KeysOf(existing) + KeysOf(incoming)
      && forall i :: 0 <= i < |r| ==> r[i] == MergedEntry(existing, incoming, CategoryKey(r[i].category))
  {
    MergedTableEntries(existing, incoming);
    var t := FoldIncoming(IndexExisting(existing), incoming).value;
    SortedValues(t);
    assert Merged(existing, incoming) == Success(SortBy(Values(t), SortKey));
  }

  /**
   * A merge of accepted items succeeds; each category key appears once, and the list
   * is sorted by lower-cased name with no two names tied.
   */
  lemma MergeSorted(existing: seq<Expense>, incoming: seq<Expense>)
    requires forall i :: 0 <= i < |incoming| ==> ItemOk(incoming[i])
    ensures Merged(existing, incoming).Success?
    ensures var r := Merged(existing, incoming).value;
      && SortedBy(r, SortKey)
      && forall i, j :: 0 <= i < j < |r| ==>
           CategoryKey(r[i].category) != CategoryKey(r[j].category) && SortKey(r[i]) != SortKey(r[j])
  {
    MergedValues(existing, incoming);
    var r := Merged(existing, incoming).value;
    forall i, j | 0 <= i < j < |r|
      ensures CategoryKey(r[i].category) != CategoryKey(r[j].category) && SortKey(r[i]) != SortKey(r[j])
    {
      if SortKey(r[i]) == SortKey(r[j]) {
        SortKeyDeterminesCategoryKey(r[i].category, r[j].category);
      }
    }
  }

  /** Nothing is dropped: the merged categories are the existing ones and the incoming ones. */
  lemma MergeKeys(existing: seq<Expense>, incoming: seq<Expense>)
    requires forall i :: 0 <= i < |incoming| ==> ItemOk(incoming[i])
    ensures Merged(existing, incoming).Success?
    ensures KeysOf(Merged(existing, incoming).value) == KeysOf(existing) + KeysOf(incoming)
  {
    MergedValues(existing, incoming);
  }

  /** Each merged category holds the reference entry for its key. */
  lemma MergeEntries(existing: seq<Expense>, incoming: seq<Expense>)
    requires forall i :: 0 <= i < |incoming| ==> ItemOk(incoming[i])
    ensures Merged(existing, incoming).Success?
    ensures var r := Merged(existing, incoming).value;
      && KeysOf(r) == KeysOf(existing) + KeysOf(incoming)
      && forall i :: 0 <= i < |r| ==> r[i] == MergedEntry(existing, incoming, CategoryKey(r[i].category))
  {
    MergedValues(existing, incoming);
  }

  /** Merging stored items keeps every amount a cleaned amount. */
  lemma MergeAmountsOk(existing: seq<Expense>, incoming: seq<Expense>)
    requires forall i :: 0 <= i < |existing| ==> ExpenseOk(existing[i])
    requires forall i :: 0 <= i < |incoming| ==> ItemOk(incoming[i])
    ensures Merged(existing, incoming).Success?
    ensures var r := Merged(existing, incoming).value;
      forall i :: 0 <= i < |r| ==> ExpenseOk(r[i])
  {
    MergedValues(existing, incoming);
    var r := Merged(existing, incoming).value;
    forall i | 0 <= i < |r| ensures ExpenseOk(r[i]) {
      var k := CategoryKey(r[i].category);
      LastWithOk(existing, k);
      MergedEntryOk(existing, incoming, k);
    }
  }

  lemma {:induction false} LastWithOk(xs: seq<Expense>, k: string)
    requires forall i :: 0 <= i < |xs| ==> ExpenseOk(xs[i])
    ensures LastWith(xs, k).Some? ==> ExpenseOk(LastWith(xs, k).value)
  {
    if xs != [] {
      LastWithOk(xs[..|xs| - 1], k);
    }
  }

  lemma MergedEntryOk(existing: seq<Expense>, incoming: seq<Expense>, k: string)
    requires k in KeysOf(existing) + KeysOf(incoming)
    requires LastWith(existing, k).Some? ==> ExpenseOk(LastWith(existing, k).value)
    requires forall i :: 0 <= i < |incoming| ==> ItemOk(incoming[i])
    ensures ExpenseOk(MergedEntry(existing, incoming, k))
  {
    LastActualBound(incoming, k);
  }

  lemma {:induction false} LastActualBound(xs: seq<Expense>, k: string)
    requires forall i :: 0 <= i < |xs| ==> ItemOk(xs[i])
    ensures LastWith(xs, k).Some? ==> ItemOk(LastWith(xs, k).value)
    ensures LastActual(xs, k).Some? ==> Abs(LastActual(xs, k).value) <= MaxAmount
  {
    if xs != [] {
      LastActualBound(xs[..|xs| - 1], k);
    }
  }

  /** A loop that gets through got through all but the last item, and then through the last. */
  lemma FoldLast(t: Table, incoming: seq<Expense>)
    requires TableOk(t) && incoming != [] && FoldIncoming(t, incoming).Success?
    ensures FoldIncoming(t, incoming[..|incoming| - 1]).Success?
    ensures ApplyIncoming(FoldIncoming(t, incoming[..|incoming| - 1]).value, incoming[|incoming| - 1]).Success?
  {
  }

  /** The loop gets through only when every incoming item is accepted. */
  lemma {:induction false} FoldOnlyOk(t: Table, incoming: seq<Expense>)
    requires TableOk(t)
    ensures FoldIncoming(t, incoming).Success? ==> forall i :: 0 <= i < |incoming| ==> ItemOk(incoming[i])
  {
    if incoming != [] && FoldIncoming(t, incoming).Success? {
      var n := |incoming| - 1;
      var prefix := incoming[..n];
      FoldLast(t, incoming);
      FoldOnlyOk(t, prefix);
      ApplyOnlyOk(FoldIncoming(t, prefix).value, incoming[n]);
      forall i | 0 <= i < |incoming| ensures ItemOk(incoming[i]) {
        if i < n {
          assert prefix[i] == incoming[i];
        } else {
          assert i == n;
        }
      }
    }
  }

  /** A merge succeeds exactly when every incoming item is accepted. */
  lemma MergeOnlyOk(existing: seq<Expense>, incoming: seq<Expense>)
    ensures Merged(existing, incoming).Success? <==> forall i :: 0 <= i < |incoming| ==> ItemOk(incoming[i])
  {
    FoldOnlyOk(IndexExisting(existing), incoming);
    if forall i :: 0 <= i < |incoming| ==> ItemOk(incoming[i]) {
      MergedValues(existing, incoming);
    }
  }

  /** In a list with no category key repeated, the last item with an item's key is that item. */
  lemma {:induction false} LastWithUnique(xs: seq<Expense>, i: nat)
    requires forall p, q :: 0 <= p < q < |xs| ==> CategoryKey(xs[p].category) != CategoryKey(xs[q].category)
    requires i < |xs|
    ensures LastWith(xs, CategoryKey(xs[i].category)) == Some(xs[i])
  {
    var n := |xs| - 1;
    if i < n {
      var ys := xs[..n];
      assert ys[i] == xs[i];
      LastWithUnique(ys, i);
    }
  }

  /** A list of reference entries, merged again, yields the same reference entries. */
  lemma RemergeEntry(existing: seq<Expense>, incoming: seq<Expense>, r: seq<Expense>, k: string)
    requires forall p, q :: 0 <= p < q < |r| ==> CategoryKey(r[p].category) != CategoryKey(r[q].category)
    requires KeysOf(r) == KeysOf(existing) + KeysOf(incoming)
    requires forall i :: 0 <= i < |r| ==> r[i] == MergedEntry(existing, incoming, CategoryKey(r[i].category))
    requires k in KeysOf(r)
    ensures MergedEntry(r, incoming, k) == MergedEntry(existing, incoming, k)
  {
    var i :| 0 <= i < |r| && CategoryKey(r[i].category) == k;
    LastWithUnique(r, i);
    WithFacts(r, k);
    WithFacts(existing, k);
    WithFacts(incoming, k);
  }

  /** Two lists of reference entries, each key once, with the same keys, hold the same items. */
  lemma SameEntries(a: seq<Expense>, b: seq<Expense>, entry: string -> Expense)
    requires KeysOf(a) == KeysOf(b)
    requires forall i :: 0 <= i < |a| ==> a[i] == entry(CategoryKey(a[i].category))
    requires forall i :: 0 <= i < |b| ==> b[i] == entry(CategoryKey(b[i].category))
    ensures forall x :: x in a <==> x in b
  {
    forall x ensures x in a ==> x in b {
      if x in a {
        var k := CategoryKey(x.category);
        assert k in KeysOf(b);
      }
    }
    forall x ensures x in b ==> x in a {
      if x in b {
        var k := CategoryKey(x.category);
        assert k in KeysOf(a);
      }
    }
  }

  /** Merging the same items into a merged list again changes nothing. */
  lemma MergeIdempotent(existing: seq<Expense>, incoming: seq<Expense>)
    requires forall i :: 0 <= i < |incoming| ==> ItemOk(incoming[i])
    ensures Merged(existing, incoming).Success?
    ensures Merged(Merged(existing, incoming).value, incoming) == Merged(existing, incoming)
  {
    MergedValues(existing, incoming);
    MergeSorted(existing, incoming);
    var r1 := Merged(existing, incoming).value;
    MergedValues(r1, incoming);
    MergeSorted(r1, incoming);
    var r2 := Merged(r1, incoming).value;
    forall k | k in KeysOf(r1) ensures MergedEntry(r1, incoming, k) == MergedEntry(existing, incoming, k) {
      RemergeEntry(existing, incoming, r1, k);
    }
    var entry := k => if k in KeysOf(r1) then MergedEntry(existing, incoming, k) else Expense(k, 0, None);
    SameEntries(r2, r1, entry);
    SortedUnique(r2, r1, SortKey);
  }

  lemma ApplyOnlyOk(t: Table, e: Expense)
    ensures ApplyIncoming(t, e).Success? <==> ItemOk(e)
  {
    if !ItemOk(e) {
      ApplyRejects(t, e);
    }
  }

  /** Proof step for FoldFailureError: an item that passes the checks is always merged. */
  lemma ApplyAccepts(t: Table, e: Expense)
    requires ItemOk(e)
    ensures ApplyIncoming(t, e).Success?
  {
  }

  lemma {:induction false} FoldFailureError(t: Table, incoming: seq<Expense>)
    requires TableOk(t)
    ensures FoldIncoming(t, incoming).Failure? ==>
      exists j :: 0 <= j < |incoming| && !ItemOk(incoming[j]) && FoldIncoming(t, incoming).error == ItemError(incoming[j])
  {
    if incoming != [] && FoldIncoming(t, incoming).Failure? {
      var n := |incoming| - 1;
      var ys := incoming[..n];
      FoldFailureError(t, ys);
      if FoldIncoming(t, ys).Failure? {
        var j :| 0 <= j < |ys| && !ItemOk(ys[j]) && FoldIncoming(t, ys).error == ItemError(ys[j]);
        assert ys[j] == incoming[j];
      } else {
        var t1 := FoldIncoming(t, ys).value;
        if ItemOk(incoming[n]) {
          ApplyAccepts(t1, incoming[n]);
        } else {
          ApplyRejects(t1, incoming[n]);
        }
        assert !ItemOk(incoming[n]);
      }
    }
  }

  /** A merge that raises raises the error of one of the rejected items. */
  lemma MergeFailureError(existing: seq<Expense>, incoming: seq<Expense>)
    requires Merged(existing, incoming).Failure?
    ensures exists j :: 0 <= j < |incoming| && !ItemOk(incoming[j]) && Merged(existing, incoming).error == ItemError(incoming[j])
  {
    FoldFailureError(IndexExisting(existing), incoming);
  }
}
