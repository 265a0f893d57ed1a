/** The financial summary (`getSummary`): totals, a gap-free day-by-day
    series and the expense breakdown by category over a date range. */
module ReportController {

  import opened Outcomes
  import opened Seqs
  import opened Sorting
  import opened Calendar
  import opened Grouping
  import opened Models

  /** The instants the report covers, both ends included. */
  datatype Range = Range(start: int, end: int)

  /** Range resolution: no bounds means the epoch up to `now`; both bounds
      mean midnight of `from` to the last millisecond of `to`; exactly one
      bound is refused with 400. */
  function ResolveRange(from: Option<int>, to: Option<int>, now: int): (r: Result<Range>)
    ensures r.Err? <==> from.Some? != to.Some?
    ensures r.Err? ==> r.status == BadRequest
    ensures from.None? && to.None? ==> r == Ok(Range(0, now))
    ensures from.Some? && to.Some? ==> r == Ok(Range(StartOfDay(from.value), EndOfDay(to.value)))
    ensures r.Ok? ==> r.value.start % DayMs == 0
  {
    if from.None? && to.None? then Ok(Range(0, now))
    else if from.None? || to.None? then Err(BadRequest)
    else Ok(Range(StartOfDay(from.value), EndOfDay(to.value)))
  }

  /** With both bounds, an instant is in range exactly when its day lies
      between `from` and `to`, both days included in full. */
  lemma ResolvedRangeIsWholeDays(from: int, to: int, now: int, t: int)
    ensures var rng := ResolveRange(Some(from), Some(to), now).value;
            rng.start <= t <= rng.end <==> from <= DayOf(t) <= to
  {
    DayOfBounds(t, DayOf(t));
  }

  predicate InRange(rng: Range, t: int)
  {
    rng.start <= t <= rng.end
  }

  /** The visits dated inside the range, in collection order. */
  function VisitsIn(visits: seq<Visit>, rng: Range): (r: seq<Visit>)
    ensures forall v :: multiset(r)[v] == if InRange(rng, v.visitDate) then multiset(visits)[v] else 0
    ensures forall i :: 0 <= i < |r| ==> InRange(rng, r[i].visitDate)
  {
    var p := (v: Visit) => InRange(rng, v.visitDate);
    Filter(visits, p)
  }

  /** The expenses dated inside the range, in collection order. */
  function ExpensesIn(expenses: seq<Expense>, rng: Range): (r: seq<Expense>)
    ensures forall e :: multiset(r)[e] == if InRange(rng, e.date) then multiset(expenses)[e] else 0
    ensures forall i :: 0 <= i < |r| ==> InRange(rng, r[i].date)
  {
    var p := (e: Expense) => InRange(rng, e.date);
    Filter(expenses, p)
  }

  /** Visits keyed by the day they fall on, carrying their total amount. */
  function VisitDays(vs: seq<Visit>): (es: seq<Entry<int>>)
    ensures |es| == |vs|
    ensures forall i :: 0 <= i < |vs| ==> es[i] == Entry(DayOf(vs[i].visitDate), vs[i].totalAmount)
  {
    if |vs| == 0 then [] else [Entry(DayOf(vs[0].visitDate), vs[0].totalAmount)] + VisitDays(vs[1..])
  }

  /** Expenses keyed by the day they fall on, carrying their amount. */
  function ExpenseDays(xs: seq<Expense>): (es: seq<Entry<int>>)
    ensures |es| == |xs|
    ensures forall i :: 0 <= i < |xs| ==> es[i] == Entry(DayOf(xs[i].date), xs[i].amount)
  {
    if |xs| == 0 then [] else [Entry(DayOf(xs[0].date), xs[0].amount)] + ExpenseDays(xs[1..])
  }

  /** Expenses keyed by category (the empty string standing for a missing one). */
  function ExpenseCategories(xs: seq<Expense>): (es: seq<Entry<string>>)
    ensures |es| == |xs|
    ensures forall i :: 0 <= i < |xs| ==> es[i] == Entry(xs[i].category, xs[i].amount)
  {
    if |xs| == 0 then [] else [Entry(xs[0].category, xs[0].amount)] + ExpenseCategories(xs[1..])
  }

  function VisitTotal(v: Visit): int { v.totalAmount }
  function ExpenseAmount(e: Expense): int { e.amount }

  lemma {:induction false} VisitDaysTotal(vs: seq<Visit>)
    ensures Total(VisitDays(vs)) == SumBy(vs, VisitTotal)
  {
    if |vs| > 0 {
      VisitDaysTotal(vs[1..]);
    }
  }

  lemma {:induction false} ExpenseDaysTotal(xs: seq<Expense>)
    ensures Total(ExpenseDays(xs)) == SumBy(xs, ExpenseAmount)
  {
    if |xs| > 0 {
      ExpenseDaysTotal(xs[1..]);
    }
  }

  lemma {:induction false} ExpenseCategoriesTotal(xs: seq<Expense>)
    ensures Total(ExpenseCategories(xs)) == SumBy(xs, ExpenseAmount)
  {
    if |xs| > 0 {
      ExpenseCategoriesTotal(xs[1..]);
    }
  }

  /** One row of the day series. */
  datatype DayRow = DayRow(date: int, earnings: int, expenses: int)

  function Earnings(r: DayRow): int { r.earnings }
  function Spending(r: DayRow): int { r.expenses }

  /** A row for every day of `days`, with that day's income and spending
      (0 when nothing happened on it). */
  function DayRows(days: seq<int>, income: seq<Entry<int>>, spending: seq<Entry<int>>): (rows: seq<DayRow>)
    ensures |rows| == |days|
    ensures forall k :: 0 <= k < |days| ==>
              rows[k] == DayRow(days[k], SumFor(income, days[k]), SumFor(spending, days[k]))
  {
    if |days| == 0 then []
    else [DayRow(days[0], SumFor(income, days[0]), SumFor(spending, days[0]))]
         + DayRows(days[1..], income, spending)
  }

  lemma {:induction false} DayRowsSums(days: seq<int>, income: seq<Entry<int>>, spending: seq<Entry<int>>)
    ensures SumBy(DayRows(days, income, spending), Earnings) == SumOverKeys(days, income)
    ensures SumBy(DayRows(days, income, spending), Spending) == SumOverKeys(days, spending)
  {
    if |days| > 0 {
      DayRowsSums(days[1..], income, spending);
    }
  }

  /** One row of the category breakdown. */
  datatype CategoryRow = CategoryRow(category: string, total: int)

  function RowTotal(r: CategoryRow): int { r.total }

  /** Larger totals first. */
  predicate ByTotalDesc(a: CategoryRow, b: CategoryRow)
  {
    a.total >= b.total
  }

  lemma ByTotalDescIsTotalPreorder()
    ensures TotalPreorder(ByTotalDesc)
  {
  }

  function Keys<K>(es: seq<Entry<K>>): (ks: seq<K>)
    ensures |ks| == |es| && forall i :: 0 <= i < |es| ==> ks[i] == es[i].key
  {
    seq(|es|, i requires 0 <= i < |es| => es[i].key)
  }

  /** A row per key with that key's sum. */
  function Groups(keys: seq<string>, es: seq<Entry<string>>): (rows: seq<CategoryRow>)
    ensures |rows| == |keys|
    ensures forall i :: 0 <= i < |keys| ==> rows[i] == CategoryRow(keys[i], SumFor(es, keys[i]))
    ensures SumBy(rows, RowTotal) == SumOverKeys(keys, es)
  {
    if |keys| == 0 then [] else [CategoryRow(keys[0], SumFor(es, keys[0]))] + Groups(keys[1..], es)
  }

  /** The distinct keys of `es`, in order of first appearance. */
  function DistinctKeys<K(==)>(es: seq<Entry<K>>): (ks: seq<K>)
    ensures Distinct(ks)
    ensures forall j :: 0 <= j < |es| ==> es[j].key in ks
    ensures forall i :: 0 <= i < |ks| ==> ks[i] in Keys(es)
    ensures |ks| == |set j | 0 <= j < |es| :: es[j].key|
  {
    var all := Keys(es);
    var ks := Dedup(all);
    assert (set x | x in ks) == set j | 0 <= j < |es| :: es[j].key by {
      forall x | x in ks
        ensures x in set j | 0 <= j < |es| :: es[j].key
      {
        var j :| 0 <= j < |all| && all[j] == x;
      }
      forall j | 0 <= j < |es|
        ensures es[j].key in ks
      {
        assert all[j] == es[j].key;
      }
    }
    CardinalityOfElements(ks);
    ks
  }

  /** Each sorted row is the group of a key that occurs in `es`. */
  lemma SortedRowIsGroup(es: seq<Entry<string>>, keys: seq<string>, rows: seq<CategoryRow>, i: int)
    requires forall k :: 0 <= k < |keys| ==> keys[k] in Keys(es)
    requires multiset(rows) == multiset(Groups(keys, es))
    requires 0 <= i < |rows|
    ensures rows[i].category in Keys(es)
    ensures rows[i].total == SumFor(es, rows[i].category)
  {
    var groups := Groups(keys, es);
    assert rows[i] in multiset(groups);
    var g :| 0 <= g < |groups| && groups[g] == rows[i];
    assert rows[i].category == keys[g];
  }

  lemma GroupsAreSortedRows(groups: seq<CategoryRow>, rows: seq<CategoryRow>, g: int)
    requires multiset(rows) == multiset(groups)
    requires 0 <= g < |groups|
    ensures exists i :: 0 <= i < |rows| && rows[i] == groups[g]
  {
    assert groups[g] in multiset(rows);
  }

  /** Each group row, sorted, still belongs to a category of `es` and
      carries that category's sum. */
  lemma {:induction false} SortedGroupsFacts(es: seq<Entry<string>>)
    ensures TotalPreorder(ByTotalDesc)
    ensures var rows := SortBy(ByTotalDesc, Groups(DistinctKeys(es), es));
            forall i :: 0 <= i < |rows| ==>
              rows[i].category in Keys(es)
              && rows[i].total == SumFor(es, rows[i].category)
  {
    ByTotalDescIsTotalPreorder();
    var keys := DistinctKeys(es);
    var rows := SortBy(ByTotalDesc, Groups(keys, es));
    forall i | 0 <= i < |rows|
      ensures rows[i].category in Keys(es)
              && rows[i].total == SumFor(es, rows[i].category)
    {
      SortedRowIsGroup(es, keys, rows, i);
    }
  }

  /** Every category of `es` has a row after sorting. */
  lemma {:induction false} SortedGroupsCover(es: seq<Entry<string>>)
    ensures TotalPreorder(ByTotalDesc)
    ensures var rows := SortBy(ByTotalDesc, Groups(DistinctKeys(es), es));
            forall j :: 0 <= j < |es| ==> es[j].key in Names(rows)
  {
    ByTotalDescIsTotalPreorder();
    var keys := DistinctKeys(es);
    var groups := Groups(keys, es);
    var rows := SortBy(ByTotalDesc, groups);
    forall j | 0 <= j < |es|
      ensures es[j].key in Names(rows)
    {
      var g :| 0 <= g < |keys| && keys[g] == es[j].key;
      GroupsAreSortedRows(groups, rows, g);
      var i :| 0 <= i < |rows| && rows[i] == groups[g];
      assert rows[i].category == es[j].key;
    }
  }

  function Names(rows: seq<CategoryRow>): (ns: seq<string>)
    ensures |ns| == |rows| && forall i :: 0 <= i < |rows| ==> ns[i] == rows[i].category
  {
    seq(|rows|, i requires 0 <= i < |rows| => rows[i].category)
  }

  /** The grouping by category, largest total first: one row per distinct
      category, each with the sum of its amounts; the rows add up to the
      grand total. */
  function CategoryTotals(es: seq<Entry<string>>): (rows: seq<CategoryRow>)
    ensures |rows| == |set j | 0 <= j < |es| :: es[j].key|
    ensures forall i :: 0 <= i < |rows| ==>
              rows[i].category in Keys(es)
              && rows[i].total == SumFor(es, rows[i].category)
    ensures forall j :: 0 <= j < |es| ==> es[j].key in Names(rows)
    ensures forall i, j :: 0 <= i < j < |rows| ==> rows[i].total >= rows[j].total
    ensures SumBy(rows, RowTotal) == Total(es)
  {
    SortedGroupsFacts(es);
    SortedGroupsCover(es);
    var keys := DistinctKeys(es);
    PartitionSum(keys, es);
    SortBySum(ByTotalDesc, Groups(keys, es), RowTotal);
    SortBy(ByTotalDesc, Groups(keys, es))
  }

  /** The label shown for a category: a missing or empty one reads "Uncategorized". */
  function Label(category: string): string
  {
    if category == [] then "Uncategorized" else category
  }

  /** The rows with their categories labelled. */
  function Labelled(rows: seq<CategoryRow>): (r: seq<CategoryRow>)
    ensures |r| == |rows|
    ensures forall i :: 0 <= i < |rows| ==> r[i] == CategoryRow(Label(rows[i].category), rows[i].total)
  {
    seq(|rows|, i requires 0 <= i < |rows| => CategoryRow(Label(rows[i].category), rows[i].total))
  }

  /** The day series of a range: one row per calendar day from the day of
      its start to the day of its end, days without activity included. */
  function ByDay(rng: Range, vs: seq<Visit>, xs: seq<Expense>): (rows: seq<DayRow>)
    requires rng.start % DayMs == 0
    ensures |rows| == if rng.start <= rng.end then DayOf(rng.end) - DayOf(rng.start) + 1 else 0
    ensures forall k :: 0 <= k < |rows| ==>
              var d := DayOf(rng.start) + k;
              rows[k] == DayRow(d, SumFor(VisitDays(vs), d), SumFor(ExpenseDays(xs), d))
  {
    DayOfMonotone(rng.start, rng.end);
    assert rng.start > rng.end ==> DayOf(rng.end) < DayOf(rng.start) by {
      if rng.start > rng.end {
        DayOfBounds(rng.end, DayOf(rng.end));
      }
    }
    DayRows(DaySeries(DayOf(rng.start), DayOf(rng.end)), VisitDays(vs), ExpenseDays(xs))
  }

  /** The day series as the handler builds it: walk a cursor from the start
      of the range one day at a time while it does not pass the end, then
      look each day up in the per-day sums, 0 for a day with no entry. */
  method BuildByDay(rng: Range, vs: seq<Visit>, xs: seq<Expense>) returns (rows: seq<DayRow>)
    requires rng.start % DayMs == 0
    ensures rows == ByDay(rng, vs, xs)
  {
    var labels := DayLabels(rng.start, rng.end);
    var income := VisitDays(vs);
    var spending := ExpenseDays(xs);
    rows := [];
    var k := 0;
    while k < |labels|
      invariant 0 <= k <= |labels|
      invariant |rows| == k
      invariant forall j :: 0 <= j < k ==>
                  rows[j] == DayRow(labels[j], SumFor(income, labels[j]), SumFor(spending, labels[j]))
    {
      rows := rows + [DayRow(labels[k], SumFor(income, labels[k]), SumFor(spending, labels[k]))];
      k := k + 1;
    }
  }

  /** The answer of `getSummary`. */
  datatype Summary = Summary(from: Option<int>, to: Option<int>, totalEarnings: int, totalExpenses: int,
                             netProfit: int, totalVisits: nat, byDay: seq<DayRow>,
                             expensesByCategory: seq<CategoryRow>)

  /** `getSummary`. */
  function GetSummary(visits: seq<Visit>, expenses: seq<Expense>, from: Option<int>, to: Option<int>,
                      now: int): (r: Result<Summary>)
    ensures r.Err? <==> from.Some? != to.Some?
    ensures r.Err? ==> r.status == BadRequest
    ensures r.Ok? ==>
              var rng := ResolveRange(from, to, now).value;
              var vs := VisitsIn(visits, rng);
              var xs := ExpensesIn(expenses, rng);
              var s := r.value;
              && s.from == from && s.to == to
              && s.totalEarnings == SumBy(vs, VisitTotal)
              && s.totalVisits == |vs|
              && s.totalExpenses == SumBy(xs, ExpenseAmount)
              && s.netProfit == s.totalEarnings - s.totalExpenses
              && s.byDay == ByDay(rng, vs, xs)
              && s.expensesByCategory == Labelled(CategoryTotals(ExpenseCategories(xs)))
  {
    var rng :- ResolveRange(from, to, now);
    var vs := VisitsIn(visits, rng);
    var xs := ExpensesIn(expenses, rng);
    var totalEarnings := SumBy(vs, VisitTotal);
    var totalExpenses := SumBy(xs, ExpenseAmount);
    Ok(Summary(from, to, totalEarnings, totalExpenses, totalEarnings - totalExpenses, |vs|,
               ByDay(rng, vs, xs), Labelled(CategoryTotals(ExpenseCategories(xs)))))
  }
}

module ReportProperties {

  import opened Outcomes
  import opened Seqs
  import opened Calendar
  import opened Grouping
  import opened Models
  import opened ReportController

  lemma DaySeriesDistinct(lo: int, hi: int)
    ensures Distinct(DaySeries(lo, hi))
  {
  }

  /** Every day an in-range instant falls on has its row in the series. */
  lemma InRangeDayListed(rng: Range, t: int)
    requires InRange(rng, t)
    ensures DayOf(t) in DaySeries(DayOf(rng.start), DayOf(rng.end))
  {
    DayOfMonotone(rng.start, t);
    DayOfMonotone(t, rng.end);
    var days := DaySeries(DayOf(rng.start), DayOf(rng.end));
    assert days[DayOf(t) - DayOf(rng.start)] == DayOf(t);
  }

  /** The day series adds up to the totals: no in-range visit or expense
      falls outside the listed days, and none is counted twice. */
  lemma ByDayAddsUp(rng: Range, visits: seq<Visit>, expenses: seq<Expense>)
    requires rng.start % DayMs == 0
    ensures var vs := VisitsIn(visits, rng);
            var xs := ExpensesIn(expenses, rng);
            && SumBy(ByDay(rng, vs, xs), Earnings) == SumBy(vs, VisitTotal)
            && SumBy(ByDay(rng, vs, xs), Spending) == SumBy(xs, ExpenseAmount)
  {
    var vs := VisitsIn(visits, rng);
    var xs := ExpensesIn(expenses, rng);
    var days := DaySeries(DayOf(rng.start), DayOf(rng.end));
    DayOfMonotone(rng.start, rng.end);
    DaySeriesDistinct(DayOf(rng.start), DayOf(rng.end));
    forall i | 0 <= i < |vs|
      ensures VisitDays(vs)[i].key in days
    {
      InRangeDayListed(rng, vs[i].visitDate);
    }
    forall i | 0 <= i < |xs|
      ensures ExpenseDays(xs)[i].key in days
    {
      InRangeDayListed(rng, xs[i].date);
    }
    PartitionSum(days, VisitDays(vs));
    PartitionSum(days, ExpenseDays(xs));
    VisitDaysTotal(vs);
    ExpenseDaysTotal(xs);
    DayRowsSums(days, VisitDays(vs), ExpenseDays(xs));
    assert ByDay(rng, vs, xs) == DayRows(days, VisitDays(vs), ExpenseDays(xs));
  }

  lemma {:induction false} LabelledKeepsTotals(rows: seq<CategoryRow>)
    ensures SumBy(Labelled(rows), RowTotal) == SumBy(rows, RowTotal)
  {
    if |rows| > 0 {
      LabelledKeepsTotals(rows[1..]);
      assert Labelled(rows)[1..] == Labelled(rows[1..]);
    }
  }

  /** A summary (both bounds given, or neither) is internally consistent:
      the day rows add up to the earnings and expense totals, the category
      rows add up to the expense total, and the categories come largest
      first. */
  lemma SummaryConsistent(visits: seq<Visit>, expenses: seq<Expense>, from: Option<int>, to: Option<int>,
                          now: int)
    requires from.Some? == to.Some?
    ensures var s := GetSummary(visits, expenses, from, to, now).value;
            && SumBy(s.byDay, Earnings) == s.totalEarnings
            && SumBy(s.byDay, Spending) == s.totalExpenses
            && SumBy(s.expensesByCategory, RowTotal) == s.totalExpenses
            && s.netProfit == s.totalEarnings - s.totalExpenses
            && (forall i, j :: 0 <= i < j < |s.expensesByCategory| ==>
                  s.expensesByCategory[i].total >= s.expensesByCategory[j].total)
  {
    var rng := ResolveRange(from, to, now).value;
    var xs := ExpensesIn(expenses, rng);
    ByDayAddsUp(rng, visits, expenses);
    ExpenseCategoriesTotal(xs);
    LabelledKeepsTotals(CategoryTotals(ExpenseCategories(xs)));
  }

  /** With both bounds, a visit or expense is counted exactly when its day
      lies between `from` and `to`, the end day included in full. */
  lemma FilterIsWholeDays(visits: seq<Visit>, expenses: seq<Expense>, from: int, to: int, now: int,
                          v: Visit, e: Expense)
    ensures var rng := ResolveRange(Some(from), Some(to), now).value;
            && multiset(VisitsIn(visits, rng))[v] ==
                 (if from <= DayOf(v.visitDate) <= to then multiset(visits)[v] else 0)
            && multiset(ExpensesIn(expenses, rng))[e] ==
                 (if from <= DayOf(e.date) <= to then multiset(expenses)[e] else 0)
  {
    ResolvedRangeIsWholeDays(from, to, now, v.visitDate);
    ResolvedRangeIsWholeDays(from, to, now, e.date);
  }

  /** Without bounds, every record from the epoch up to `now` is counted. */
  lemma NoBoundsIsAllHistory(visits: seq<Visit>, now: int, v: Visit)
    ensures var rng := ResolveRange(None, None, now).value;
            multiset(VisitsIn(visits, rng))[v] ==
              (if 0 <= v.visitDate <= now then multiset(visits)[v] else 0)
  {
  }

  /** A single record in range survives the filter. */
  lemma SingleVisitIn(rng: Range, v: Visit)
    requires InRange(rng, v.visitDate)
    ensures VisitsIn([v], rng) == [v]
  {
    var vs := VisitsIn([v], rng);
    assert multiset(vs)[v] == 1;
  }

  lemma SingleExpenseIn(rng: Range, e: Expense)
    requires InRange(rng, e.date)
    ensures ExpensesIn([e], rng) == [e]
  {
    var xs := ExpensesIn([e], rng);
    assert multiset(xs)[e] == 1;
  }

  /** One visit and one expense on day `d`, reported over `d` alone. */
  lemma OneDayRows(d: int, v: Visit, e: Expense)
    requires DayOf(v.visitDate) == d && DayOf(e.date) == d
    ensures ByDay(Range(StartOfDay(d), EndOfDay(d)), [v], [e]) == [DayRow(d, v.totalAmount, e.amount)]
  {
    var rng := Range(StartOfDay(d), EndOfDay(d));
    DayOfBounds(rng.start, d);
    DayOfBounds(rng.end, d);
    var byDay := ByDay(rng, [v], [e]);
    assert VisitDays([v]) == [Entry(d, v.totalAmount)];
    assert ExpenseDays([e]) == [Entry(d, e.amount)];
    assert SumFor([Entry(d, v.totalAmount)], d) == v.totalAmount;
    assert SumFor([Entry(d, e.amount)], d) == e.amount;
  }

  /** A single expense makes a single category row. */
  lemma OneCategoryRow(e: Expense)
    ensures CategoryTotals(ExpenseCategories([e])) == [CategoryRow(e.category, e.amount)]
  {
    var es := ExpenseCategories([e]);
    assert es == [Entry(e.category, e.amount)];
    var rows := CategoryTotals(es);
    assert (set j | 0 <= j < |es| :: es[j].key) == {e.category};
    assert Keys(es) == [e.category];
    assert |rows| == 1;
    assert rows[0].category == e.category;
    assert SumFor(es, e.category) == e.amount;
  }

  /** A one-day report: a 1000 visit and a 200 expense on the same day give
      a single day row, a profit of 800 and one category row. */
  lemma OneDayExample()
    ensures var d := 20429;
            var visit := Visit("v1", "c1", d * DayMs + 3_600_000, [LineItem("s1", "Cut", 1000, 1000, 1000)], 1000,
                               "", false);
            var expense := Expense("e1", d * DayMs, "Supplies", 200, "");
            GetSummary([visit], [expense], Some(d), Some(d), 0)
              == Ok(Summary(Some(d), Some(d), 1000, 200, 800, 1, [DayRow(d, 1000, 200)],
                            [CategoryRow("Supplies", 200)]))
  {
    var d := 20429;
    var visit := Visit("v1", "c1", d * DayMs + 3_600_000, [LineItem("s1", "Cut", 1000, 1000, 1000)], 1000,
                       "", false);
    var expense := Expense("e1", d * DayMs, "Supplies", 200, "");
    var rng := ResolveRange(Some(d), Some(d), 0).value;
    DayOfBounds(visit.visitDate, d);
    DayOfBounds(expense.date, d);
    SingleVisitIn(rng, visit);
    SingleExpenseIn(rng, expense);
    OneDayRows(d, visit, expense);
    OneCategoryRow(expense);
    assert Labelled([CategoryRow("Supplies", 200)]) == [CategoryRow("Supplies", 200)];
    assert SumBy([visit], VisitTotal) == 1000;
    assert SumBy([expense], ExpenseAmount) == 200;
  }
}
