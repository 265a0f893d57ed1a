/** The reports page: date presets, the expense list order, the recent
    expenses table and the add-expense form. */
module ReportsPage {

  import opened Outcomes
  import opened Seqs
  import opened Sorting
  import opened Store
  import opened Text
  import opened Calendar
  import opened Models
  import ExpenseController
  import ReportController

  /** The list order: newer dates first, and on the same date the greater
      id first (`localeCompare` taken as code-point order). */
  predicate ExpenseBefore(a: Expense, b: Expense)
  {
    a.date > b.date || (a.date == b.date && LexLe(b.id, a.id))
  }

  lemma ExpenseBeforeIsTotalPreorder()
    ensures TotalPreorder(ExpenseBefore)
  {
    forall a: Expense, b: Expense
      ensures ExpenseBefore(a, b) || ExpenseBefore(b, a)
    {
      LexLeTotal(a.id, b.id);
    }
    forall a: Expense, b: Expense, c: Expense | ExpenseBefore(a, b) && ExpenseBefore(b, c)
      ensures ExpenseBefore(a, c)
    {
      if a.date == b.date && b.date == c.date {
        LexLeTransitive(c.id, b.id, a.id);
      }
    }
  }

  /** Two expenses neither of which comes after the other share date and
      id: with distinct ids the order leaves no ties. */
  lemma ExpenseOrderHasNoTies(a: Expense, b: Expense)
    requires ExpenseBefore(a, b) && ExpenseBefore(b, a)
    ensures a.date == b.date && a.id == b.id
  {
    LexLeAntisymmetric(a.id, b.id);
  }

  /** The fetched expenses in list order. */
  function SortExpenses(expenses: seq<Expense>): (r: seq<Expense>)
    ensures multiset(r) == multiset(expenses)
    ensures forall i, j :: 0 <= i < j < |r| ==> r[i].date >= r[j].date
    ensures forall i, j :: 0 <= i < j < |r| && r[i].date == r[j].date ==> LexLe(r[j].id, r[i].id)
  {
    ExpenseBeforeIsTotalPreorder();
    SortBy(ExpenseBefore, expenses)
  }

  /** The recent-expenses table: the first five in list order. */
  function Recent(expenses: seq<Expense>): (r: seq<Expense>)
    ensures |r| == if |expenses| < 5 then |expenses| else 5
    ensures r <= SortExpenses(expenses)
    ensures forall i :: 0 <= i < |r| ==> r[i] in expenses
  {
    var sorted := SortExpenses(expenses);
    var r := Take(sorted, 5);
    forall i | 0 <= i < |r|
      ensures r[i] in expenses
    {
      assert r[i] == sorted[i];
      assert sorted[i] in multiset(expenses);
    }
    r
  }

  /** Which range a preset button asks for. */
  datatype Preset = Today | Week | Month

  /** Monday of the week of day `t`, a Sunday belonging to the week that
      started six days before. */
  function WeekStart(t: int): (m: int)
    ensures Weekday(m) == 1
    ensures 0 <= t - m <= 6
  {
    var day := Weekday(t);
    var m := t - day + (if day == 0 then -6 else 1);
    assert t + 4 == 7 * ((t + 4) / 7) + day;
    assert m + 4 == 7 * ((t + 4) / 7) + (if day == 0 then -6 else 1);
    assert m + 4 == 7 * ((t + 4) / 7 - (if day == 0 then 1 else 0)) + 1;
    m
  }

  /** The first of the month of `today`. */
  function MonthStart(today: Date): (m: int)
    requires ValidDate(today)
    ensures DayNumber(today) - m == today.day - 1
    ensures m == DayNumber(Date(today.year, today.month, 1))
  {
    DayNumber(Date(today.year, today.month, 1))
  }

  /** The range of a preset as day numbers, given today's date: today
      alone; Monday of this week up to today; the first of this month up to
      today. */
  function ApplyPreset(p: Preset, today: Date): (r: (int, int))
    requires ValidDate(today)
    ensures r.1 == DayNumber(today)
    ensures p == Today ==> r.0 == r.1
    ensures p == Week ==> Weekday(r.0) == 1 && 0 <= r.1 - r.0 <= 6
    ensures p == Month ==> r.1 - r.0 == today.day - 1 && r.0 == DayNumber(Date(today.year, today.month, 1))
  {
    var t := DayNumber(today);
    match p
    case Today => (t, t)
    case Week => (WeekStart(t), t)
    case Month => (MonthStart(today), t)
  }

  /** On Sunday 7 December 2025 the week preset starts on Monday
      1 December, and the month preset starts on the same day. */
  lemma PresetExample()
    ensures ApplyPreset(Week, Date(2025, 12, 7)) == (DayNumber(Date(2025, 12, 1)), DayNumber(Date(2025, 12, 7)))
    ensures ApplyPreset(Month, Date(2025, 12, 7)) == ApplyPreset(Week, Date(2025, 12, 7))
  {
    DayNumberExamples();
    assert DayNumber(Date(2025, 12, 7)) == 20429;
    assert Weekday(20429) == 0;
  }

  /** The add-expense form: the day picked (`None` once the date input is
      cleared) and the fields as typed. */
  datatype ExpenseForm = ExpenseForm(day: Option<int>, category: string, amount: string, notes: string)

  /** What a save did: the form afterwards and the server's answer, if a
      request was sent. */
  datatype Saving = Saving(form: ExpenseForm, answer: Option<Result<ExpenseController.Saved>>)

  /** The `date` the page posts: midnight of the picked day, or nothing
      when the input was cleared (an empty string, which the server treats
      as absent). */
  function SentDate(day: Option<int>): (d: Option<int>)
    ensures d.Some? <==> day.Some?
    ensures day.Some? ==> d.value % DayMs == 0 && DayOf(d.value) == day.value
  {
    if day.Some? then Some(StartOfDay(day.value)) else None
  }

  /** Saving an expense: an empty category or amount sends nothing;
      otherwise the form is posted with the amount as the number `amount`
      reads as, and once the server stores it the form is cleared except
      for the day. */
  function HandleSaveExpense(f: ExpenseForm, amount: int, store: seq<Expense>, newId: Id, now: int)
    : (r: Saving)
    ensures r.answer.None? <==> f.category == [] || f.amount == []
    ensures r.answer.None? ==> r.form == f
    ensures r.answer.Some? ==>
              r.answer.value == ExpenseController.AddExpense(store, newId, now, SentDate(f.day),
                                                             Some(f.category), Some(amount), Some(f.notes))
    ensures r.answer.Some? && r.answer.value.Ok? ==> r.form == ExpenseForm(f.day, [], [], [])
    ensures r.answer.Some? && r.answer.value.Err? ==> r.form == f
  {
    if f.category == [] || f.amount == [] then Saving(f, None)
    else
      var answer := ExpenseController.AddExpense(store, newId, now, SentDate(f.day), Some(f.category),
                                                 Some(amount), Some(f.notes));
      if answer.Ok? then Saving(ExpenseForm(f.day, [], [], []), Some(answer)) else Saving(f, Some(answer))
  }

  /** A form the page sends always gets past the server's 400 check: the
      server can refuse it only when its validators do (a blank category or
      a negative amount). A stored expense is dated at midnight of the
      picked day, or at `now` when the date input was cleared. */
  lemma SentFormPassesPresenceCheck(f: ExpenseForm, amount: int, store: seq<Expense>, newId: Id, now: int)
    requires HandleSaveExpense(f, amount, store, newId, now).answer.Some?
    ensures var answer := HandleSaveExpense(f, amount, store, newId, now).answer.value;
            && answer != Err(BadRequest)
            && (answer.Err? <==> IsBlank(f.category) || amount < 0)
            && (answer.Ok? && f.day.Some? ==> answer.value.expense.date == StartOfDay(f.day.value))
            && (answer.Ok? && f.day.None? ==> answer.value.expense.date == now)
  {
    TrimEmptyIffBlank(f.category);
  }

  /** The category doughnut is drawn only when there are expenses to show. */
  predicate ShowDoughnut(s: ReportController.Summary)
  {
    s.totalExpenses > 0
  }

  /** With no negative amounts, the total is positive exactly when some
      expense has a positive amount. */
  lemma {:induction false} PositiveTotalIff(xs: seq<Expense>)
    requires forall i :: 0 <= i < |xs| ==> xs[i].amount >= 0
    ensures SumBy(xs, ReportController.ExpenseAmount) >= 0
    ensures SumBy(xs, ReportController.ExpenseAmount) > 0 <==> exists i :: 0 <= i < |xs| && xs[i].amount > 0
  {
    if |xs| > 0 {
      PositiveTotalIff(xs[1..]);
      if xs[0].amount == 0 && SumBy(xs, ReportController.ExpenseAmount) == 0 {
        forall i | 0 < i < |xs|
          ensures xs[i].amount <= 0
        {
          assert xs[1..][i - 1] == xs[i];
        }
      }
      if SumBy(xs[1..], ReportController.ExpenseAmount) > 0 {
        var k :| 0 <= k < |xs[1..]| && xs[1..][k].amount > 0;
        assert xs[k + 1].amount > 0;
      }
    }
  }

  /** Stored expenses have non-negative amounts, so the ones in a range do too. */
  lemma InRangeAmountsNonNegative(expenses: seq<Expense>, rng: ReportController.Range)
    requires forall i :: 0 <= i < |expenses| ==> ValidExpense(expenses[i])
    ensures var xs := ReportController.ExpensesIn(expenses, rng);
            forall i :: 0 <= i < |xs| ==> xs[i].amount >= 0
  {
    var xs := ReportController.ExpensesIn(expenses, rng);
    forall i | 0 <= i < |xs|
      ensures xs[i].amount >= 0
    {
      assert multiset(xs)[xs[i]] > 0;
      assert xs[i] in multiset(expenses);
      var j :| 0 <= j < |expenses| && expenses[j] == xs[i];
    }
  }

  /** For stored expenses, the doughnut shows exactly when some expense in
      the range has a positive amount. */
  lemma DoughnutIffPositiveExpense(visits: seq<Visit>, expenses: seq<Expense>, from: Option<int>, to: Option<int>,
                                   now: int)
    requires forall i :: 0 <= i < |expenses| ==> ValidExpense(expenses[i])
    requires from.Some? == to.Some?
    ensures var rng := ReportController.ResolveRange(from, to, now).value;
            var xs := ReportController.ExpensesIn(expenses, rng);
            (ShowDoughnut(ReportController.GetSummary(visits, expenses, from, to, now).value)
             <==> exists i :: 0 <= i < |xs| && xs[i].amount > 0)
  {
    var rng := ReportController.ResolveRange(from, to, now).value;
    var xs := ReportController.ExpensesIn(expenses, rng);
    InRangeAmountsNonNegative(expenses, rng);
    assert ReportController.GetSummary(visits, expenses, from, to, now).value.totalExpenses
           == SumBy(xs, ReportController.ExpenseAmount);
    PositiveTotalIff(xs);
  }
}
