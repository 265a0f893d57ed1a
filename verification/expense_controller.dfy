/** The expense handlers: add, list within an optional date window, delete. */
module ExpenseController {

  import opened Outcomes
  import opened Seqs
  import opened Sorting
  import opened Text
  import opened Calendar
  import opened Store
  import opened Models

  /** A successful write: the collection afterwards and the record answered. */
  datatype Saved = Saved(store: seq<Expense>, expense: Expense)

  /** `addExpense`: category and amount are required; the date defaults to
      `now`, the category is trimmed and the notes default to "". */
  function AddExpense(store: seq<Expense>, newId: Id, now: int, date: Option<int>, category: Option<string>,
                      amount: Option<int>, notes: Option<string>): (r: Result<Saved>)
    ensures r == Err(BadRequest) <==> category.None? || category.value == [] || amount.None?
    ensures r == Err(ServerError) <==>
              category.Some? && category.value != [] && amount.Some?
              && (Trim(category.value) == [] || amount.value < 0)
    ensures r.Ok? ==> r.value.expense == Expense(newId, date.GetOr(now), Trim(category.value), amount.value,
                                                 Trim(notes.GetOr([])))
    ensures r.Ok? ==> r.value.store == store + [r.value.expense] && ValidExpense(r.value.expense)
    ensures r.Err? ==> r.status != NotFound
  {
    if category.None? || category.value == [] || amount.None? then Err(BadRequest)
    else
      var expense :- NewExpense(newId, now, date, category.value, amount.value, notes);
      Ok(Saved(store + [expense], expense))
  }

  /** Adding an expense under a fresh id keeps the expense ids unique, as
      `DeleteExpense` expects. */
  lemma AddExpenseKeepsIdsUnique(store: seq<Expense>, newId: Id, now: int, date: Option<int>,
                                 category: Option<string>, amount: Option<int>, notes: Option<string>)
    requires UniqueKeys(store, ExpenseKey) && Find(store, ExpenseKey, newId).None?
    requires AddExpense(store, newId, now, date, category, amount, notes).Ok?
    ensures UniqueKeys(AddExpense(store, newId, now, date, category, amount, notes).value.store, ExpenseKey)
  {
    var saved := AddExpense(store, newId, now, date, category, amount, notes).value;
    AppendFreshUnique(store, ExpenseKey, saved.expense);
  }

  /** The date filter of `getExpenses`: each bound applies on its own, the
      lower one from midnight of `from`, the upper one to the last
      millisecond of `to`. */
  predicate InWindow(from: Option<int>, to: Option<int>, e: Expense)
  {
    (from.Some? ==> e.date >= StartOfDay(from.value)) && (to.Some? ==> e.date <= EndOfDay(to.value))
  }

  /** Newest first. */
  predicate ByDateDesc(a: Expense, b: Expense)
  {
    a.date >= b.date
  }

  lemma ByDateDescIsTotalPreorder()
    ensures TotalPreorder(ByDateDesc)
  {
  }

  /** `getExpenses`: the expenses inside the window, each once, newest first. */
  function GetExpenses(store: seq<Expense>, from: Option<int>, to: Option<int>): (r: seq<Expense>)
    ensures forall e :: multiset(r)[e] == if InWindow(from, to, e) then multiset(store)[e] else 0
    ensures forall i, j :: 0 <= i < j < |r| ==> r[i].date >= r[j].date
  {
    ByDateDescIsTotalPreorder();
    var kept := Filter(store, e => InWindow(from, to, e));
    SortBy(ByDateDesc, kept)
  }

  /** With bounds, the window is the days from `from` to `to`, both whole
      days included; without bounds every expense is listed. */
  lemma WindowByDays(from: Option<int>, to: Option<int>, e: Expense)
    ensures InWindow(from, to, e) <==>
              (from.Some? ==> DayOf(e.date) >= from.value) && (to.Some? ==> DayOf(e.date) <= to.value)
  {
    DayOfBounds(e.date, DayOf(e.date));
  }

  /** `deleteExpense`: 404 when the id is unknown, otherwise that expense is
      removed and the others keep their order. */
  function DeleteExpense(store: seq<Expense>, id: Id): (r: Result<seq<Expense>>)
    ensures r.Err? <==> forall j :: 0 <= j < |store| ==> store[j].id != id
    ensures r.Err? ==> r.status == NotFound
    ensures r.Ok? ==> var i := Find(store, ExpenseKey, id).value;
                      r.value == store[..i] + store[i + 1..]
    ensures r.Ok? && UniqueKeys(store, ExpenseKey) ==>
              UniqueKeys(r.value, ExpenseKey) && forall j :: 0 <= j < |r.value| ==> r.value[j].id != id
  {
    match Find(store, ExpenseKey, id)
    case None => Err(NotFound)
    case Some(i) =>
      RemoveAtUnique(store, ExpenseKey, i);
      Ok(RemoveAt(store, i))
  }
}
