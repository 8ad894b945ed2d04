/**
 * The list logic of the dashboard (frontend/Expense-tracker/src/pages/Dashboard.jsx): ordering the
 * fetched expenses, the delete and filter views of the list, the budget kept in `localStorage`,
 * the edit form's state and the budget warning.
 */
module Dashboard {
  import opened Wrappers
  import opened Lists
  import opened Client
  import JsString

  /** `(a, b) => new Date(b.date) - new Date(a.date)` as an ordering: `a` may come first when it is
      no older. `time` stands for the instant `new Date` reads from the date text. */
  function NewestFirst(time: string -> int): (le: (Expense, Expense) -> bool)
    ensures TotalPreorder(le)
  {
    (a: Expense, b: Expense) => time(a.date) >= time(b.date)
  }

  /** The sort in `fetchExpenses`: the fetched expenses, rearranged newest first. */
  function SortByDate(response: seq<Expense>, time: string -> int): (sorted: seq<Expense>)
    ensures multiset(sorted) == multiset(response)
    ensures forall i, j | 0 <= i < j < |sorted| :: time(sorted[i].date) >= time(sorted[j].date)
  {
    assert TotalPreorder(NewestFirst(time));
    var sorted := Sort(response, NewestFirst(time));
    assert forall i, j | 0 <= i < j < |sorted| :: NewestFirst(time)(sorted[i], sorted[j]);
    sorted
  }

  /** `handleDelete` after the server answered: the list without the deleted id. */
  function WithoutId(expenses: seq<Expense>, id: string): (r: seq<Expense>)
    ensures forall i | 0 <= i < |r| :: r[i].id != id
    ensures forall e: Expense | e.id != id :: multiset(r)[e] == multiset(expenses)[e]
  {
    Filter(expenses, (e: Expense) => e.id != id)
  }

  /** Deleting keeps the order of the rest: it distributes over concatenation, and an id nobody has
      leaves the list as it was. */
  lemma WithoutIdKeepsOrder(a: seq<Expense>, b: seq<Expense>, id: string)
    ensures WithoutId(a + b, id) == WithoutId(a, id) + WithoutId(b, id)
    ensures (forall i | 0 <= i < |a| :: a[i].id != id) ==> WithoutId(a, id) == a
  {
    FilterAppend(a, b, (e: Expense) => e.id != id);
    if forall i | 0 <= i < |a| :: a[i].id != id {
      FilterAll(a, (e: Expense) => e.id != id);
    }
  }

  datatype Filters = Filters(category: string, startDate: string, endDate: string)

  /** What the Clear Filters button sets. */
  const Cleared: Filters := Filters("", "", "")

  /** `new Date(exp.date).toISOString().slice(0, 10)` for the ISO text the server sends. */
  function Day(e: Expense): string
  {
    JsString.Take(e.date, 10)
  }

  /** The three tests of `filteredExpenses`, each skipped when its filter is empty. With every
      filter cleared all expenses pass, and with both dates set nothing passes unless the start
      is not after the end. */
  predicate Passes(f: Filters, e: Expense): (r: bool)
    ensures f.category == "" && f.startDate == "" && f.endDate == "" ==> r
    ensures r && f.startDate != "" && f.endDate != "" ==> JsString.LexLe(f.startDate, f.endDate)
  {
    var ok :=
      && (f.category == "" || JsString.Includes(JsString.Lower(e.category), JsString.Lower(f.category)))
      && (f.startDate == "" || JsString.LexLe(f.startDate, Day(e)))
      && (f.endDate == "" || JsString.LexLe(Day(e), f.endDate));
    if ok && f.startDate != "" && f.endDate != "" then
      JsString.LexLeTransitive(f.startDate, Day(e), f.endDate);
      ok
    else ok
  }

  function FilteredExpenses(expenses: seq<Expense>, f: Filters): (r: seq<Expense>)
    ensures forall i | 0 <= i < |r| :: Passes(f, r[i])
    ensures forall e: Expense :: multiset(r)[e] == if Passes(f, e) then multiset(expenses)[e] else 0
  {
    Filter(expenses, (e: Expense) => Passes(f, e))
  }

  /** The filtered view keeps the list's order. */
  lemma FilteredKeepsOrder(a: seq<Expense>, b: seq<Expense>, f: Filters)
    ensures FilteredExpenses(a + b, f) == FilteredExpenses(a, f) + FilteredExpenses(b, f)
  {
    FilterAppend(a, b, (e: Expense) => Passes(f, e));
  }

  /** With the filters cleared every expense is shown, in order. */
  lemma ClearedShowsAll(expenses: seq<Expense>)
    ensures FilteredExpenses(expenses, Cleared) == expenses
  {
    FilterAll(expenses, (e: Expense) => Passes(Cleared, e));
  }

  /** With only a category filter, an expense is shown exactly when its category contains the
      filter text, ignoring ASCII case. */
  lemma CategoryOnly(e: Expense, category: string)
    requires category != ""
    ensures Passes(Filters(category, "", ""), e) <==>
              exists i: nat :: JsString.OccursAt(JsString.Lower(e.category), JsString.Lower(category), i)
  {
  }

  const BudgetKey: string := "budget"
  const NewUserKey: string := "isNewUser"
  const TokenKey: string := "token"
  const DefaultBudget: real := 10000.0

  predicate IsNewUser(items: map<string, string>)
  {
    NewUserKey in items && items[NewUserKey] == "true"
  }

  /** The budget initialiser: the budget it yields and the storage it leaves. */
  datatype BudgetStart = BudgetStart(budget: real, items: map<string, string>)

  /** A new user starts at 0 with the saved budget blanked and the flag removed; anyone else gets
      the saved budget parsed, or 10000 when none (or '') is saved, and the storage is untouched. */
  function StartBudget(items: map<string, string>, parse: string -> real): (r: BudgetStart)
    ensures IsNewUser(items) ==> r.budget == 0.0 && r.items == items[BudgetKey := ""] - {NewUserKey}
    ensures !IsNewUser(items) ==> r.items == items
    ensures !IsNewUser(items) && BudgetKey in items && items[BudgetKey] != "" ==> r.budget == parse(items[BudgetKey])
    ensures !IsNewUser(items) && (BudgetKey !in items || items[BudgetKey] == "") ==> r.budget == DefaultBudget
    ensures NewUserKey !in r.items || !IsNewUser(items)
  {
    if IsNewUser(items) then BudgetStart(0.0, items[BudgetKey := ""] - {NewUserKey})
    else if BudgetKey in items && items[BudgetKey] != "" then BudgetStart(parse(items[BudgetKey]), items)
    else BudgetStart(DefaultBudget, items)
  }

  /** Registration sets the new-user flag; the first dashboard load then shows a budget of 0, but
      the blank it saves makes every later load show 10000. */
  lemma NewUserBudgetThenDefault(items: map<string, string>, parse: string -> real)
    ensures var first := StartBudget(items[NewUserKey := "true"], parse);
            && first.budget == 0.0
            && StartBudget(first.items, parse).budget == DefaultBudget
            && StartBudget(first.items, parse).items == first.items
  {
    var first := StartBudget(items[NewUserKey := "true"], parse);
    assert NewUserKey !in first.items;
    assert first.items[BudgetKey] == "";
  }

  /** The browser's `localStorage`, as far as the dashboard uses it. */
  class Storage {
    var items: map<string, string>

    constructor (items: map<string, string>)
      ensures this.items == items
    {
      this.items := items;
    }

    /** The `useState` initialiser of `budget`. */
    method InitBudget(parse: string -> real) returns (budget: real)
      modifies this
      ensures BudgetStart(budget, items) == StartBudget(old(items), parse)
    {
      var isNewUser := NewUserKey in items && items[NewUserKey] == "true";
      if isNewUser {
        items := items[BudgetKey := ""];
        items := items - {NewUserKey};
        return 0.0;
      }
      if BudgetKey in items && items[BudgetKey] != "" {
        budget := parse(items[BudgetKey]);
      } else {
        budget := DefaultBudget;
      }
    }

    /** `handleLogout`: removes the token and the budget, nothing else, and goes to the login page. */
    method Logout() returns (route: string)
      modifies this
      ensures items == old(items) - {TokenKey, BudgetKey}
      ensures route == "/login"
    {
      items := items - {TokenKey};
      items := items - {BudgetKey};
      route := "/login";
    }
  }

  /** The expense form's fields. */
  datatype ExpenseForm = ExpenseForm(title: string, amount: Amount, category: string, date: string)

  const EmptyForm: ExpenseForm := ExpenseForm("", Str(""), "", "")

  /** The request `handleSubmit` sends. */
  datatype Request = Put(id: string, body: ExpenseForm) | Post(body: ExpenseForm)

  /** The editing state: whether an expense is being edited, which one, and the form. */
  class Editor {
    var isEditing: bool
    var editId: Option<string>
    var form: ExpenseForm

    /** An id is held exactly while editing. */
    ghost predicate Valid()
      reads this
    {
      isEditing <==> editId.Some?
    }

    constructor ()
      ensures Valid() && !isEditing && editId == None && form == EmptyForm
    {
      isEditing := false;
      editId := None;
      form := EmptyForm;
    }

    /** `handleEditClick`: edit this expense, its date cut to the day. */
    method EditClick(e: Expense)
      modifies this
      ensures Valid() && isEditing && editId == Some(e.id)
      ensures form == ExpenseForm(e.title, e.amount, e.category, JsString.Take(e.date, 10))
    {
      isEditing := true;
      editId := Some(e.id);
      form := ExpenseForm(e.title, e.amount, e.category, JsString.Take(e.date, 10));
    }

    /** `handleCancelEdit`. */
    method CancelEdit()
      modifies this
      ensures Valid() && !isEditing && editId == None && form == EmptyForm
    {
      isEditing := false;
      editId := None;
      form := EmptyForm;
    }

    /** `handleSubmit`: a PUT of the form to the edited id while editing, a POST otherwise;
        `succeeded` is whether the server accepted it. Success resets the editor; failure (an
        alert) leaves it as it was. */
    method Submit(succeeded: bool) returns (request: Request)
      requires Valid()
      modifies this
      ensures request == if old(isEditing) then Put(old(editId).value, old(form)) else Post(old(form))
      ensures succeeded ==> !isEditing && editId == None && form == EmptyForm
      ensures !succeeded ==> isEditing == old(isEditing) && editId == old(editId) && form == old(form)
      ensures Valid()
    {
      if isEditing {
        request := Put(editId.value, form);
      } else {
        request := Post(form);
      }
      if succeeded {
        if isEditing {
          isEditing := false;
          editId := None;
        }
        form := EmptyForm;
      }
    }
  }

  /** `totalSpending` is summed over the list in newest-first order, and comes to the same total as
      the response in the order the server sent it. */
  lemma TotalAfterSort(response: seq<Expense>, time: string -> int, parse: string -> real)
    ensures Spending(SortByDate(response, time), parse) == Spending(response, parse)
  {
    SpendingPermutation(SortByDate(response, time), response, parse);
  }

  /** A JavaScript number as the percentage can produce it: the budget 0 gives a division by zero. */
  datatype Percent = Finite(value: real) | MinusInfinity | NotANumber

  function Min(a: real, b: real): real
  {
    if a <= b then a else b
  }

  /** `Math.min((totalSpending / budget) * 100, 100)`. */
  function BudgetPercentage(total: real, budget: real): (p: Percent)
    ensures p.Finite? ==> p.value <= 100.0
    ensures p == NotANumber <==> budget == 0.0 && total == 0.0
    ensures p == MinusInfinity <==> budget == 0.0 && total < 0.0
    ensures budget != 0.0 ==> p.Finite? && (p.value == 100.0 || p.value == total / budget * 100.0)
  {
    if budget == 0.0 then
      if total > 0.0 then Finite(100.0) else if total < 0.0 then MinusInfinity else NotANumber
    else Finite(Min(total / budget * 100.0, 100.0))
  }

  datatype Level = Safe | Warning | Critical

  /** `budgetWarningLevel`: above 90 is critical, above 70 a warning; comparisons with NaN fail. */
  function WarningLevel(p: Percent): (l: Level)
    ensures l == Critical <==> p.Finite? && p.value > 90.0
    ensures l == Warning <==> p.Finite? && 70.0 < p.value <= 90.0
    ensures l == Safe <==> !p.Finite? || p.value <= 70.0
  {
    if p.Finite? && p.value > 90.0 then Critical
    else if p.Finite? && p.value > 70.0 then Warning
    else Safe
  }

  /** With a positive budget: critical past 90% of it, a warning past 70%, safe otherwise. */
  lemma {:induction false} LevelsOfPositiveBudget(total: real, budget: real)
    requires budget > 0.0
    ensures WarningLevel(BudgetPercentage(total, budget)) == Critical <==> total * 10.0 > budget * 9.0
    ensures WarningLevel(BudgetPercentage(total, budget)) == Warning <==>
              budget * 7.0 < total * 10.0 <= budget * 9.0
    ensures WarningLevel(BudgetPercentage(total, budget)) == Safe <==> total * 10.0 <= budget * 7.0
  {
    ShareAbove(total, budget, 0.9);
    ShareAbove(total, budget, 0.7);
    var ratio := total / budget * 100.0;
    assert BudgetPercentage(total, budget) == Finite(Min(ratio, 100.0));
  }

  /** Dividing by a positive budget keeps comparisons. */
  lemma ShareAbove(total: real, budget: real, t: real)
    requires budget > 0.0
    ensures total / budget > t <==> total > t * budget
  {
    var share := total / budget;
    assert share * budget == total;
    if share > t {
      assert (share - t) * budget > 0.0;
    } else {
      assert (t - share) * budget >= 0.0;
    }
  }

  /** With a budget of 0 any spending at all is critical, and none is safe. */
  lemma LevelsOfZeroBudget(total: real)
    ensures WarningLevel(BudgetPercentage(total, 0.0)) == if total > 0.0 then Critical else Safe
  {
  }
}
