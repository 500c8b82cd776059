/**
 * The expense table's store primitives: insert, edit, remove, the date-range
 * query and `ordeBy`, the five orderings of the expense list joined with its
 * category names.
 */
module Expenses {
  import opened Wrappers
  import opened Text
  import opened Store
  import opened Sorting

  method AddExpense(db: Database, name: string, cost: real, date: string, categoryId: Option<int> := None,
                    walletId: Option<int> := None, description: Option<string> := None)
    requires db.Valid()
    modifies db
    ensures db.Valid()
    ensures db.Snap() == old(db.Snap()).(expenses := Insert(old(db.expenses), Expense(name, categoryId, cost, date, description, walletId)))
  {
    db.expenses := Insert(db.expenses, Expense(name, categoryId, cost, date, description, walletId));
  }

  /** The row `edit_expense` writes: each argument that is None keeps the stored field. */
  function Edited(cur: Expense, newName: Option<string>, newCategoryId: Option<int>, newCost: Option<real>,
                  newDate: Option<string>, newDescription: Option<string>, newWalletId: Option<int>): (e: Expense)
    ensures newName.None? ==> e.name == cur.name
    ensures newCategoryId.None? ==> e.categoryId == cur.categoryId
    ensures newCost.None? ==> e.cost == cur.cost
    ensures newDate.None? ==> e.date == cur.date
    ensures newDescription.None? ==> e.description == cur.description
    ensures newWalletId.None? ==> e.walletId == cur.walletId
    ensures cur.categoryId.Some? ==> e.categoryId.Some?
    ensures cur.walletId.Some? ==> e.walletId.Some?
    ensures newName.Some? ==> e.name == newName.value
    ensures newCategoryId.Some? ==> e.categoryId == newCategoryId
    ensures newCost.Some? ==> e.cost == newCost.value
    ensures newDate.Some? ==> e.date == newDate.value
    ensures newDescription.Some? ==> e.description == newDescription
    ensures newWalletId.Some? ==> e.walletId == newWalletId
  {
    Expense(
      newName.GetOr(cur.name),
      if newCategoryId.Some? then newCategoryId else cur.categoryId,
      newCost.GetOr(cur.cost),
      newDate.GetOr(cur.date),
      if newDescription.Some? then newDescription else cur.description,
      if newWalletId.Some? then newWalletId else cur.walletId)
  }

  /** The table after `edit_expense`: an unknown id changes nothing; otherwise only that row changes. */
  function EditedRows(rows: Rows<Expense>, id: int, newName: Option<string>, newCategoryId: Option<int>,
                      newCost: Option<real>, newDate: Option<string>, newDescription: Option<string>,
                      newWalletId: Option<int>): (r: Rows<Expense>)
    ensures Find(rows, id).None? ==> r == rows
    ensures Ids(r) == Ids(rows)
    ensures forall i :: 0 <= i < |rows| && rows[i].id != id ==> r[i] == rows[i]
    ensures Find(rows, id).Some? ==>
      Find(r, id) == Some(Edited(Find(rows, id).value, newName, newCategoryId, newCost, newDate, newDescription, newWalletId))
  {
    match Find(rows, id)
    case None => rows
    case Some(cur) =>
      var e := Edited(cur, newName, newCategoryId, newCost, newDate, newDescription, newWalletId);
      FindUpdate(rows, id, e, id);
      Update(rows, id, e)
  }

  method EditExpense(db: Database, expenseId: int, newName: Option<string> := None,
                     newCategoryId: Option<int> := None, newCost: Option<real> := None,
                     newDate: Option<string> := None, newDescription: Option<string> := None,
                     newWalletId: Option<int> := None)
    requires db.Valid()
    modifies db
    ensures db.Valid()
    ensures db.Snap() == old(db.Snap()).(expenses :=
      EditedRows(old(db.expenses), expenseId, newName, newCategoryId, newCost, newDate, newDescription, newWalletId))
  {
    match Find(db.expenses, expenseId)
    case None =>
    case Some(cur) =>
      UpdateKeepsValid(db.expenses, expenseId, Edited(cur, newName, newCategoryId, newCost, newDate, newDescription, newWalletId));
      db.expenses := EditedRows(db.expenses, expenseId, newName, newCategoryId, newCost, newDate, newDescription, newWalletId);
  }

  /** `remove_expense`: only the row with that id goes. */
  method RemoveExpense(db: Database, expenseId: int)
    requires db.Valid()
    modifies db
    ensures db.Valid()
    ensures db.Snap() == old(db.Snap()).(expenses := Delete(old(db.expenses), expenseId))
  {
    DeleteKeepsValid(db.expenses, expenseId);
    db.expenses := Delete(db.expenses, expenseId);
  }

  /** `date BETWEEN start AND end` on text: both ends included. */
  predicate InRange(date: string, start: string, end: string) {
    LexLe(start, date) && LexLe(date, end)
  }

  /** The row filter of `get_expenses_by_date_range`. */
  function DatedWithin(start: string, end: string): Expense -> bool {
    (e: Expense) => InRange(e.date, start, end)
  }

  /** `get_expenses_by_date_range`: exactly the ids of the expenses dated within the range. */
  function ExpensesByDateRange(rows: Rows<Expense>, start: string, end: string): (ids: seq<nat>)
    ensures forall i :: 0 <= i < |rows| ==> (rows[i].id in ids <== InRange(rows[i].data.date, start, end))
    ensures forall k :: 0 <= k < |ids| ==> HasRowWhere(rows, ids[k], DatedWithin(start, end))
  {
    DatedWithinSelects(rows, start, end);
    IdsWhere(rows, DatedWithin(start, end))
  }

  /** Both halves of `ExpensesByDateRange`'s contract, stated for the filter it selects with. */
  lemma DatedWithinSelects(rows: Rows<Expense>, start: string, end: string)
    ensures forall i :: 0 <= i < |rows| ==> (rows[i].id in IdsWhere(rows, DatedWithin(start, end)) <== InRange(rows[i].data.date, start, end))
    ensures forall k :: 0 <= k < |IdsWhere(rows, DatedWithin(start, end))| ==> HasRowWhere(rows, IdsWhere(rows, DatedWithin(start, end))[k], DatedWithin(start, end))
  {
    var p := DatedWithin(start, end);
    var ids := IdsWhere(rows, p);
    forall i | 0 <= i < |rows| && InRange(rows[i].data.date, start, end) ensures rows[i].id in ids {
      assert p(rows[i].data);
    }
    forall k | 0 <= k < |ids| ensures HasRowWhere(rows, ids[k], p) {
      var i := IdsWhereSound(rows, p, k);
    }
  }

  /** Both ends of the range are included: an expense dated `start` or `end` is selected. */
  lemma DateRangeInclusive(rows: Rows<Expense>, i: nat, start: string, end: string)
    requires i < |rows| && LexLe(start, end)
    requires rows[i].data.date == start || rows[i].data.date == end
    ensures rows[i].id in ExpensesByDateRange(rows, start, end)
  {
    LexLeReflexive(rows[i].data.date);
  }

  // ---------------------------------------------------------------------
  // ordeBy

  /** One row of `ordeBy`'s result: the expense with its category's name (None when there is none). */
  datatype ExpenseView = ExpenseView(
    id: nat, name: string, category: Option<string>, cost: real, date: string,
    description: Option<string>, walletId: Option<int>)

  /** `LEFT JOIN category ON expense.category_id = category.id`: the name, or NULL when nothing matches. */
  function CategoryName(categories: Rows<Category>, categoryId: Option<int>): Option<string> {
    if categoryId.None? then None
    else
      match Find(categories, categoryId.value)
      case None => None
      case Some(c) => Some(c.name)
  }

  function View(e: Row<Expense>, categories: Rows<Category>): ExpenseView {
    ExpenseView(e.id, e.data.name, CategoryName(categories, e.data.categoryId), e.data.cost, e.data.date,
                e.data.description, e.data.walletId)
  }

  /**
   * The left join keeps every expense, one view each, in table order, with its
   * own columns; the category column is the matched category's name, or None.
   */
  function Joined(expenses: Rows<Expense>, categories: Rows<Category>): (r: seq<ExpenseView>)
    ensures |r| == |expenses|
    ensures forall i :: 0 <= i < |r| ==>
      var e := expenses[i].data;
      r[i].id == expenses[i].id && r[i].name == e.name && r[i].cost == e.cost && r[i].date == e.date
      && r[i].description == e.description && r[i].walletId == e.walletId
    ensures forall i :: 0 <= i < |r| && expenses[i].data.categoryId.None? ==> r[i].category.None?
    ensures forall i :: 0 <= i < |r| && expenses[i].data.categoryId.Some? ==>
      r[i].category == match Find(categories, expenses[i].data.categoryId.value)
                       case None => None
                       case Some(c) => Some(c.name)
  {
    seq(|expenses|, i requires 0 <= i < |expenses| => View(expenses[i], categories))
  }

  /** SQLite sorts NULL before any text in ascending order. */
  predicate NullsFirstLe(a: Option<string>, b: Option<string>) {
    a.None? || (b.Some? && LexLe(a.value, b.value))
  }

  /** The ORDER BY clause of each option, as a key order that allows ties. */
  function OrderKey(option: int): (ExpenseView, ExpenseView) -> bool {
    match option
    case 2 => (a: ExpenseView, b: ExpenseView) => NullsFirstLe(a.category, b.category)
    case 3 => (a: ExpenseView, b: ExpenseView) => a.cost >= b.cost
    case 4 => (a: ExpenseView, b: ExpenseView) => a.cost <= b.cost
    case 5 => (a: ExpenseView, b: ExpenseView) => LexLe(b.date, a.date)
    case _ => (a: ExpenseView, b: ExpenseView) => a.id <= b.id
  }

  lemma OrderKeyPreorder(option: int)
    ensures TotalPreorder(OrderKey(option))
  {
    var le := OrderKey(option);
    forall a: ExpenseView, b: ExpenseView ensures le(a, b) || le(b, a) {
      if option == 2 && a.category.Some? && b.category.Some? {
        LexLeTotal(a.category.value, b.category.value);
      } else if option == 5 {
        LexLeTotal(a.date, b.date);
      }
    }
    forall a: ExpenseView, b: ExpenseView, c: ExpenseView | le(a, b) && le(b, c) ensures le(a, c) {
      if option == 2 && a.category.Some? {
        LexLeTransitive(a.category.value, b.category.value, c.category.value);
      } else if option == 5 {
        LexLeTransitive(c.date, b.date, a.date);
      }
    }
  }

  /**
   * `ordeBy`: options 1..5 select the order (id, category name with NULLs
   * first, cost high to low, cost low to high, date newest first); any other
   * option is refused.
   */
  function OrderExpenses(expenses: Rows<Expense>, categories: Rows<Category>, option: int): (r: Result<seq<ExpenseView>>)
    ensures r.Err? <==> !(1 <= option <= 5)
    ensures r.Ok? ==> multiset(r.value) == multiset(Joined(expenses, categories)) && |r.value| == |expenses|
    ensures r.Ok? ==> SortedBy(r.value, OrderKey(option))
  {
    if !(1 <= option <= 5) then Err(ValueError("Invalid option. Choose between 1 and 5."))
    else
      OrderKeyPreorder(option);
      Ok(SortBy(Joined(expenses, categories), OrderKey(option)))
  }

  /** Option 5 lists the newest date first: an earlier row never has a strictly older date than a later one. */
  lemma NewestFirst(expenses: Rows<Expense>, categories: Rows<Category>, i: nat, j: nat)
    requires OrderExpenses(expenses, categories, 5).Ok?
    requires i < j < |OrderExpenses(expenses, categories, 5).value|
    ensures LexLe(OrderExpenses(expenses, categories, 5).value[j].date, OrderExpenses(expenses, categories, 5).value[i].date)
  {
    var r := OrderExpenses(expenses, categories, 5).value;
    assert OrderKey(5)(r[i], r[j]);
  }
}
