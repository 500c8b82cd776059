/** The goal table's store primitives: insert with defaults, edit, remove and the category query. */
module Goals {
  import opened Wrappers
  import opened Store

  /**
   * `add_goal`: the arguments cannot set `completed` or `end_date`; the row
   * gets the column defaults for them (not completed, no end date).
   */
  method AddGoal(db: Database, name: string, amountToReach: real, amountReached: real := 0.0,
                 categoryId: Option<int> := None, currency: string := "EUR", startDate: Option<string> := None)
    requires db.Valid()
    modifies db
    ensures db.Valid()
    ensures db.Snap() == old(db.Snap()).(goals :=
      Insert(old(db.goals), Goal(name, amountToReach, amountReached, categoryId, currency, false, startDate, None)))
  {
    db.goals := Insert(db.goals, Goal(name, amountToReach, amountReached, categoryId, currency, false, startDate, None));
  }

  /**
   * The row `edit_goal` writes: each of the five editable fields whose
   * argument is None keeps its stored value; `completed` and both dates are
   * never touched.
   */
  function Edited(cur: Goal, newName: Option<string>, newToReach: Option<real>, newReached: Option<real>,
                  newCategoryId: Option<int>, newCurrency: Option<string>): (g: Goal)
    ensures g.completed == cur.completed && g.startDate == cur.startDate && g.endDate == cur.endDate
    ensures newName.None? ==> g.name == cur.name
    ensures newToReach.None? ==> g.amountToReach == cur.amountToReach
    ensures newReached.None? ==> g.amountReached == cur.amountReached
    ensures newCategoryId.None? ==> g.categoryId == cur.categoryId
    ensures newCurrency.None? ==> g.currency == cur.currency
    ensures newName.Some? ==> g.name == newName.value
    ensures newToReach.Some? ==> g.amountToReach == newToReach.value
    ensures newReached.Some? ==> g.amountReached == newReached.value
    ensures newCategoryId.Some? ==> g.categoryId == newCategoryId
    ensures newCurrency.Some? ==> g.currency == newCurrency.value
  {
    cur.(name := newName.GetOr(cur.name),
         amountToReach := newToReach.GetOr(cur.amountToReach),
         amountReached := newReached.GetOr(cur.amountReached),
         categoryId := if newCategoryId.Some? then newCategoryId else cur.categoryId,
         currency := newCurrency.GetOr(cur.currency))
  }

  /** The table after `edit_goal`: an unknown id changes nothing; otherwise only that row changes. */
  function EditedRows(rows: Rows<Goal>, id: int, newName: Option<string>, newToReach: Option<real>,
                      newReached: Option<real>, newCategoryId: Option<int>, newCurrency: Option<string>): (r: Rows<Goal>)
    ensures Find(rows, id).None? ==> r == rows
    ensures Ids(r) == Ids(rows)
    ensures forall i :: 0 <= i < |rows| && rows[i].id != id ==> r[i] == rows[i]
    ensures Find(rows, id).Some? ==>
      Find(r, id) == Some(Edited(Find(rows, id).value, newName, newToReach, newReached, newCategoryId, newCurrency))
  {
    match Find(rows, id)
    case None => rows
    case Some(cur) =>
      var g := Edited(cur, newName, newToReach, newReached, newCategoryId, newCurrency);
      FindUpdate(rows, id, g, id);
      Update(rows, id, g)
  }

  method EditGoal(db: Database, goalId: int, newName: Option<string> := None, newToReach: Option<real> := None,
                  newReached: Option<real> := None, newCategoryId: Option<int> := None,
                  newCurrency: Option<string> := None)
    requires db.Valid()
    modifies db
    ensures db.Valid()
    ensures db.Snap() == old(db.Snap()).(goals :=
      EditedRows(old(db.goals), goalId, newName, newToReach, newReached, newCategoryId, newCurrency))
  {
    match Find(db.goals, goalId)
    case None =>
    case Some(cur) =>
      UpdateKeepsValid(db.goals, goalId, Edited(cur, newName, newToReach, newReached, newCategoryId, newCurrency));
      db.goals := EditedRows(db.goals, goalId, newName, newToReach, newReached, newCategoryId, newCurrency);
  }

  /** `remove_goal`: only the row with that id goes. */
  method RemoveGoal(db: Database, goalId: int)
    requires db.Valid()
    modifies db
    ensures db.Valid()
    ensures db.Snap() == old(db.Snap()).(goals := Delete(old(db.goals), goalId))
  {
    DeleteKeepsValid(db.goals, goalId);
    db.goals := Delete(db.goals, goalId);
  }

  /** The row filter of `get_goals_by_category`. */
  function InCategory(categoryId: Option<int>): Goal -> bool {
    (g: Goal) => g.categoryId == categoryId
  }

  /**
   * `get_goals_by_category`: `category_id = ?` with a NULL argument matches
   * no row, so None gives no ids; otherwise exactly the goals in that category.
   */
  function GoalsByCategory(rows: Rows<Goal>, categoryId: Option<int>): (ids: seq<nat>)
    ensures categoryId.None? ==> ids == []
    ensures forall i :: 0 <= i < |rows| ==> (rows[i].id in ids <== categoryId.Some? && rows[i].data.categoryId == categoryId)
    ensures forall k :: 0 <= k < |ids| ==> HasRowWhere(rows, ids[k], InCategory(categoryId))
  {
    if categoryId.None? then []
    else
      InCategorySelects(rows, categoryId);
      IdsWhere(rows, InCategory(categoryId))
  }

  /** Both halves of `GoalsByCategory`'s contract, stated for the filter it selects with. */
  lemma InCategorySelects(rows: Rows<Goal>, categoryId: Option<int>)
    ensures forall i :: 0 <= i < |rows| ==> (rows[i].id in IdsWhere(rows, InCategory(categoryId)) <== rows[i].data.categoryId == categoryId)
    ensures forall k :: 0 <= k < |IdsWhere(rows, InCategory(categoryId))| ==> HasRowWhere(rows, IdsWhere(rows, InCategory(categoryId))[k], InCategory(categoryId))
  {
    var p := InCategory(categoryId);
    var ids := IdsWhere(rows, p);
    forall i | 0 <= i < |rows| && rows[i].data.categoryId == categoryId ensures rows[i].id in ids {
      assert p(rows[i].data);
    }
    forall k | 0 <= k < |ids| ensures HasRowWhere(rows, ids[k], p) {
      var i := IdsWhereSound(rows, p, k);
    }
  }
}
