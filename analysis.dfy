/**
 * The balance operations that move money between wallets, expenses and goals,
 * and the pure list helpers of the analysis layer (toggle filter, month list,
 * sort modes, per-currency totals).
 *
 * Money is exact (`real`); the source's float arithmetic and its rounding to
 * two decimals are not modelled.
 */
module Analysis {
  import opened Wrappers
  import opened Text
  import opened Store
  import opened Sorting

  // ---------------------------------------------------------------------
  // Wallet totals

  /** The sum of all wallet balances. */
  function Total(rows: Rows<Wallet>): real {
    if rows == [] then 0.0 else rows[0].data.amount + Total(rows[1..])
  }

  /** The wallet with `amount` taken off its balance, name and currency kept. */
  function Debit(w: Wallet, amount: real): (r: Wallet)
    ensures r.amount == w.amount - amount && r.name == w.name && r.currency == w.currency
  {
    w.(amount := w.amount - amount)
  }

  /** The wallet with `amount` added to its balance, name and currency kept. */
  function Credit(w: Wallet, amount: real): (r: Wallet)
    ensures r.amount == w.amount + amount && r.name == w.name && r.currency == w.currency
  {
    w.(amount := w.amount + amount)
  }

  /** Updating one row of a table with unique ids changes the total by that row's change. */
  lemma {:induction false} TotalUpdate(rows: Rows<Wallet>, k: nat, w: Wallet)
    requires ValidRows(rows) && k < |rows|
    ensures Total(Update(rows, rows[k].id, w)) == Total(rows) - rows[k].data.amount + w.amount
  {
    var id := rows[k].id;
    var u := Update(rows, id, w);
    assert u[1..] == Update(rows[1..], id, w);
    assert ValidRows(rows[1..]);
    if k == 0 {
      UpdateAbsent(rows[1..], id, w);
    } else {
      TotalUpdate(rows[1..], k - 1, w);
    }
  }

  lemma UpdateAbsent<T>(rows: Rows<T>, id: int, data: T)
    requires forall i :: 0 <= i < |rows| ==> rows[i].id > id
    ensures Update(rows, id, data) == rows
  {
  }

  /** Writing back the data a row already has changes nothing. */
  lemma UpdateSame<T>(rows: Rows<T>, id: int, data: T)
    requires ValidRows(rows) && Find(rows, id) == Some(data)
    ensures Update(rows, id, data) == rows
  {
    var u := Update(rows, id, data);
    forall i | 0 <= i < |rows| ensures u[i] == rows[i] {
      if rows[i].id == id {
        FindAt(rows, i);
      }
    }
  }

  /** An update leaves every other id reading as before. */
  lemma UpdateOthers<T>(rows: Rows<T>, id: int, data: T)
    ensures forall other :: other != id ==> Find(Update(rows, id, data), other) == Find(rows, other)
  {
    forall other | other != id {
      FindUpdate(rows, id, data, other);
    }
  }

  lemma UpdateTwice<T>(rows: Rows<T>, id: int, a: T, b: T)
    ensures Update(Update(rows, id, a), id, b) == Update(rows, id, b)
  {
  }

  // ---------------------------------------------------------------------
  // record_expense and redo_expense

  /**
   * `UPDATE wallet SET amount = amount - cost WHERE id = walletId`, done only
   * when the `SELECT` before it found the wallet (an absent id, or SQL `NULL`,
   * finds nothing and changes nothing).
   */
  function Charged(wallets: Rows<Wallet>, walletId: Option<int>, cost: real): (r: Rows<Wallet>)
    requires ValidRows(wallets)
    ensures ValidRows(r) && Ids(r) == Ids(wallets)
    ensures walletId.None? || Find(wallets, walletId.value).None? ==> r == wallets
    ensures walletId.Some? && Find(wallets, walletId.value).Some? ==>
      Find(r, walletId.value) == Some(Debit(Find(wallets, walletId.value).value, cost))
    ensures forall id :: walletId.Some? && id != walletId.value ==> Find(r, id) == Find(wallets, id)
  {
    if walletId.None? then wallets
    else match Find(wallets, walletId.value)
      case None => wallets
      case Some(w) =>
        FindUpdate(wallets, walletId.value, Debit(w, cost), walletId.value);
        UpdateOthers(wallets, walletId.value, Debit(w, cost));
        UpdateKeepsValid(wallets, walletId.value, Debit(w, cost));
        Update(wallets, walletId.value, Debit(w, cost))
  }

  /** The same guarded update in the other direction: `amount + cost`. */
  function Refunded(wallets: Rows<Wallet>, walletId: Option<int>, cost: real): (r: Rows<Wallet>)
    requires ValidRows(wallets)
    ensures ValidRows(r) && Ids(r) == Ids(wallets)
    ensures walletId.None? || Find(wallets, walletId.value).None? ==> r == wallets
    ensures walletId.Some? && Find(wallets, walletId.value).Some? ==>
      Find(r, walletId.value) == Some(Credit(Find(wallets, walletId.value).value, cost))
    ensures forall id :: walletId.Some? && id != walletId.value ==> Find(r, id) == Find(wallets, id)
  {
    if walletId.None? then wallets
    else match Find(wallets, walletId.value)
      case None => wallets
      case Some(w) =>
        FindUpdate(wallets, walletId.value, Credit(w, cost), walletId.value);
        UpdateOthers(wallets, walletId.value, Credit(w, cost));
        UpdateKeepsValid(wallets, walletId.value, Credit(w, cost));
        Update(wallets, walletId.value, Credit(w, cost))
  }

  /** A charge takes the cost out of the total, and a refund puts it in, exactly when the wallet exists. */
  lemma ChargedTotal(wallets: Rows<Wallet>, walletId: Option<int>, cost: real)
    requires ValidRows(wallets)
    ensures Total(Charged(wallets, walletId, cost))
      == Total(wallets) - if walletId.Some? && Find(wallets, walletId.value).Some? then cost else 0.0
    ensures Total(Refunded(wallets, walletId, cost))
      == Total(wallets) + if walletId.Some? && Find(wallets, walletId.value).Some? then cost else 0.0
  {
    if walletId.Some? && Find(wallets, walletId.value).Some? {
      var k := FindIndex(wallets, walletId.value);
      FindAt(wallets, k);
      TotalUpdate(wallets, k, Debit(wallets[k].data, cost));
      TotalUpdate(wallets, k, Credit(wallets[k].data, cost));
    }
  }

  /** Refunding what was charged restores the wallets exactly. */
  lemma RefundCharged(wallets: Rows<Wallet>, walletId: Option<int>, cost: real)
    requires ValidRows(wallets)
    ensures Refunded(Charged(wallets, walletId, cost), walletId, cost) == wallets
  {
    if walletId.Some? && Find(wallets, walletId.value).Some? {
      var id := walletId.value;
      var w := Find(wallets, id).value;
      assert Credit(Debit(w, cost), cost) == w;
      assert Refunded(Charged(wallets, walletId, cost), walletId, cost)
        == Update(Update(wallets, id, Debit(w, cost)), id, w);
      UpdateTwice(wallets, id, Debit(w, cost), w);
      UpdateSame(wallets, id, w);
    }
  }

  /** `record_expense`: the expense is inserted; its wallet, if there is one, pays the cost. */
  function Recorded(s: Snapshot, e: Expense): (t: Snapshot)
    requires ValidSnapshot(s)
    ensures ValidSnapshot(t)
    ensures t.expenses == Insert(s.expenses, e)
    ensures t == s.(expenses := t.expenses, wallets := t.wallets)
    ensures Find(t.expenses, NextId(s.expenses)) == Some(e)
  {
    FindInsert(s.expenses, e, NextId(s.expenses));
    s.(expenses := Insert(s.expenses, e), wallets := Charged(s.wallets, e.walletId, e.cost))
  }

  /** Recording takes the cost out of the wallet total exactly when the expense names an existing wallet. */
  lemma RecordedTotal(s: Snapshot, e: Expense)
    requires ValidSnapshot(s)
    ensures Total(Recorded(s, e).wallets)
      == Total(s.wallets) - if e.walletId.Some? && Find(s.wallets, e.walletId.value).Some? then e.cost else 0.0
  {
    ChargedTotal(s.wallets, e.walletId, e.cost);
  }

  /**
   * `redo_expense`: when the expense and its wallet both exist, the wallet
   * gets the cost back and the expense is deleted; otherwise nothing changes.
   */
  function Redone(s: Snapshot, expenseId: int): (t: Snapshot)
    requires ValidSnapshot(s)
    ensures ValidSnapshot(t)
    ensures t == s.(expenses := t.expenses, wallets := t.wallets)
    ensures t == s || (Find(t.expenses, expenseId).None? && |t.expenses| == |s.expenses| - 1)
  {
    match Find(s.expenses, expenseId)
    case None => s
    case Some(e) =>
      if e.walletId.None? || Find(s.wallets, e.walletId.value).None? then s
      else
        DeleteKeepsValid(s.expenses, expenseId);
        DeletePresent(s.expenses, expenseId);
        DeletedIdGone(s.expenses, expenseId);
        s.(wallets := Refunded(s.wallets, e.walletId, e.cost), expenses := Delete(s.expenses, expenseId))
  }

  /** Redoing the expense just recorded into an existing wallet gives back the store as it was. */
  lemma RedoAfterRecord(s: Snapshot, e: Expense)
    requires ValidSnapshot(s) && e.walletId.Some? && Find(s.wallets, e.walletId.value).Some?
    ensures Redone(Recorded(s, e), NextId(s.expenses)) == s
  {
    var t := Recorded(s, e);
    assert Find(t.wallets, e.walletId.value).Some?;
    assert Redone(t, NextId(s.expenses))
      == t.(wallets := Refunded(t.wallets, e.walletId, e.cost), expenses := Delete(t.expenses, NextId(s.expenses)));
    RefundCharged(s.wallets, e.walletId, e.cost);
    DeleteInserted(s.expenses, e);
  }

  /** Without an existing wallet, redo after record leaves the recorded expense in place. */
  lemma RedoAfterRecordNoWallet(s: Snapshot, e: Expense)
    requires ValidSnapshot(s) && (e.walletId.None? || Find(s.wallets, e.walletId.value).None?)
    ensures Redone(Recorded(s, e), NextId(s.expenses)) == Recorded(s, e)
    ensures Find(Recorded(s, e).expenses, NextId(s.expenses)) == Some(e)
  {
    var t := Recorded(s, e);
    assert t.wallets == s.wallets;
  }

  method RecordExpense(db: Database, name: string, cost: real, date: string, categoryId: Option<int> := None,
                       walletId: Option<int> := None, description: Option<string> := None)
    requires db.Valid()
    modifies db
    ensures db.Valid()
    ensures db.Snap() == Recorded(old(db.Snap()), Expense(name, categoryId, cost, date, description, walletId))
  {
    db.expenses := Insert(db.expenses, Expense(name, categoryId, cost, date, description, walletId));
    if walletId.None? {
      return;
    }
    var wallet := Find(db.wallets, walletId.value);
    if wallet.None? {
      return;
    }
    db.wallets := Update(db.wallets, walletId.value, Debit(wallet.value, cost));
  }

  method RedoExpense(db: Database, expenseId: int)
    requires db.Valid()
    modifies db
    ensures db.Valid()
    ensures db.Snap() == Redone(old(db.Snap()), expenseId)
  {
    var expense := Find(db.expenses, expenseId);
    if expense.None? {
      return;
    }
    var walletId := expense.value.walletId;
    if walletId.None? {
      return;
    }
    var wallet := Find(db.wallets, walletId.value);
    if wallet.None? {
      return;
    }
    db.wallets := Update(db.wallets, walletId.value, Credit(wallet.value, expense.value.cost));
    DeleteKeepsValid(db.expenses, expenseId);
    db.expenses := Delete(db.expenses, expenseId);
  }

  // ---------------------------------------------------------------------
  // transfer_money

  /** The guards `transfer_money` checks before moving anything. */
  predicate TransferAllowed(wallets: Rows<Wallet>, giver: int, receiver: int, amount: real) {
    Find(wallets, giver).Some? && amount > 0.0 && Find(wallets, giver).value.amount >= amount
    && Find(wallets, receiver).Some? && Find(wallets, giver).value.currency == Find(wallets, receiver).value.currency
  }

  /**
   * `transfer_money` as written: both balances are read first, then the
   * giver's row and the receiver's row are written in turn; with
   * `giver == receiver` the second write wins.
   */
  function Transferred(wallets: Rows<Wallet>, giver: int, receiver: int, amount: real): (r: Rows<Wallet>)
    requires ValidRows(wallets)
    ensures ValidRows(r) && Ids(r) == Ids(wallets)
    ensures !TransferAllowed(wallets, giver, receiver, amount) ==> r == wallets
  {
    if !TransferAllowed(wallets, giver, receiver, amount) then wallets
    else Move(wallets, giver, receiver, amount, Find(wallets, giver).value, Find(wallets, receiver).value)
  }

  /** The two writes of a transfer, given the balances `g` and `v` read before either. */
  function Move(wallets: Rows<Wallet>, giver: int, receiver: int, amount: real, g: Wallet, v: Wallet): Rows<Wallet> {
    Update(Update(wallets, giver, Debit(g, amount)), receiver, Credit(v, amount))
  }

  /** Between two distinct wallets the giver loses the amount and the receiver gains it. */
  lemma TransferMoves(wallets: Rows<Wallet>, giver: int, receiver: int, amount: real)
    requires ValidRows(wallets) && giver != receiver && TransferAllowed(wallets, giver, receiver, amount)
    ensures Find(Transferred(wallets, giver, receiver, amount), giver).value.amount == Find(wallets, giver).value.amount - amount
    ensures Find(Transferred(wallets, giver, receiver, amount), receiver).value.amount == Find(wallets, receiver).value.amount + amount
  {
    var g := Find(wallets, giver).value;
    var v := Find(wallets, receiver).value;
    var g' := Debit(g, amount);
    var v' := Credit(v, amount);
    var u := Update(wallets, giver, g');
    assert Transferred(wallets, giver, receiver, amount) == Update(u, receiver, v');
    FindUpdate(wallets, giver, g', giver);
    FindUpdate(wallets, giver, g', receiver);
    FindUpdate(u, receiver, v', giver);
    FindUpdate(u, receiver, v', receiver);
  }

  /** Two updates of distinct rows change the total by both rows' changes. */
  lemma TotalUpdateTwo(wallets: Rows<Wallet>, a: int, b: int, wa: Wallet, wb: Wallet)
    requires ValidRows(wallets) && a != b && Find(wallets, a).Some? && Find(wallets, b).Some?
    ensures Total(Update(Update(wallets, a, wa), b, wb))
      == Total(wallets) - Find(wallets, a).value.amount + wa.amount - Find(wallets, b).value.amount + wb.amount
  {
    var ka := FindIndex(wallets, a);
    var kb := FindIndex(wallets, b);
    FindAt(wallets, ka);
    FindAt(wallets, kb);
    var u := Update(wallets, a, wa);
    TotalUpdate(wallets, ka, wa);
    assert ValidRows(u) by { UpdateKeepsValid(wallets, a, wa); }
    assert u[kb] == wallets[kb];
    TotalUpdate(u, kb, wb);
  }

  /** Between two distinct wallets every transfer, refused or not, keeps the total. */
  lemma TransferKeepsTotal(wallets: Rows<Wallet>, giver: int, receiver: int, amount: real)
    requires ValidRows(wallets) && giver != receiver
    ensures Total(Transferred(wallets, giver, receiver, amount)) == Total(wallets)
  {
    if TransferAllowed(wallets, giver, receiver, amount) {
      var g := Find(wallets, giver).value;
      var v := Find(wallets, receiver).value;
      TransferredIsMove(wallets, giver, receiver, amount, g, v);
      MoveKeepsTotal(wallets, giver, receiver, amount, g, v);
    }
  }

  lemma TransferredIsMove(wallets: Rows<Wallet>, giver: int, receiver: int, amount: real, g: Wallet, v: Wallet)
    requires ValidRows(wallets) && TransferAllowed(wallets, giver, receiver, amount)
    requires Find(wallets, giver) == Some(g) && Find(wallets, receiver) == Some(v)
    ensures Transferred(wallets, giver, receiver, amount) == Move(wallets, giver, receiver, amount, g, v)
  {
  }

  lemma MoveKeepsTotal(wallets: Rows<Wallet>, giver: int, receiver: int, amount: real, g: Wallet, v: Wallet)
    requires ValidRows(wallets) && giver != receiver
    requires Find(wallets, giver) == Some(g) && Find(wallets, receiver) == Some(v)
    ensures Total(Move(wallets, giver, receiver, amount, g, v)) == Total(wallets)
  {
    TotalUpdateTwo(wallets, giver, receiver, Debit(g, amount), Credit(v, amount));
  }

  /** A transfer from a wallet to itself raises its balance by the amount instead of leaving it alone. */
  lemma SelfTransferGrows(wallets: Rows<Wallet>, id: int, amount: real)
    requires ValidRows(wallets) && TransferAllowed(wallets, id, id, amount)
    ensures Find(Transferred(wallets, id, id, amount), id).value.amount == Find(wallets, id).value.amount + amount
    ensures Total(Transferred(wallets, id, id, amount)) == Total(wallets) + amount
  {
    var w := Find(wallets, id).value;
    TransferredIsMove(wallets, id, id, amount, w, w);
    SelfMove(wallets, id, amount, w);
  }

  lemma SelfMove(wallets: Rows<Wallet>, id: int, amount: real, w: Wallet)
    requires ValidRows(wallets) && Find(wallets, id) == Some(w)
    ensures Find(Move(wallets, id, id, amount, w, w), id) == Some(Credit(w, amount))
    ensures Total(Move(wallets, id, id, amount, w, w)) == Total(wallets) + amount
  {
    var w2 := Credit(w, amount);
    UpdateTwice(wallets, id, Debit(w, amount), w2);
    FindUpdate(wallets, id, w2, id);
    var k := FindIndex(wallets, id);
    FindAt(wallets, k);
    TotalUpdate(wallets, k, w2);
  }

  /** The transfer with the missing guard: a wallet never transfers to itself. */
  function TransferredChecked(wallets: Rows<Wallet>, giver: int, receiver: int, amount: real): (r: Rows<Wallet>)
    requires ValidRows(wallets)
    ensures ValidRows(r) && Ids(r) == Ids(wallets)
    ensures Total(r) == Total(wallets)
    ensures giver == receiver || !TransferAllowed(wallets, giver, receiver, amount) ==> r == wallets
  {
    if giver == receiver then wallets
    else
      TransferKeepsTotal(wallets, giver, receiver, amount);
      Transferred(wallets, giver, receiver, amount)
  }

  method TransferMoney(db: Database, giver: int, receiver: int, amount: real)
    requires db.Valid()
    modifies db
    ensures db.Valid()
    ensures db.Snap() == old(db.Snap()).(wallets := Transferred(old(db.wallets), giver, receiver, amount))
  {
    var g := Find(db.wallets, giver);
    if g.None? {
      return;
    }
    if amount <= 0.0 || g.value.amount < amount {
      return;
    }
    var v := Find(db.wallets, receiver);
    if v.None? {
      return;
    }
    if g.value.currency != v.value.currency {
      return;
    }
    TransferredIsMove(db.wallets, giver, receiver, amount, g.value, v.value);
    db.wallets := Update(db.wallets, giver, Debit(g.value, amount));
    db.wallets := Update(db.wallets, receiver, Credit(v.value, amount));
  }

  // ---------------------------------------------------------------------
  // complete_goal

  /** The expense `complete_goal` logs for goal `g` paid from wallet `walletId` on `today`. */
  function GoalExpense(g: Goal, walletId: int, today: string): Expense {
    Expense(g.name, g.categoryId, g.amountToReach, today, Some("goal completed"), Some(walletId))
  }

  /**
   * `complete_goal`: when the goal and the wallet exist, the wallet pays the
   * goal's amount, one "goal completed" expense is logged and the goal row is
   * deleted; otherwise nothing changes.
   */
  function Completed(s: Snapshot, goalId: int, walletId: int, today: string): (t: Snapshot)
    requires ValidSnapshot(s)
    ensures ValidSnapshot(t)
    ensures t == s.(wallets := t.wallets, expenses := t.expenses, goals := t.goals)
    ensures Find(s.goals, goalId).None? || Find(s.wallets, walletId).None? ==> t == s
    ensures Find(s.goals, goalId).Some? && Find(s.wallets, walletId).Some? ==>
      Find(t.goals, goalId).None? && |t.goals| == |s.goals| - 1
      && t.expenses == Insert(s.expenses, GoalExpense(Find(s.goals, goalId).value, walletId, today))
    ensures Find(s.goals, goalId).Some? && Find(s.wallets, walletId).Some? ==>
      t.wallets == Charged(s.wallets, Some(walletId), Find(s.goals, goalId).value.amountToReach)
  {
    match Find(s.goals, goalId)
    case None => s
    case Some(g) =>
      if Find(s.wallets, walletId).None? then s
      else
        DeleteKeepsValid(s.goals, goalId);
        DeletePresent(s.goals, goalId);
        DeletedIdGone(s.goals, goalId);
        s.(wallets := Charged(s.wallets, Some(walletId), g.amountToReach),
           expenses := Insert(s.expenses, GoalExpense(g, walletId, today)),
           goals := Delete(s.goals, goalId))
  }

  /** Completing a goal takes its amount out of the wallet total. */
  lemma CompletedTotal(s: Snapshot, goalId: int, walletId: int, today: string)
    requires ValidSnapshot(s) && Find(s.goals, goalId).Some? && Find(s.wallets, walletId).Some?
    ensures Total(Completed(s, goalId, walletId, today).wallets) == Total(s.wallets) - Find(s.goals, goalId).value.amountToReach
  {
    ChargedTotal(s.wallets, Some(walletId), Find(s.goals, goalId).value.amountToReach);
  }

  /** The position of a present id. */
  function FindIndex<T>(rows: Rows<T>, id: int): (k: nat)
    requires Find(rows, id).Some?
    ensures k < |rows| && rows[k].id == id
  {
    if rows[0].id == id then 0 else 1 + FindIndex(rows[1..], id)
  }

  /** Redoing the expense a goal completion logged refunds the wallet; the goal stays deleted. */
  lemma RedoCompletedGoal(s: Snapshot, goalId: int, walletId: int, today: string)
    requires ValidSnapshot(s) && Find(s.goals, goalId).Some? && Find(s.wallets, walletId).Some?
    ensures Redone(Completed(s, goalId, walletId, today), NextId(s.expenses)).wallets == s.wallets
    ensures Redone(Completed(s, goalId, walletId, today), NextId(s.expenses)).expenses == s.expenses
    ensures Find(Redone(Completed(s, goalId, walletId, today), NextId(s.expenses)).goals, goalId).None?
  {
    var g := Find(s.goals, goalId).value;
    var e := GoalExpense(g, walletId, today);
    var t := Completed(s, goalId, walletId, today);
    assert t.wallets == Charged(s.wallets, Some(walletId), g.amountToReach);
    FindInsert(s.expenses, e, NextId(s.expenses));
    assert Find(t.wallets, walletId).Some?;
    assert Redone(t, NextId(s.expenses))
      == t.(wallets := Refunded(t.wallets, Some(walletId), g.amountToReach), expenses := Delete(t.expenses, NextId(s.expenses)));
    RefundCharged(s.wallets, Some(walletId), g.amountToReach);
    DeleteInserted(s.expenses, e);
  }

  method CompleteGoal(db: Database, goalId: int, walletId: int, today: string)
    requires db.Valid()
    modifies db
    ensures db.Valid()
    ensures db.Snap() == Completed(old(db.Snap()), goalId, walletId, today)
  {
    var goal := Find(db.goals, goalId);
    if goal.None? {
      return;
    }
    var wallet := Find(db.wallets, walletId);
    if wallet.None? {
      return;
    }
    db.wallets := Update(db.wallets, walletId, Debit(wallet.value, goal.value.amountToReach));
    db.expenses := Insert(db.expenses, GoalExpense(goal.value, walletId, today));
    DeleteKeepsValid(db.goals, goalId);
    db.goals := Delete(db.goals, goalId);
  }

  // ---------------------------------------------------------------------
  // filter_expenses_by_toggle

  /** `xs` is `ys` with some elements left out, order kept. */
  predicate Subsequence<T(==)>(xs: seq<T>, ys: seq<T>)
    decreases |ys|
  {
    xs == [] || (ys != [] && ((xs[0] == ys[0] && Subsequence(xs[1..], ys[1..])) || Subsequence(xs, ys[1..])))
  }

  /** The ids of the variable (type 0) categories. */
  function VariableCategoryIds(categories: Rows<Category>): (ids: set<nat>)
    ensures forall i :: 0 <= i < |categories| ==> (categories[i].id in ids <== categories[i].data.kind == 0)
    ensures forall id :: id in ids ==> exists i :: 0 <= i < |categories| && categories[i].id == id && categories[i].data.kind == 0
  {
    set i | 0 <= i < |categories| && categories[i].data.kind == 0 :: categories[i].id
  }

  predicate KeepExpense(e: Row<Expense>, valid: set<nat>) {
    e.data.categoryId.Some? && e.data.categoryId.value >= 0 && e.data.categoryId.value as nat in valid
  }

  function KeepOnly(expenses: seq<Row<Expense>>, valid: set<nat>): (r: seq<Row<Expense>>)
    ensures Subsequence(r, expenses)
    ensures forall e :: e in r ==> e in expenses && KeepExpense(e, valid)
    ensures forall e :: e in expenses && KeepExpense(e, valid) ==> e in r
  {
    if expenses == [] then []
    else if KeepExpense(expenses[0], valid) then [expenses[0]] + KeepOnly(expenses[1..], valid)
    else KeepOnly(expenses[1..], valid)
  }

  /**
   * `filter_expenses_by_toggle`: toggle 0 returns the list as given; any
   * other toggle keeps, in order, exactly the expenses whose category is a
   * variable (type 0) category.
   */
  function FilterByToggle(expenses: seq<Row<Expense>>, categories: Rows<Category>, toggle: int): (r: seq<Row<Expense>>)
    ensures toggle == 0 ==> r == expenses
    ensures Subsequence(r, expenses)
    ensures toggle != 0 ==> forall e :: e in r <==> e in expenses && KeepExpense(e, VariableCategoryIds(categories))
  {
    if toggle == 0 then
      SubsequenceRefl(expenses);
      expenses
    else KeepOnly(expenses, VariableCategoryIds(categories))
  }

  lemma {:induction false} SubsequenceRefl<T>(xs: seq<T>)
    ensures Subsequence(xs, xs)
  {
    if xs != [] {
      SubsequenceRefl(xs[1..]);
    }
  }

  // ---------------------------------------------------------------------
  // generate_month_options

  /** The month before `(year, month)`. */
  function PrevMonth(ym: (int, int)): (int, int) {
    if ym.1 == 1 then (ym.0 - 1, 12) else (ym.0, ym.1 - 1)
  }

  /**
   * `generate_month_options` as written: entry i is
   * `(year - (month - i - 1) // 12, (month - i - 1) % 12 + 1)`. Python's
   * `//` and `%` floor, which for the positive divisor 12 is Dafny's `/`
   * and `%`. The month part steps back one month at a time, but crossing
   * January the year goes up instead of down.
   */
  function MonthOptionsAsWritten(n: int, year: int, month: int): (r: seq<(int, int)>)
    ensures |r| == if n < 0 then 0 else n
    ensures forall i :: 0 <= i < |r| ==> 1 <= r[i].1 <= 12
    ensures |r| > 0 && 1 <= month <= 12 ==> r[0] == (year, month)
  {
    var k := if n < 0 then 0 else n;
    seq(k, i requires 0 <= i < k => (year - (month - i - 1) / 12, (month - i - 1) % 12 + 1))
  }

  /** From January the second entry is December of the following year, not of the previous one. */
  lemma MonthOptionsJanuary(year: int)
    ensures MonthOptionsAsWritten(2, year, 1)[1] == (year + 1, 12)
    ensures PrevMonth(MonthOptionsAsWritten(2, year, 1)[0]) == (year - 1, 12)
  {
    assert (1 - 1 - 1) / 12 == -1;
    assert (1 - 1 - 1) % 12 == 11;
  }

  /** The month list the function's name promises: n months, starting now, each one month before the last. */
  function MonthOptions(n: int, year: int, month: int): (r: seq<(int, int)>)
    requires 1 <= month <= 12
    ensures |r| == if n < 0 then 0 else n
    ensures |r| > 0 ==> r[0] == (year, month)
    ensures forall i :: 0 <= i < |r| ==> 1 <= r[i].1 <= 12
    ensures forall i :: 0 <= i < |r| - 1 ==> r[i + 1] == PrevMonth(r[i])
  {
    var k := if n < 0 then 0 else n;
    var r := seq(k, i requires 0 <= i < k => (year + (month - i - 1) / 12, (month - i - 1) % 12 + 1));
    assert forall i :: 0 <= i < |r| - 1 ==> r[i + 1] == PrevMonth(r[i]) by {
      forall i | 0 <= i < |r| - 1 ensures r[i + 1] == PrevMonth(r[i]) {
        MonthStep(month - i - 1);
      }
    }
    r
  }

  lemma MonthStep(m: int)
    ensures m % 12 == 0 ==> (m - 1) / 12 == m / 12 - 1 && (m - 1) % 12 == 11
    ensures m % 12 != 0 ==> (m - 1) / 12 == m / 12 && (m - 1) % 12 == m % 12 - 1
  {
    var q, r := m / 12, m % 12;
    assert m == 12 * q + r && 0 <= r < 12;
    if r == 0 {
      assert m - 1 == 12 * (q - 1) + 11;
    } else {
      assert m - 1 == 12 * q + (r - 1);
    }
  }

  // ---------------------------------------------------------------------
  // order_by (wallets)

  /** The sort key of each `order_by` mode: currency for 2, amount high to low for 3, id otherwise. */
  function WalletOrder(mode: int): (Row<Wallet>, Row<Wallet>) -> bool {
    if mode == 2 then (a: Row<Wallet>, b: Row<Wallet>) => LexLe(a.data.currency, b.data.currency)
    else if mode == 3 then (a: Row<Wallet>, b: Row<Wallet>) => a.data.amount >= b.data.amount
    else (a: Row<Wallet>, b: Row<Wallet>) => a.id <= b.id
  }

  lemma WalletOrderPreorder(mode: int)
    ensures TotalPreorder(WalletOrder(mode))
  {
    var le := WalletOrder(mode);
    if mode == 2 {
      forall a: Row<Wallet>, b: Row<Wallet> ensures le(a, b) || le(b, a) {
        LexLeTotal(a.data.currency, b.data.currency);
      }
      forall a: Row<Wallet>, b: Row<Wallet>, c: Row<Wallet> | le(a, b) && le(b, c) ensures le(a, c) {
        LexLeTransitive(a.data.currency, b.data.currency, c.data.currency);
      }
    }
  }

  /** `order_by`: the wallets, all of them, sorted by the mode's key. */
  function OrderWallets(wallets: Rows<Wallet>, mode: int): (r: Rows<Wallet>)
    ensures multiset(r) == multiset(wallets) && |r| == |wallets|
    ensures SortedBy(r, WalletOrder(mode))
  {
    WalletOrderPreorder(mode);
    SortBy(wallets, WalletOrder(mode))
  }

  /**
   * `sorted` is stable, also with `reverse=True`: wallets tied under the mode's
   * key (two EUR wallets under mode 2, two equal balances under mode 3) keep
   * their table order.
   */
  lemma OrderWalletsStable(wallets: Rows<Wallet>, mode: int, w: Row<Wallet>)
    ensures Ties(OrderWallets(wallets, mode), WalletOrder(mode), w) == Ties(wallets, WalletOrder(mode), w)
  {
    WalletOrderPreorder(mode);
    SortByStable(wallets, WalletOrder(mode), w);
  }

  // ---------------------------------------------------------------------
  // calc_networth

  /** The balance held in `currency`, summed over the wallets. */
  function SumIn(rows: Rows<Wallet>, currency: string): real {
    if rows == [] then 0.0
    else
      var n := |rows| - 1;
      SumIn(rows[..n], currency) + (if rows[n].data.currency == currency then rows[n].data.amount else 0.0)
  }

  /** `totals[c] = totals.get(c, 0) + x` */
  function AddTo(m: map<string, real>, c: string, x: real): map<string, real> {
    m[c := (if c in m then m[c] else 0.0) + x]
  }

  /** The per-currency totals: one entry per currency some wallet holds, each the sum of that currency's balances. */
  function Totals(rows: Rows<Wallet>): (m: map<string, real>)
    ensures forall c :: c in m <==> exists i :: 0 <= i < |rows| && rows[i].data.currency == c
    ensures forall c :: c in m ==> m[c] == SumIn(rows, c)
  {
    if rows == [] then map[]
    else
      var n := |rows| - 1;
      var prev := Totals(rows[..n]);
      var c := rows[n].data.currency;
      var m := AddTo(prev, c, rows[n].data.amount);
      assert forall d :: d !in prev ==> SumIn(rows[..n], d) == 0.0 by {
        forall d | d !in prev ensures SumIn(rows[..n], d) == 0.0 {
          SumInAbsent(rows[..n], d);
        }
      }
      assert forall i :: 0 <= i < n ==> rows[..n][i] == rows[i];
      m
  }

  lemma {:induction false} SumInAbsent(rows: Rows<Wallet>, currency: string)
    requires forall i :: 0 <= i < |rows| ==> rows[i].data.currency != currency
    ensures SumIn(rows, currency) == 0.0
  {
    if rows != [] {
      var n := |rows| - 1;
      assert forall i :: 0 <= i < n ==> rows[..n][i] == rows[i];
      SumInAbsent(rows[..n], currency);
    }
  }

  /** `calc_networth`: mode 1 gives the per-currency totals; every other mode is refused. */
  method CalcNetworth(wallets: Rows<Wallet>, mode: int) returns (r: Result<map<string, real>>)
    ensures mode != 1 <==> r.Err?
    ensures r.Ok? ==> r.value == Totals(wallets)
  {
    if mode != 1 {
      return Err(ValueError("Invalid mode. Use 1 for raw by currency, 2 for converted net worth."));
    }
    var totals: map<string, real> := map[];
    var i := 0;
    while i < |wallets|
      invariant 0 <= i <= |wallets|
      invariant totals == Totals(wallets[..i])
    {
      totals := AddTo(totals, wallets[i].data.currency, wallets[i].data.amount);
      assert wallets[..i + 1][..i] == wallets[..i];
      i := i + 1;
    }
    assert wallets[..i] == wallets;
    r := Ok(totals);
  }

  // ---------------------------------------------------------------------
  // ordeBy (goals)

  /** The sort key of each goal ordering: id, id, amount to reach (desc), amount reached (desc), name ignoring ASCII case. */
  function GoalOrder(option: int): (Row<Goal>, Row<Goal>) -> bool {
    match option
    case 3 => (a: Row<Goal>, b: Row<Goal>) => a.data.amountToReach >= b.data.amountToReach
    case 4 => (a: Row<Goal>, b: Row<Goal>) => a.data.amountReached >= b.data.amountReached
    case 5 => (a: Row<Goal>, b: Row<Goal>) => LexLe(Lower(a.data.name), Lower(b.data.name))
    case _ => (a: Row<Goal>, b: Row<Goal>) => a.id <= b.id
  }

  lemma GoalOrderPreorder(option: int)
    ensures TotalPreorder(GoalOrder(option))
  {
    var le := GoalOrder(option);
    if option == 5 {
      forall a: Row<Goal>, b: Row<Goal> ensures le(a, b) || le(b, a) {
        LexLeTotal(Lower(a.data.name), Lower(b.data.name));
      }
      forall a: Row<Goal>, b: Row<Goal>, c: Row<Goal> | le(a, b) && le(b, c) ensures le(a, c) {
        LexLeTransitive(Lower(a.data.name), Lower(b.data.name), Lower(c.data.name));
      }
    }
  }

  /** The goals that are not completed (`WHERE completed = 0`), in table order. */
  function Uncompleted(goals: Rows<Goal>): (r: Rows<Goal>)
    ensures Subsequence(r, goals)
    ensures forall g :: g in r <==> g in goals && !g.data.completed
  {
    if goals == [] then []
    else if !goals[0].data.completed then
      var rest := Uncompleted(goals[1..]);
      assert ([goals[0]] + rest)[1..] == rest;
      [goals[0]] + rest
    else Uncompleted(goals[1..])
  }

  /**
   * `ordeBy` for goals: options 1..5; option 2 lists only the uncompleted
   * goals, the others list every goal; any other option is refused.
   */
  function OrderGoals(goals: Rows<Goal>, option: int): (r: Result<Rows<Goal>>)
    ensures r.Err? <==> !(1 <= option <= 5)
    ensures r.Ok? && option == 2 ==> multiset(r.value) == multiset(Uncompleted(goals))
    ensures r.Ok? && option != 2 ==> multiset(r.value) == multiset(goals)
    ensures r.Ok? ==> SortedBy(r.value, GoalOrder(option))
  {
    if !(1 <= option <= 5) then Err(ValueError("Invalid option. Choose between 1 and 5."))
    else
      GoalOrderPreorder(option);
      Ok(SortBy(if option == 2 then Uncompleted(goals) else goals, GoalOrder(option)))
  }
}
