/**
 * `apply_import`: writing normalized import rows into the current store
 * through the CRUD layer.
 *
 * The five tables are merged in a fixed order: categories (reused by
 * name), wallets (reused by name and currency), goals and expenses (always
 * inserted, their foreign keys re-mapped through the id maps built by the
 * first two passes), then the first profile row (upserted).  A row whose
 * insert raises is recorded as an error and the merge goes on.
 *
 * Each pass is specified by a fold over the rows (`Pass`) of one step
 * function (`CategoryStep`, ...) on a `Progress`: the store
 * plus the merge's own bookkeeping (the id maps, the inserted counters and
 * the error list).  The methods run the same loops through the CRUD
 * methods and are proved to produce exactly that fold.
 */
module ImportApply {
  import opened Wrappers
  import opened Text
  import opened Values
  import JsonText
  import IS = ImportSchema
  import opened Store
  import Categories
  import Wallets
  import Goals
  import Expenses
  import Profiles

  // ---------------------------------------------------------------------
  // Reading the fields of an imported row

  /** `rows_by_table.get(t, [])` */
  function RowsFor(tables: IS.Tables, t: IS.Table): seq<Record> {
    if t in tables then tables[t] else []
  }

  /** `r.get(k)`: None when the row lacks the key. */
  function Field(r: Record, k: string): Value {
    match Get(r, k)
    case Some(v) => v
    case None => VNone
  }

  /** `(r.get("name") or "").strip()` for the text (or missing) names the schema coercers produce. */
  function NameText(v: Value): string {
    if v.VStr? then Strip(v.s) else ""
  }

  /** `str(r.get("currency") or "EUR")` */
  function CurrencyText(v: Value): string {
    if Truthy(v) then Str(v) else "EUR"
  }

  /** `float(x)`; None where Python raises. */
  function FloatOf(v: Value): Option<real> {
    match v
    case VNone => None
    case VBool(b) => Some(if b then 1.0 else 0.0)
    case VInt(i) => Some(i as real)
    case VFloat(d) => Some(ToReal(d))
    case VStr(s) => (match ParseFloat(Strip(s)) case Some(d) => Some(ToReal(d)) case None => None)
    case VList(_) => None
  }

  /** `float(x or 0.0)`: a falsy amount is zero. */
  function Money(v: Value): (r: Option<real>)
    ensures !Truthy(v) ==> r == Some(0.0)
  {
    if Truthy(v) then FloatOf(v) else Some(0.0)
  }

  /** `int(x)`; None where Python raises. */
  function IntOf(v: Value): Option<int> {
    match v
    case VNone => None
    case VBool(b) => Some(if b then 1 else 0)
    case VInt(i) => Some(i)
    case VFloat(d) => Some(Truncate(d))
    case VStr(s) => ParseInt(Strip(s))
    case VList(_) => None
  }

  /** `int(r.get("type") if r.get("type") is not None else 0)` */
  function KindOf(v: Value): Option<int> {
    if v.VNone? then Some(0) else IntOf(v)
  }

  /** The `limit_amount` the REAL column receives. */
  function LimitOf(v: Value): Option<real> {
    if v.VNone? then None else FloatOf(v)
  }

  /** A nullable text column: the value as text, NULL for None. */
  function OptText(v: Value): Option<string> {
    if v.VNone? then None else Some(Str(v))
  }

  /** `m.get(k)` on an id map. */
  function Lookup(m: map<Value, Option<int>>, k: Value): Option<int> {
    if k in m then m[k] else None
  }

  /** The text of the error entry for a failed insert (the exception's message is not modelled). */
  function AddError(table: string, name: string): string {
    table + " add '" + name + "'"
  }

  // ---------------------------------------------------------------------
  // The merge's bookkeeping

  /** `inserted`: one counter per table. */
  datatype Counts = Counts(category: nat, wallet: nat, goal: nat, expense: nat, profile: nat)

  /** The id maps (old id to new id), the counters and the error list. */
  datatype Book = Book(
    categoryMap: map<Value, Option<int>>, walletMap: map<Value, Option<int>>,
    inserted: Counts, errors: seq<string>)

  datatype Progress = Progress(s: Snapshot, book: Book)

  function EmptyBook(): Book {
    Book(map[], map[], Counts(0, 0, 0, 0, 0), [])
  }

  /** `inserted[t] += 1` */
  function Counted(c: Counts, t: IS.Table): Counts {
    match t
    case Category => c.(category := c.category + 1)
    case Wallet => c.(wallet := c.wallet + 1)
    case Goal => c.(goal := c.goal + 1)
    case Expense => c.(expense := c.expense + 1)
    case Profile => c.(profile := 1)
  }

  function Failed(b: Book, table: string, name: string): Book {
    b.(errors := b.errors + [AddError(table, name)])
  }

  // ---------------------------------------------------------------------
  // 1) Categories

  /** A category row that ends up in the store: a name and a usable `type`. */
  predicate CategoryImportable(r: Record) {
    NameText(Field(r, "name")) != "" && KindOf(Field(r, "type")).Some?
  }

  /** The inner `try` around `add_category`. */
  function CategoryAdded(p: Progress, r: Record, name: string): (q: Progress)
    requires ValidSnapshot(p.s)
    ensures ValidSnapshot(q.s) && q.s == p.s.(categories := q.s.categories)
    ensures p.s.categories <= q.s.categories
    ensures q.book.categoryMap == p.book.categoryMap && q.book.walletMap == p.book.walletMap
  {
    match KindOf(Field(r, "type"))
    case None => Progress(p.s, Failed(p.book, "category", name))
    case Some(kind) =>
      var c := Category(name, LimitOf(Field(r, "limit_amount")), kind, CurrencyText(Field(r, "currency")));
      match Categories.Added(p.s.categories, c)
      case Ok(rows) =>
        Categories.AddedKeepsUnique(p.s.categories, c);
        Progress(p.s.(categories := rows), p.book.(inserted := Counted(p.book.inserted, IS.Category)))
      case Err(_) => Progress(p.s, Failed(p.book, "category", name))
  }

  /** One iteration of the category loop: reuse the category of that name or add it, then map the row's old id to the id the name now has. */
  function CategoryStep(p: Progress, r: Record): (q: Progress)
    requires ValidSnapshot(p.s)
    ensures ValidSnapshot(q.s) && q.s == p.s.(categories := q.s.categories)
    ensures p.s.categories <= q.s.categories && q.book.walletMap == p.book.walletMap
    ensures NameText(Field(r, "name")) == "" ==> q == p
    ensures NameText(Field(r, "name")) != "" ==>
      q.book.categoryMap == p.book.categoryMap[Field(r, "id") := Categories.IdByName(q.s.categories, NameText(Field(r, "name")))]
  {
    var name := NameText(Field(r, "name"));
    if name == "" then p
    else
      var added := if Categories.IdByName(p.s.categories, name).Some? then p else CategoryAdded(p, r, name);
      Progress(added.s, added.book.(categoryMap :=
        added.book.categoryMap[Field(r, "id") := Categories.IdByName(added.s.categories, name)]))
  }

  // ---------------------------------------------------------------------
  // 2) Wallets

  predicate SameWallet(w: Wallet, name: string, currency: string) {
    w.name == name && w.currency == currency
  }

  /** `SELECT id FROM wallet WHERE name = ? AND currency = ? ORDER BY id DESC LIMIT 1` */
  function LatestWallet(rows: Rows<Wallet>, name: string, currency: string): (r: Option<nat>)
    ensures r.None? <==> forall i :: 0 <= i < |rows| ==> !SameWallet(rows[i].data, name, currency)
    ensures r.Some? ==> exists i :: 0 <= i < |rows| && rows[i].id == r.value && SameWallet(rows[i].data, name, currency)
                                    && (forall j :: i < j < |rows| ==> !SameWallet(rows[j].data, name, currency))
    decreases |rows|
  {
    if rows == [] then None
    else if SameWallet(rows[|rows| - 1].data, name, currency) then Some(rows[|rows| - 1].id)
    else LatestWallet(rows[..|rows| - 1], name, currency)
  }

  /** A wallet row that ends up in the store: a name and a usable amount. */
  predicate WalletImportable(r: Record) {
    NameText(Field(r, "name")) != "" && Money(Field(r, "amount")).Some?
  }

  /** The inner `try` around `add_wallet`. */
  function WalletAdded(p: Progress, r: Record, name: string, currency: string): (q: Progress)
    requires ValidSnapshot(p.s)
    ensures ValidSnapshot(q.s) && q.s == p.s.(wallets := q.s.wallets)
    ensures p.s.wallets <= q.s.wallets
    ensures q.book.categoryMap == p.book.categoryMap && q.book.walletMap == p.book.walletMap
  {
    match Money(Field(r, "amount"))
    case None => Progress(p.s, Failed(p.book, "wallet", name))
    case Some(amount) =>
      Progress(p.s.(wallets := Insert(p.s.wallets, Wallet(name, amount, currency))),
               p.book.(inserted := Counted(p.book.inserted, IS.Wallet)))
  }

  /** One iteration of the wallet loop: reuse the newest wallet with that name and currency or add one, then map the old id. */
  function WalletStep(p: Progress, r: Record): (q: Progress)
    requires ValidSnapshot(p.s)
    ensures ValidSnapshot(q.s) && q.s == p.s.(wallets := q.s.wallets)
    ensures p.s.wallets <= q.s.wallets && q.book.categoryMap == p.book.categoryMap
    ensures NameText(Field(r, "name")) == "" ==> q == p
    ensures NameText(Field(r, "name")) != "" ==>
      q.book.walletMap == p.book.walletMap[Field(r, "id") :=
        LatestWallet(q.s.wallets, NameText(Field(r, "name")), CurrencyText(Field(r, "currency")))]
  {
    var name := NameText(Field(r, "name"));
    if name == "" then p
    else
      var currency := CurrencyText(Field(r, "currency"));
      var added := if LatestWallet(p.s.wallets, name, currency).Some? then p else WalletAdded(p, r, name, currency);
      Progress(added.s, added.book.(walletMap :=
        added.book.walletMap[Field(r, "id") := LatestWallet(added.s.wallets, name, currency)]))
  }

  // ---------------------------------------------------------------------
  // 3) Goals

  /** A goal row that is inserted: a name and two usable amounts. */
  predicate GoalImportable(r: Record) {
    NameText(Field(r, "name")) != ""
    && Money(Field(r, "amount_to_reach")).Some? && Money(Field(r, "amount_reached")).Some?
  }

  /** The goal `add_goal` receives for an importable row: category re-mapped, `completed` and `end_date` left to their defaults. */
  function ImportedGoal(r: Record, categoryMap: map<Value, Option<int>>): Goal
    requires GoalImportable(r)
  {
    Goal(NameText(Field(r, "name")), Money(Field(r, "amount_to_reach")).value, Money(Field(r, "amount_reached")).value,
         Lookup(categoryMap, Field(r, "category_id")), CurrencyText(Field(r, "currency")), false,
         OptText(Field(r, "start_date")), None)
  }

  /** One iteration of the goal loop: every goal with a name is inserted, whatever the store holds. */
  function GoalStep(p: Progress, r: Record): (q: Progress)
    requires ValidSnapshot(p.s)
    ensures ValidSnapshot(q.s) && q.s == p.s.(goals := q.s.goals)
    ensures q.book.categoryMap == p.book.categoryMap && q.book.walletMap == p.book.walletMap
  {
    var name := NameText(Field(r, "name"));
    if name == "" then p
    else if GoalImportable(r) then
      Progress(p.s.(goals := Insert(p.s.goals, ImportedGoal(r, p.book.categoryMap))),
               p.book.(inserted := Counted(p.book.inserted, IS.Goal)))
    else Progress(p.s, Failed(p.book, "goal", name))
  }

  // ---------------------------------------------------------------------
  // 4) Expenses

  /** The rows the expense loop does not skip: a name, a cost and a truthy date. */
  predicate ExpenseValid(r: Record) {
    NameText(Field(r, "name")) != "" && !Field(r, "cost").VNone? && Truthy(Field(r, "date"))
  }

  /** An expense row that is inserted. */
  predicate ExpenseImportable(r: Record) {
    ExpenseValid(r) && FloatOf(Field(r, "cost")).Some?
  }

  /** The expense `add_expense` receives: both foreign keys re-mapped, the description kept. */
  function ImportedExpense(r: Record, b: Book): Expense
    requires ExpenseImportable(r)
  {
    Expense(NameText(Field(r, "name")), Lookup(b.categoryMap, Field(r, "category_id")),
            FloatOf(Field(r, "cost")).value, Str(Field(r, "date")), OptText(Field(r, "description")),
            Lookup(b.walletMap, Field(r, "wallet_id")))
  }

  /** One iteration of the expense loop: invalid rows are skipped without an error entry. */
  function ExpenseStep(p: Progress, r: Record): (q: Progress)
    requires ValidSnapshot(p.s)
    ensures ValidSnapshot(q.s) && q.s == p.s.(expenses := q.s.expenses)
    ensures q.book.categoryMap == p.book.categoryMap && q.book.walletMap == p.book.walletMap
    ensures !ExpenseValid(r) ==> q == p
  {
    if !ExpenseValid(r) then p
    else if ExpenseImportable(r) then
      Progress(p.s.(expenses := Insert(p.s.expenses, ImportedExpense(r, p.book))),
               p.book.(inserted := Counted(p.book.inserted, IS.Expense)))
    else Progress(p.s, Failed(p.book, "expense", NameText(Field(r, "name"))))
  }

  // ---------------------------------------------------------------------
  // 5) Profile

  function StrEach(items: seq<Value>): (r: seq<string>)
    ensures |r| == |items| && forall i :: 0 <= i < |items| ==> r[i] == Str(items[i])
  {
    seq(|items|, i requires 0 <= i < |items| => Str(items[i]))
  }

  /** `skip_months_list`: a JSON text holding a list, or a list, each item as `str`; otherwise None. */
  function SkipMonthsList(v: Value): Option<seq<string>> {
    match v
    case VStr(s) => (match JsonText.Decode(s) case Some(VList(items)) => Some(StrEach(items)) case _ => None)
    case VList(items) => Some(StrEach(items))
    case _ => None
  }

  /** `float(monthly_budget)` inside `upsert_profile`; None where it raises. */
  function DecimalOf(v: Value): Option<Decimal> {
    match v
    case VBool(b) => Some(Decimal(if b then 1 else 0, 0))
    case VInt(i) => Some(Decimal(i, 0))
    case VFloat(d) => Some(d)
    case VStr(s) => ParseFloat(Strip(s))
    case _ => None
  }

  /** An integer column argument: the integer, None otherwise. */
  function IntArg(v: Value): Option<int> {
    if v.VInt? then Some(v.i) else None
  }

  /** `wallet_map.get(raw, raw)`: the re-mapped wallet when the old id is in the map, else the old id itself. */
  function MainWallet(walletMap: map<Value, Option<int>>, raw: Value): Value {
    if raw in walletMap then (match walletMap[raw] case Some(id) => VInt(id) case None => VNone) else raw
  }

  /** The arguments `upsert_profile` receives for the first profile row; None when the budget cannot be converted (the call raises). */
  function ProfileArgsOf(r: Record, walletMap: map<Value, Option<int>>): (a: Option<Profiles.ProfileArgs>)
    ensures a.Some? ==> a.value.mainWalletId == IntArg(MainWallet(walletMap, Field(r, "main_wallet_id")))
    ensures a.Some? ==> a.value.skipMonths == SkipMonthsList(Field(r, "skip_months"))
  {
    var budget := Field(r, "monthly_budget");
    if !budget.VNone? && DecimalOf(budget).None? then None
    else
      Some(Profiles.ProfileArgs(
        OptText(Field(r, "name")), OptText(Field(r, "photo_path")),
        if budget.VNone? then None else DecimalOf(budget),
        IntArg(MainWallet(walletMap, Field(r, "main_wallet_id"))),
        SkipMonthsList(Field(r, "skip_months")), OptText(Field(r, "password_hash")),
        IntArg(Field(r, "theme"))))
  }

  /** The `try` around `upsert_profile`: a failure leaves everything as it was. */
  function ProfileUpserted(p: Progress, a: Option<Profiles.ProfileArgs>, now: string): (q: Progress)
    requires ValidSnapshot(p.s)
    ensures ValidSnapshot(q.s) && q.s == p.s.(profiles := q.s.profiles)
    ensures q.book.inserted.(profile := p.book.inserted.profile) == p.book.inserted
    ensures q.book.categoryMap == p.book.categoryMap && q.book.walletMap == p.book.walletMap
    ensures p.s.profiles != [] ==> |q.s.profiles| == |p.s.profiles|
    ensures p.s.profiles == [] ==>
      (q.s.profiles == [] && q.book.inserted.profile == p.book.inserted.profile)
      || (|q.s.profiles| == 1 && q.book.inserted.profile == 1)
    ensures q.book.inserted.profile == p.book.inserted.profile || q.book.inserted.profile == 1
  {
    if a.None? then p
    else
      var r := Profiles.Upserted(p.s, a.value, now);
      if r.Err? then p
      else Progress(r.value, p.book.(inserted := p.book.inserted.(profile := 1)))
  }

  /** Step 5: only the first profile row is used, and a failed upsert is ignored. */
  function ProfileStep(p: Progress, rows: seq<Record>, now: string): (q: Progress)
    requires ValidSnapshot(p.s)
    ensures ValidSnapshot(q.s) && q.s == p.s.(profiles := q.s.profiles)
    ensures q.book.inserted.(profile := p.book.inserted.profile) == p.book.inserted
    ensures p.s.profiles != [] ==> |q.s.profiles| == |p.s.profiles|
    ensures p.s.profiles == [] ==>
      (q.s.profiles == [] && q.book.inserted.profile == p.book.inserted.profile)
      || (|q.s.profiles| == 1 && q.book.inserted.profile == 1)
    ensures q.book.inserted.profile == p.book.inserted.profile || q.book.inserted.profile == 1
  {
    if rows == [] then p else ProfileUpserted(p, ProfileArgsOf(rows[0], p.book.walletMap), now)
  }

  // ---------------------------------------------------------------------
  // The four row loops

  datatype Loop = CategoryLoop | WalletLoop | GoalLoop | ExpenseLoop

  /** What one loop may change: its own table and, for the first two, its own id map. */
  predicate Framed(k: Loop, p: Progress, q: Progress) {
    q.s.profiles == p.s.profiles && q.s.profileColumns == p.s.profileColumns && q.s.tables == p.s.tables
    && (k == CategoryLoop || (q.s.categories == p.s.categories && q.book.categoryMap == p.book.categoryMap))
    && (k == WalletLoop || (q.s.wallets == p.s.wallets && q.book.walletMap == p.book.walletMap))
    && (k == GoalLoop || q.s.goals == p.s.goals)
    && (k == ExpenseLoop || q.s.expenses == p.s.expenses)
    && p.s.categories <= q.s.categories && p.s.wallets <= q.s.wallets
    && |p.s.goals| <= |q.s.goals| && |p.s.expenses| <= |q.s.expenses|
  }

  function Step(k: Loop, p: Progress, r: Record): (q: Progress)
    requires ValidSnapshot(p.s)
    ensures ValidSnapshot(q.s) && Framed(k, p, q)
  {
    match k
    case CategoryLoop => CategoryStep(p, r)
    case WalletLoop => WalletStep(p, r)
    case GoalLoop => GoalStep(p, r)
    case ExpenseLoop => ExpenseStep(p, r)
  }

  /** The loop `for r in rows` of one pass, as a fold from the left. */
  function Pass(k: Loop, p: Progress, rows: seq<Record>): (q: Progress)
    requires ValidSnapshot(p.s)
    ensures ValidSnapshot(q.s) && Framed(k, p, q)
    decreases |rows|
  {
    if rows == [] then p else Step(k, Pass(k, p, rows[..|rows| - 1]), rows[|rows| - 1])
  }

  lemma PassSnoc(k: Loop, p: Progress, rows: seq<Record>, i: nat)
    requires ValidSnapshot(p.s) && i < |rows|
    ensures Pass(k, p, rows[..i + 1]) == Step(k, Pass(k, p, rows[..i]), rows[i])
  {
    assert rows[..i + 1][..i] == rows[..i];
  }

  // ---------------------------------------------------------------------
  // The whole merge

  /** The store after each loop, in the order `apply_import` runs them. */
  function AfterCategories(s: Snapshot, tables: IS.Tables): Progress
    requires ValidSnapshot(s)
  {
    Pass(CategoryLoop, Progress(s, EmptyBook()), RowsFor(tables, IS.Category))
  }

  function AfterWallets(s: Snapshot, tables: IS.Tables): Progress
    requires ValidSnapshot(s)
  {
    Pass(WalletLoop, AfterCategories(s, tables), RowsFor(tables, IS.Wallet))
  }

  function AfterGoals(s: Snapshot, tables: IS.Tables): Progress
    requires ValidSnapshot(s)
  {
    Pass(GoalLoop, AfterWallets(s, tables), RowsFor(tables, IS.Goal))
  }

  function Merged(s: Snapshot, tables: IS.Tables): (q: Progress)
    requires ValidSnapshot(s)
    ensures ValidSnapshot(q.s) && q.s.profiles == s.profiles
    ensures q.s.profileColumns == s.profileColumns && q.s.tables == s.tables
  {
    Pass(ExpenseLoop, AfterGoals(s, tables), RowsFor(tables, IS.Expense))
  }

  /** Which loop leaves which table as it found it. */
  lemma MergedTables(s: Snapshot, tables: IS.Tables)
    requires ValidSnapshot(s)
    ensures Merged(s, tables).s.categories == AfterCategories(s, tables).s.categories
    ensures Merged(s, tables).s.wallets == AfterWallets(s, tables).s.wallets
    ensures Merged(s, tables).s.goals == AfterGoals(s, tables).s.goals
    ensures AfterGoals(s, tables).s.expenses == s.expenses
    ensures AfterWallets(s, tables).s.goals == s.goals
  {
  }

  /** What `apply_import` does to the store and its bookkeeping: the four loops, then the profile. */
  function Applied(s: Snapshot, tables: IS.Tables, now: string): (q: Progress)
    requires ValidSnapshot(s)
    ensures ValidSnapshot(q.s) && q.s.profileColumns == s.profileColumns && q.s.tables == s.tables
  {
    ProfileStep(Merged(s, tables), RowsFor(tables, IS.Profile), now)
  }

  // ---------------------------------------------------------------------
  // What the merge promises

  /** The counters agree with the rows each table gained. */
  predicate Tallied(p: Progress, q: Progress) {
    |q.s.categories| + p.book.inserted.category == |p.s.categories| + q.book.inserted.category
    && |q.s.wallets| + p.book.inserted.wallet == |p.s.wallets| + q.book.inserted.wallet
    && |q.s.goals| + p.book.inserted.goal == |p.s.goals| + q.book.inserted.goal
    && |q.s.expenses| + p.book.inserted.expense == |p.s.expenses| + q.book.inserted.expense
    && q.book.inserted.profile == p.book.inserted.profile
  }

  lemma CategoryStepTallied(p: Progress, r: Record)
    requires ValidSnapshot(p.s)
    ensures Tallied(p, CategoryStep(p, r))
  {
    var name := NameText(Field(r, "name"));
    if name == "" {
      assert CategoryStep(p, r) == p;
    } else {
      var added := if Categories.IdByName(p.s.categories, name).Some? then p else CategoryAdded(p, r, name);
      if Categories.IdByName(p.s.categories, name).None? {
        CategoryAddedTallied(p, r, name);
      }
      assert CategoryStep(p, r).s == added.s && CategoryStep(p, r).book.inserted == added.book.inserted;
    }
  }

  lemma CategoryAddedTallied(p: Progress, r: Record, name: string)
    requires ValidSnapshot(p.s)
    ensures Tallied(p, CategoryAdded(p, r, name))
  {
    var kind := KindOf(Field(r, "type"));
    if kind.None? {
      assert CategoryAdded(p, r, name) == Progress(p.s, Failed(p.book, "category", name));
    } else {
      var c := Category(name, LimitOf(Field(r, "limit_amount")), kind.value, CurrencyText(Field(r, "currency")));
      var a := Categories.Added(p.s.categories, c);
      if a.Ok? {
        assert CategoryAdded(p, r, name) == Progress(p.s.(categories := a.value), p.book.(inserted := Counted(p.book.inserted, IS.Category)));
      } else {
        assert CategoryAdded(p, r, name) == Progress(p.s, Failed(p.book, "category", name));
      }
    }
  }

  lemma WalletStepTallied(p: Progress, r: Record)
    requires ValidSnapshot(p.s)
    ensures Tallied(p, WalletStep(p, r))
  {
    var name := NameText(Field(r, "name"));
    if name == "" {
      assert WalletStep(p, r) == p;
    } else {
      var currency := CurrencyText(Field(r, "currency"));
      if LatestWallet(p.s.wallets, name, currency).Some? {
        assert WalletStep(p, r).s == p.s && WalletStep(p, r).book.inserted == p.book.inserted;
      } else {
        var added := WalletAdded(p, r, name, currency);
        assert WalletStep(p, r).s == added.s && WalletStep(p, r).book.inserted == added.book.inserted;
        match Money(Field(r, "amount"))
        case None =>
          assert added == Progress(p.s, Failed(p.book, "wallet", name));
        case Some(amount) =>
          assert added == Progress(p.s.(wallets := Insert(p.s.wallets, Wallet(name, amount, currency))),
                                   p.book.(inserted := Counted(p.book.inserted, IS.Wallet)));
      }
    }
  }

  lemma FailedTallied(p: Progress, table: string, name: string)
    ensures Tallied(p, Progress(p.s, Failed(p.book, table, name)))
  {
  }

  lemma GoalInsertTallied(p: Progress, g: Goal)
    requires ValidSnapshot(p.s)
    ensures Tallied(p, Progress(p.s.(goals := Insert(p.s.goals, g)), p.book.(inserted := Counted(p.book.inserted, IS.Goal))))
  {
  }

  lemma ExpenseInsertTallied(p: Progress, e: Expense)
    requires ValidSnapshot(p.s)
    ensures Tallied(p, Progress(p.s.(expenses := Insert(p.s.expenses, e)), p.book.(inserted := Counted(p.book.inserted, IS.Expense))))
  {
  }

  lemma GoalStepTallied(p: Progress, r: Record)
    requires ValidSnapshot(p.s)
    ensures Tallied(p, GoalStep(p, r))
  {
    var name := NameText(Field(r, "name"));
    if name == "" {
      assert GoalStep(p, r) == p;
    } else if GoalImportable(r) {
      var g := ImportedGoal(r, p.book.categoryMap);
      GoalInsertTallied(p, g);
      assert GoalStep(p, r) == Progress(p.s.(goals := Insert(p.s.goals, g)), p.book.(inserted := Counted(p.book.inserted, IS.Goal)));
    } else {
      FailedTallied(p, "goal", name);
      assert GoalStep(p, r) == Progress(p.s, Failed(p.book, "goal", name));
    }
  }

  lemma ExpenseStepTallied(p: Progress, r: Record)
    requires ValidSnapshot(p.s)
    ensures Tallied(p, ExpenseStep(p, r))
  {
    if !ExpenseValid(r) {
      assert ExpenseStep(p, r) == p;
    } else if ExpenseImportable(r) {
      var e := ImportedExpense(r, p.book);
      ExpenseInsertTallied(p, e);
      assert ExpenseStep(p, r) == Progress(p.s.(expenses := Insert(p.s.expenses, e)), p.book.(inserted := Counted(p.book.inserted, IS.Expense)));
    } else {
      FailedTallied(p, "expense", NameText(Field(r, "name")));
      assert ExpenseStep(p, r) == Progress(p.s, Failed(p.book, "expense", NameText(Field(r, "name"))));
    }
  }

  lemma StepTallied(k: Loop, p: Progress, r: Record)
    requires ValidSnapshot(p.s)
    ensures Tallied(p, Step(k, p, r))
  {
    match k
    case CategoryLoop => CategoryStepTallied(p, r);
    case WalletLoop => WalletStepTallied(p, r);
    case GoalLoop => GoalStepTallied(p, r);
    case ExpenseLoop => ExpenseStepTallied(p, r);
  }

  lemma {:induction false} PassTallied(k: Loop, p: Progress, rows: seq<Record>)
    requires ValidSnapshot(p.s)
    ensures Tallied(p, Pass(k, p, rows))
    decreases |rows|
  {
    if rows != [] {
      PassTallied(k, p, rows[..|rows| - 1]);
      StepTallied(k, Pass(k, p, rows[..|rows| - 1]), rows[|rows| - 1]);
    }
  }

  /** The summary the merge builds: each counter is the number of rows its table gained. */
  lemma InsertedCountsMatchRows(s: Snapshot, tables: IS.Tables, now: string)
    requires ValidSnapshot(s)
    ensures var q := Applied(s, tables, now);
      q.book.inserted.category == |q.s.categories| - |s.categories|
      && q.book.inserted.wallet == |q.s.wallets| - |s.wallets|
      && q.book.inserted.goal == |q.s.goals| - |s.goals|
      && q.book.inserted.expense == |q.s.expenses| - |s.expenses|
  {
    MergedTallied(s, tables);
  }

  /** The profile counter is 1 exactly when the upsert went through, and the profile table never gets a second row. */
  lemma ProfileCountedOnce(s: Snapshot, tables: IS.Tables, now: string)
    requires ValidSnapshot(s)
    ensures var q := Applied(s, tables, now);
      q.book.inserted.profile <= 1
      && (s.profiles == [] ==> |q.s.profiles| == q.book.inserted.profile)
      && (s.profiles != [] ==> |q.s.profiles| == |s.profiles|)
  {
    MergedTallied(s, tables);
  }

  lemma MergedTallied(s: Snapshot, tables: IS.Tables)
    requires ValidSnapshot(s)
    ensures Tallied(Progress(s, EmptyBook()), Merged(s, tables))
  {
    PassTallied(CategoryLoop, Progress(s, EmptyBook()), RowsFor(tables, IS.Category));
    PassTallied(WalletLoop, AfterCategories(s, tables), RowsFor(tables, IS.Wallet));
    PassTallied(GoalLoop, AfterWallets(s, tables), RowsFor(tables, IS.Goal));
    PassTallied(ExpenseLoop, AfterGoals(s, tables), RowsFor(tables, IS.Expense));
  }

  // -- de-duplication of categories and wallets

  /** Rows appended to a table keep every name it already had. */
  lemma IdByNameGrows(a: Rows<Category>, b: Rows<Category>, name: string)
    requires a <= b && Categories.IdByName(a, name).Some?
    ensures Categories.IdByName(b, name).Some?
  {
    var i :| 0 <= i < |a| && a[i].data.name == name;
    assert b[i] == a[i];
  }

  lemma LatestWalletGrows(a: Rows<Wallet>, b: Rows<Wallet>, name: string, currency: string)
    requires a <= b && LatestWallet(a, name, currency).Some?
    ensures LatestWallet(b, name, currency).Some?
  {
    var i :| 0 <= i < |a| && SameWallet(a[i].data, name, currency);
    assert b[i] == a[i];
  }

  /** After the category step, an importable row's name is in the table. */
  lemma CategoryStepFinds(p: Progress, r: Record)
    requires ValidSnapshot(p.s) && CategoryImportable(r)
    ensures Categories.IdByName(CategoryStep(p, r).s.categories, NameText(Field(r, "name"))).Some?
  {
    var name := NameText(Field(r, "name"));
    if Categories.IdByName(p.s.categories, name).None? {
      var c := Category(name, LimitOf(Field(r, "limit_amount")), KindOf(Field(r, "type")).value, CurrencyText(Field(r, "currency")));
      Categories.AddedKeepsUnique(p.s.categories, c);
    }
  }

  lemma WalletStepFinds(p: Progress, r: Record)
    requires ValidSnapshot(p.s) && WalletImportable(r)
    ensures LatestWallet(WalletStep(p, r).s.wallets, NameText(Field(r, "name")), CurrencyText(Field(r, "currency"))).Some?
  {
  }

  /** After the category loop every importable row's name is in the table. */
  lemma {:induction false} CategoriesPresent(p: Progress, rows: seq<Record>)
    requires ValidSnapshot(p.s)
    ensures forall i :: 0 <= i < |rows| && CategoryImportable(rows[i]) ==>
      Categories.IdByName(Pass(CategoryLoop, p, rows).s.categories, NameText(Field(rows[i], "name"))).Some?
    decreases |rows|
  {
    if rows != [] {
      var front := rows[..|rows| - 1];
      var mid := Pass(CategoryLoop, p, front);
      var q := Pass(CategoryLoop, p, rows);
      CategoriesPresent(p, front);
      forall i | 0 <= i < |rows| && CategoryImportable(rows[i])
        ensures Categories.IdByName(q.s.categories, NameText(Field(rows[i], "name"))).Some?
      {
        if i == |rows| - 1 {
          CategoryStepFinds(mid, rows[i]);
        } else {
          assert rows[i] == front[i];
          IdByNameGrows(mid.s.categories, q.s.categories, NameText(Field(rows[i], "name")));
        }
      }
    }
  }

  lemma {:induction false} WalletsPresent(p: Progress, rows: seq<Record>)
    requires ValidSnapshot(p.s)
    ensures forall i :: 0 <= i < |rows| && WalletImportable(rows[i]) ==>
      LatestWallet(Pass(WalletLoop, p, rows).s.wallets, NameText(Field(rows[i], "name")), CurrencyText(Field(rows[i], "currency"))).Some?
    decreases |rows|
  {
    if rows != [] {
      var front := rows[..|rows| - 1];
      var mid := Pass(WalletLoop, p, front);
      var q := Pass(WalletLoop, p, rows);
      WalletsPresent(p, front);
      forall i | 0 <= i < |rows| && WalletImportable(rows[i])
        ensures LatestWallet(q.s.wallets, NameText(Field(rows[i], "name")), CurrencyText(Field(rows[i], "currency"))).Some?
      {
        if i == |rows| - 1 {
          WalletStepFinds(mid, rows[i]);
        } else {
          assert rows[i] == front[i];
          LatestWalletGrows(mid.s.wallets, q.s.wallets, NameText(Field(rows[i], "name")), CurrencyText(Field(rows[i], "currency")));
        }
      }
    }
  }

  /** When every importable name is already present, the category loop adds nothing. */
  lemma {:induction false} CategoriesStable(p: Progress, rows: seq<Record>)
    requires ValidSnapshot(p.s)
    requires forall i :: 0 <= i < |rows| && CategoryImportable(rows[i]) ==>
      Categories.IdByName(p.s.categories, NameText(Field(rows[i], "name"))).Some?
    ensures Pass(CategoryLoop, p, rows).s.categories == p.s.categories
    decreases |rows|
  {
    if rows != [] {
      var front := rows[..|rows| - 1];
      assert forall i :: 0 <= i < |front| ==> front[i] == rows[i];
      CategoriesStable(p, front);
    }
  }

  lemma {:induction false} WalletsStable(p: Progress, rows: seq<Record>)
    requires ValidSnapshot(p.s)
    requires forall i :: 0 <= i < |rows| && WalletImportable(rows[i]) ==>
      LatestWallet(p.s.wallets, NameText(Field(rows[i], "name")), CurrencyText(Field(rows[i], "currency"))).Some?
    ensures Pass(WalletLoop, p, rows).s.wallets == p.s.wallets
    decreases |rows|
  {
    if rows != [] {
      var front := rows[..|rows| - 1];
      assert forall i :: 0 <= i < |front| ==> front[i] == rows[i];
      WalletsStable(p, front);
    }
  }

  /** Importing the same tables a second time adds no category and no wallet. */
  lemma ReimportAddsNoCategoriesOrWallets(s: Snapshot, tables: IS.Tables, now: string)
    requires ValidSnapshot(s)
    ensures var once := Applied(s, tables, now).s;
      Applied(once, tables, now).s.categories == once.categories
      && Applied(once, tables, now).s.wallets == once.wallets
  {
    ReimportKeepsCategories(s, tables, now);
    ReimportKeepsWallets(s, tables, now);
  }

  lemma ReimportKeepsCategories(s: Snapshot, tables: IS.Tables, now: string)
    requires ValidSnapshot(s)
    ensures var once := Applied(s, tables, now).s;
      Applied(once, tables, now).s.categories == once.categories
  {
    var cats := RowsFor(tables, IS.Category);
    var once := Applied(s, tables, now).s;
    MergedTables(s, tables);
    CategoriesPresent(Progress(s, EmptyBook()), cats);
    assert once.categories == AfterCategories(s, tables).s.categories;
    MergedTables(once, tables);
    CategoriesStable(Progress(once, EmptyBook()), cats);
  }

  lemma ReimportKeepsWallets(s: Snapshot, tables: IS.Tables, now: string)
    requires ValidSnapshot(s)
    ensures var once := Applied(s, tables, now).s;
      Applied(once, tables, now).s.wallets == once.wallets
  {
    var ws := RowsFor(tables, IS.Wallet);
    var once := Applied(s, tables, now).s;
    MergedTables(s, tables);
    WalletsPresent(AfterCategories(s, tables), ws);
    assert once.wallets == AfterWallets(s, tables).s.wallets;
    MergedTables(once, tables);
    WalletsStable(AfterCategories(once, tables), ws);
  }

  // -- goals and expenses are always inserted

  function GoalCount(rows: seq<Record>): nat
    decreases |rows|
  {
    if rows == [] then 0 else GoalCount(rows[..|rows| - 1]) + if GoalImportable(rows[|rows| - 1]) then 1 else 0
  }

  function ExpenseCount(rows: seq<Record>): nat
    decreases |rows|
  {
    if rows == [] then 0 else ExpenseCount(rows[..|rows| - 1]) + if ExpenseImportable(rows[|rows| - 1]) then 1 else 0
  }

  /** The goal loop inserts one goal per importable row, whatever the store already holds. */
  lemma {:induction false} GoalsInserted(p: Progress, rows: seq<Record>)
    requires ValidSnapshot(p.s)
    ensures |Pass(GoalLoop, p, rows).s.goals| == |p.s.goals| + GoalCount(rows)
    decreases |rows|
  {
    if rows != [] {
      GoalsInserted(p, rows[..|rows| - 1]);
    }
  }

  /** The expense loop inserts one expense per importable row and skips the rest. */
  lemma {:induction false} ExpensesInserted(p: Progress, rows: seq<Record>)
    requires ValidSnapshot(p.s)
    ensures |Pass(ExpenseLoop, p, rows).s.expenses| == |p.s.expenses| + ExpenseCount(rows)
    decreases |rows|
  {
    if rows != [] {
      ExpensesInserted(p, rows[..|rows| - 1]);
    }
  }

  /** One import inserts one goal and one expense per importable row, whatever the store holds. */
  lemma AppliedInsertsGoalsAndExpenses(t: Snapshot, tables: IS.Tables, now: string)
    requires ValidSnapshot(t)
    ensures |Applied(t, tables, now).s.goals| == |t.goals| + GoalCount(RowsFor(tables, IS.Goal))
    ensures |Applied(t, tables, now).s.expenses| == |t.expenses| + ExpenseCount(RowsFor(tables, IS.Expense))
  {
    MergedTables(t, tables);
    GoalsInserted(AfterWallets(t, tables), RowsFor(tables, IS.Goal));
    ExpensesInserted(AfterGoals(t, tables), RowsFor(tables, IS.Expense));
  }

  /** Goals and expenses are not de-duplicated: a second import inserts them all again. */
  lemma ReimportRepeatsGoalsAndExpenses(s: Snapshot, tables: IS.Tables, now: string)
    requires ValidSnapshot(s)
    ensures var once := Applied(s, tables, now).s;
      |Applied(once, tables, now).s.goals| == |s.goals| + 2 * GoalCount(RowsFor(tables, IS.Goal))
      && |Applied(once, tables, now).s.expenses| == |s.expenses| + 2 * ExpenseCount(RowsFor(tables, IS.Expense))
  {
    AppliedInsertsGoalsAndExpenses(s, tables, now);
    AppliedInsertsGoalsAndExpenses(Applied(s, tables, now).s, tables, now);
  }

  // -- foreign keys

  /** A foreign key that is NULL or names an existing row. */
  predicate Resolves<T>(rows: Rows<T>, id: Option<int>) {
    id.None? || Find(rows, id.value).Some?
  }

  predicate MapResolves<T>(m: map<Value, Option<int>>, rows: Rows<T>) {
    forall k :: k in m ==> Resolves(rows, m[k])
  }

  predicate MapsResolve(p: Progress) {
    MapResolves(p.book.categoryMap, p.s.categories) && MapResolves(p.book.walletMap, p.s.wallets)
  }

  lemma ResolvesGrows<T>(a: Rows<T>, b: Rows<T>, id: Option<int>)
    requires a <= b && Resolves(a, id)
    ensures Resolves(b, id)
  {
    if id.Some? {
      var i :| 0 <= i < |a| && a[i].id == id.value;
      assert b[i] == a[i];
    }
  }

  lemma MapResolvesGrows<T>(m: map<Value, Option<int>>, a: Rows<T>, b: Rows<T>)
    requires a <= b && MapResolves(m, a)
    ensures MapResolves(m, b)
  {
    forall k | k in m ensures Resolves(b, m[k]) {
      ResolvesGrows(a, b, m[k]);
    }
  }

  lemma MapResolvesSet<T>(m: map<Value, Option<int>>, rows: Rows<T>, k: Value, v: Option<int>)
    requires MapResolves(m, rows) && Resolves(rows, v)
    ensures MapResolves(m[k := v], rows)
  {
  }

  /** The ids the category loop records are ids of categories the store holds. */
  lemma CategoryStepMapsResolve(p: Progress, r: Record)
    requires ValidSnapshot(p.s) && MapsResolve(p)
    ensures MapsResolve(CategoryStep(p, r))
  {
    var q := CategoryStep(p, r);
    var name := NameText(Field(r, "name"));
    if name != "" {
      MapResolvesGrows(p.book.categoryMap, p.s.categories, q.s.categories);
      var found := Categories.IdByName(q.s.categories, name);
      if found.Some? {
        var i :| 0 <= i < |q.s.categories| && q.s.categories[i].id == found.value && q.s.categories[i].data.name == name;
      }
      MapResolvesSet(p.book.categoryMap, q.s.categories, Field(r, "id"), found);
    }
  }

  lemma WalletStepMapsResolve(p: Progress, r: Record)
    requires ValidSnapshot(p.s) && MapsResolve(p)
    ensures MapsResolve(WalletStep(p, r))
  {
    var q := WalletStep(p, r);
    var name := NameText(Field(r, "name"));
    if name != "" {
      var currency := CurrencyText(Field(r, "currency"));
      MapResolvesGrows(p.book.walletMap, p.s.wallets, q.s.wallets);
      var found := LatestWallet(q.s.wallets, name, currency);
      if found.Some? {
        var i :| 0 <= i < |q.s.wallets| && q.s.wallets[i].id == found.value && SameWallet(q.s.wallets[i].data, name, currency)
          && (forall j :: i < j < |q.s.wallets| ==> !SameWallet(q.s.wallets[j].data, name, currency));
      }
      MapResolvesSet(p.book.walletMap, q.s.wallets, Field(r, "id"), found);
    }
  }

  lemma StepMapsResolve(k: Loop, p: Progress, r: Record)
    requires ValidSnapshot(p.s) && MapsResolve(p)
    ensures MapsResolve(Step(k, p, r))
  {
    match k
    case CategoryLoop => CategoryStepMapsResolve(p, r);
    case WalletLoop => WalletStepMapsResolve(p, r);
    case GoalLoop =>
    case ExpenseLoop =>
  }

  /** Every goal and expense from position `goalsFrom` / `expensesFrom` on references existing rows only. */
  predicate ReferencesFrom(s: Snapshot, goalsFrom: nat, expensesFrom: nat) {
    (forall i :: goalsFrom <= i < |s.goals| ==> Resolves(s.categories, s.goals[i].data.categoryId))
    && (forall i :: expensesFrom <= i < |s.expenses| ==>
          Resolves(s.categories, s.expenses[i].data.categoryId) && Resolves(s.wallets, s.expenses[i].data.walletId))
  }

  /** Growing the category and wallet tables keeps every reference resolved. */
  lemma ReferencesGrow(s: Snapshot, t: Snapshot, goalsFrom: nat, expensesFrom: nat)
    requires ReferencesFrom(s, goalsFrom, expensesFrom)
    requires t.goals == s.goals && t.expenses == s.expenses && s.categories <= t.categories && s.wallets <= t.wallets
    ensures ReferencesFrom(t, goalsFrom, expensesFrom)
  {
    forall i | goalsFrom <= i < |t.goals| ensures Resolves(t.categories, t.goals[i].data.categoryId) {
      ResolvesGrows(s.categories, t.categories, s.goals[i].data.categoryId);
    }
    forall i | expensesFrom <= i < |t.expenses|
      ensures Resolves(t.categories, t.expenses[i].data.categoryId)
      ensures Resolves(t.wallets, t.expenses[i].data.walletId)
    {
      ResolvesGrows(s.categories, t.categories, s.expenses[i].data.categoryId);
      ResolvesGrows(s.wallets, t.wallets, s.expenses[i].data.walletId);
    }
  }

  lemma GoalStepKeepsReferences(p: Progress, r: Record, goalsFrom: nat, expensesFrom: nat)
    requires ValidSnapshot(p.s) && MapsResolve(p) && ReferencesFrom(p.s, goalsFrom, expensesFrom)
    requires goalsFrom <= |p.s.goals|
    ensures ReferencesFrom(GoalStep(p, r).s, goalsFrom, expensesFrom)
  {
    if NameText(Field(r, "name")) != "" && GoalImportable(r) {
      var g := ImportedGoal(r, p.book.categoryMap);
      var goals := Insert(p.s.goals, g);
      assert GoalStep(p, r).s == p.s.(goals := goals);
      assert Resolves(p.s.categories, g.categoryId);
      assert forall i :: 0 <= i < |p.s.goals| ==> goals[i] == p.s.goals[i];
    } else {
      assert GoalStep(p, r).s == p.s;
    }
  }

  lemma ExpenseStepKeepsReferences(p: Progress, r: Record, goalsFrom: nat, expensesFrom: nat)
    requires ValidSnapshot(p.s) && MapsResolve(p) && ReferencesFrom(p.s, goalsFrom, expensesFrom)
    requires expensesFrom <= |p.s.expenses|
    ensures ReferencesFrom(ExpenseStep(p, r).s, goalsFrom, expensesFrom)
  {
    if ExpenseImportable(r) {
      var e := ImportedExpense(r, p.book);
      var expenses := Insert(p.s.expenses, e);
      assert ExpenseStep(p, r).s == p.s.(expenses := expenses);
      assert Resolves(p.s.categories, e.categoryId) && Resolves(p.s.wallets, e.walletId);
      assert forall i :: 0 <= i < |p.s.expenses| ==> expenses[i] == p.s.expenses[i];
    } else {
      assert ExpenseStep(p, r).s == p.s;
    }
  }

  lemma StepKeepsReferences(k: Loop, p: Progress, r: Record, goalsFrom: nat, expensesFrom: nat)
    requires ValidSnapshot(p.s) && MapsResolve(p) && ReferencesFrom(p.s, goalsFrom, expensesFrom)
    requires goalsFrom <= |p.s.goals| && expensesFrom <= |p.s.expenses|
    ensures ReferencesFrom(Step(k, p, r).s, goalsFrom, expensesFrom)
  {
    match k
    case CategoryLoop => ReferencesGrow(p.s, Step(k, p, r).s, goalsFrom, expensesFrom);
    case WalletLoop => ReferencesGrow(p.s, Step(k, p, r).s, goalsFrom, expensesFrom);
    case GoalLoop => GoalStepKeepsReferences(p, r, goalsFrom, expensesFrom);
    case ExpenseLoop => ExpenseStepKeepsReferences(p, r, goalsFrom, expensesFrom);
  }

  lemma {:induction false} PassKeepsReferences(k: Loop, p: Progress, rows: seq<Record>, goalsFrom: nat, expensesFrom: nat)
    requires ValidSnapshot(p.s) && MapsResolve(p) && ReferencesFrom(p.s, goalsFrom, expensesFrom)
    requires goalsFrom <= |p.s.goals| && expensesFrom <= |p.s.expenses|
    ensures MapsResolve(Pass(k, p, rows)) && ReferencesFrom(Pass(k, p, rows).s, goalsFrom, expensesFrom)
    ensures goalsFrom <= |Pass(k, p, rows).s.goals| && expensesFrom <= |Pass(k, p, rows).s.expenses|
    decreases |rows|
  {
    if rows != [] {
      var mid := Pass(k, p, rows[..|rows| - 1]);
      PassKeepsReferences(k, p, rows[..|rows| - 1], goalsFrom, expensesFrom);
      StepMapsResolve(k, mid, rows[|rows| - 1]);
      StepKeepsReferences(k, mid, rows[|rows| - 1], goalsFrom, expensesFrom);
    }
  }

  /** Foreign-key re-mapping: every imported goal and expense points at a category and wallet that exist, or at none. */
  lemma ImportedRowsResolve(s: Snapshot, tables: IS.Tables, now: string)
    requires ValidSnapshot(s)
    ensures ReferencesFrom(Applied(s, tables, now).s, |s.goals|, |s.expenses|)
  {
    PassKeepsReferences(CategoryLoop, Progress(s, EmptyBook()), RowsFor(tables, IS.Category), |s.goals|, |s.expenses|);
    PassKeepsReferences(WalletLoop, AfterCategories(s, tables), RowsFor(tables, IS.Wallet), |s.goals|, |s.expenses|);
    PassKeepsReferences(GoalLoop, AfterWallets(s, tables), RowsFor(tables, IS.Goal), |s.goals|, |s.expenses|);
    PassKeepsReferences(ExpenseLoop, AfterGoals(s, tables), RowsFor(tables, IS.Expense), |s.goals|, |s.expenses|);
  }

  /**
   * The id maps are keyed by the raw `id`, None when the row has none: a
   * category row without an id claims the None key, so a goal without a
   * category is filed under that category.
   */
  lemma IdlessCategoryAdoptsUnlinkedGoals(p: Progress, c: Record, g: Record)
    requires ValidSnapshot(p.s) && CategoryImportable(c) && Field(c, "id") == VNone
    requires GoalImportable(g) && Field(g, "category_id") == VNone
    ensures var q1 := CategoryStep(p, c);
      var q2 := GoalStep(q1, g);
      q2.s.goals[|q2.s.goals| - 1].data.categoryId == Categories.IdByName(q1.s.categories, NameText(Field(c, "name")))
      && q2.s.goals[|q2.s.goals| - 1].data.categoryId.Some?
  {
    CategoryStepFinds(p, c);
  }

  /** Only the first profile row is read. */
  lemma OnlyFirstProfileRow(p: Progress, rows: seq<Record>, more: seq<Record>, now: string)
    requires ValidSnapshot(p.s) && rows != []
    ensures ProfileStep(p, rows + more, now) == ProfileStep(p, rows, now)
  {
    assert (rows + more)[0] == rows[0];
  }

  // ---------------------------------------------------------------------
  // The loops

  /** The inner `try` around `add_category`. */
  method AddImportedCategory(db: Database, r: Record, name: string, book: Book) returns (out: Book)
    requires db.Valid()
    modifies db
    ensures db.Valid()
    ensures Progress(db.Snap(), out) == CategoryAdded(Progress(old(db.Snap()), book), r, name)
  {
    out := book;
    var kind := KindOf(Field(r, "type"));
    if kind.None? {
      out := Failed(out, "category", name);
      return;
    }
    var added := Categories.AddCategory(db, name, LimitOf(Field(r, "limit_amount")), kind.value, CurrencyText(Field(r, "currency")));
    if added.Ok? {
      out := out.(inserted := Counted(out.inserted, IS.Category));
    } else {
      out := Failed(out, "category", name);
    }
  }

  method ImportCategory(db: Database, r: Record, book: Book) returns (out: Book)
    requires db.Valid()
    modifies db
    ensures db.Valid()
    ensures Progress(db.Snap(), out) == CategoryStep(Progress(old(db.Snap()), book), r)
  {
    out := book;
    var name := NameText(Field(r, "name"));
    if name == "" {
      return;
    }
    if Categories.IdByName(db.categories, name).None? {
      out := AddImportedCategory(db, r, name, out);
    }
    out := out.(categoryMap := out.categoryMap[Field(r, "id") := Categories.IdByName(db.categories, name)]);
  }

  /** The inner `try` around `add_wallet`. */
  method AddImportedWallet(db: Database, r: Record, name: string, currency: string, book: Book) returns (out: Book)
    requires db.Valid()
    modifies db
    ensures db.Valid()
    ensures Progress(db.Snap(), out) == WalletAdded(Progress(old(db.Snap()), book), r, name, currency)
  {
    out := book;
    var amount := Money(Field(r, "amount"));
    if amount.None? {
      out := Failed(out, "wallet", name);
      return;
    }
    Wallets.AddWallet(db, name, amount.value, currency);
    out := out.(inserted := Counted(out.inserted, IS.Wallet));
  }

  method ImportWallet(db: Database, r: Record, book: Book) returns (out: Book)
    requires db.Valid()
    modifies db
    ensures db.Valid()
    ensures Progress(db.Snap(), out) == WalletStep(Progress(old(db.Snap()), book), r)
  {
    out := book;
    var name := NameText(Field(r, "name"));
    if name == "" {
      return;
    }
    var currency := CurrencyText(Field(r, "currency"));
    if LatestWallet(db.wallets, name, currency).None? {
      out := AddImportedWallet(db, r, name, currency, out);
    }
    out := out.(walletMap := out.walletMap[Field(r, "id") := LatestWallet(db.wallets, name, currency)]);
  }

  method ImportGoal(db: Database, r: Record, book: Book) returns (out: Book)
    requires db.Valid()
    modifies db
    ensures db.Valid()
    ensures Progress(db.Snap(), out) == GoalStep(Progress(old(db.Snap()), book), r)
  {
    out := book;
    var name := NameText(Field(r, "name"));
    if name == "" {
      return;
    }
    var toReach := Money(Field(r, "amount_to_reach"));
    var reached := Money(Field(r, "amount_reached"));
    if toReach.None? || reached.None? {
      out := Failed(out, "goal", name);
      return;
    }
    Goals.AddGoal(db, name, toReach.value, reached.value, Lookup(out.categoryMap, Field(r, "category_id")),
                  CurrencyText(Field(r, "currency")), OptText(Field(r, "start_date")));
    out := out.(inserted := Counted(out.inserted, IS.Goal));
  }

  method ImportExpense(db: Database, r: Record, book: Book) returns (out: Book)
    requires db.Valid()
    modifies db
    ensures db.Valid()
    ensures Progress(db.Snap(), out) == ExpenseStep(Progress(old(db.Snap()), book), r)
  {
    out := book;
    var name := NameText(Field(r, "name"));
    var cost := Field(r, "cost");
    var date := Field(r, "date");
    if name == "" || cost.VNone? || !Truthy(date) {
      return;
    }
    var amount := FloatOf(cost);
    if amount.None? {
      out := Failed(out, "expense", name);
      return;
    }
    Expenses.AddExpense(db, name, amount.value, Str(date), Lookup(out.categoryMap, Field(r, "category_id")),
                        Lookup(out.walletMap, Field(r, "wallet_id")), OptText(Field(r, "description")));
    out := out.(inserted := Counted(out.inserted, IS.Expense));
  }

  method ImportRow(db: Database, k: Loop, r: Record, book: Book) returns (out: Book)
    requires db.Valid()
    modifies db
    ensures db.Valid()
    ensures Progress(db.Snap(), out) == Step(k, Progress(old(db.Snap()), book), r)
  {
    match k
    case CategoryLoop => out := ImportCategory(db, r, book);
    case WalletLoop => out := ImportWallet(db, r, book);
    case GoalLoop => out := ImportGoal(db, r, book);
    case ExpenseLoop => out := ImportExpense(db, r, book);
  }

  /** One of the four `for r in rows_by_table.get(...)` loops. */
  method ImportRows(db: Database, k: Loop, rows: seq<Record>, book: Book) returns (out: Book)
    requires db.Valid()
    modifies db
    ensures db.Valid()
    ensures Progress(db.Snap(), out) == Pass(k, Progress(old(db.Snap()), book), rows)
  {
    out := book;
    ghost var start := Progress(db.Snap(), book);
    var i := 0;
    while i < |rows|
      invariant 0 <= i <= |rows| && db.Valid() && ValidSnapshot(start.s)
      invariant Progress(db.Snap(), out) == Pass(k, start, rows[..i])
    {
      PassSnoc(k, start, rows, i);
      out := ImportRow(db, k, rows[i], out);
      i := i + 1;
    }
    assert rows[..|rows|] == rows;
  }

  /** Step 5: the first profile row, upserted; a failure is swallowed. */
  method ImportProfile(db: Database, rows: seq<Record>, book: Book, now: string) returns (out: Book)
    requires db.Valid()
    modifies db
    ensures db.Valid()
    ensures Progress(db.Snap(), out) == ProfileStep(Progress(old(db.Snap()), book), rows, now)
  {
    out := book;
    if rows == [] {
      return;
    }
    var args := ProfileArgsOf(rows[0], out.walletMap);
    if args.None? {
      return;
    }
    var ok := Profiles.UpsertProfile(db, args.value, now);
    if ok.Ok? {
      out := out.(inserted := out.inserted.(profile := 1));
    }
  }

  /** The summary the docstring of `apply_import` promises: inserted counts and the error list. */
  datatype ImportSummary = ImportSummary(inserted: Counts, errors: seq<string>)

  /** `apply_import` with the summary returned (see `InsertedCountsMatchRows` for what its counters mean). */
  method ApplyImportReport(db: Database, tables: IS.Tables, now: string) returns (report: ImportSummary)
    requires db.Valid()
    modifies db
    ensures db.Valid()
    ensures db.Snap() == Applied(old(db.Snap()), tables, now).s
    ensures report == ImportSummary(Applied(old(db.Snap()), tables, now).book.inserted, Applied(old(db.Snap()), tables, now).book.errors)
  {
    var book := EmptyBook();
    book := ImportRows(db, CategoryLoop, RowsFor(tables, IS.Category), book);
    book := ImportRows(db, WalletLoop, RowsFor(tables, IS.Wallet), book);
    book := ImportRows(db, GoalLoop, RowsFor(tables, IS.Goal), book);
    book := ImportRows(db, ExpenseLoop, RowsFor(tables, IS.Expense), book);
    book := ImportProfile(db, RowsFor(tables, IS.Profile), book, now);
    report := ImportSummary(book.inserted, book.errors);
  }

  /** What `apply_import` returns as written: it builds the summary but has no `return`, so the caller gets None. */
  function ApplyImportResult(s: Snapshot, tables: IS.Tables, now: string): Value {
    VNone
  }

  /** `apply_import` as written: the store is merged, the summary is dropped. */
  method ApplyImport(db: Database, tables: IS.Tables, now: string) returns (result: Value)
    requires db.Valid()
    modifies db
    ensures db.Valid()
    ensures db.Snap() == Applied(old(db.Snap()), tables, now).s
    ensures result == ApplyImportResult(old(db.Snap()), tables, now)
  {
    var _ := ApplyImportReport(db, tables, now);
    result := VNone;
  }

  /** The discrepancy: goals were inserted and counted, yet the caller receives None and no counts. */
  lemma SummaryNotReturned(s: Snapshot, tables: IS.Tables, now: string)
    requires ValidSnapshot(s) && GoalCount(RowsFor(tables, IS.Goal)) > 0
    ensures Applied(s, tables, now).book.inserted.goal > 0
    ensures ApplyImportResult(s, tables, now) == VNone
  {
    InsertedCountsMatchRows(s, tables, now);
    AppliedInsertsGoalsAndExpenses(s, tables, now);
  }
}
