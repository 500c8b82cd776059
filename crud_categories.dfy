/**
 * The category table's store primitives: insert with defaults, the
 * "None keeps current" edit, the guarded remove, the lookup by name and the
 * seeding of the default categories.
 *
 * `category.name` is UNIQUE, so an insert or rename onto a taken name is
 * refused by the store (an `IntegrityError`).
 */
module Categories {
  import opened Wrappers
  import opened Store

  /** `SELECT id FROM category WHERE name = ?`: the first row with exactly this name. */
  function IdByName(rows: Rows<Category>, name: string): (r: Option<nat>)
    ensures r.None? <==> forall i :: 0 <= i < |rows| ==> rows[i].data.name != name
    ensures r.Some? ==> exists i :: 0 <= i < |rows| && rows[i].id == r.value && rows[i].data.name == name
  {
    if rows == [] then None
    else if rows[0].data.name == name then Some(rows[0].id)
    else IdByName(rows[1..], name)
  }

  /** A name present in `rows` is still found after more rows are appended. */
  lemma {:induction false} IdByNameAppend(rows: Rows<Category>, more: Rows<Category>, name: string)
    requires IdByName(rows, name).Some?
    ensures IdByName(rows + more, name) == IdByName(rows, name)
  {
    if rows[0].data.name != name {
      assert (rows + more)[1..] == rows[1..] + more;
      IdByNameAppend(rows[1..], more, name);
    }
  }

  /** A name present in `rows` is found, at the same id, in any table that extends `rows`. */
  lemma {:induction false} IdByNameExtended(rows: Rows<Category>, longer: Rows<Category>, name: string)
    requires |rows| <= |longer| && longer[..|rows|] == rows && IdByName(rows, name).Some?
    ensures IdByName(longer, name) == IdByName(rows, name)
  {
    assert longer == rows + longer[|rows|..];
    IdByNameAppend(rows, longer[|rows|..], name);
  }

  /** In a table with unique names, the row found for its own name is that row. */
  lemma IdByNameAt(rows: Rows<Category>, i: nat)
    requires UniqueNames(rows) && i < |rows|
    ensures IdByName(rows, rows[i].data.name) == Some(rows[i].id)
  {
    if i > 0 && rows[0].data.name != rows[i].data.name {
      IdByNameAt(rows[1..], i - 1);
    }
  }

  // ---------------------------------------------------------------------
  // add_category

  /** The insert `add_category` issues: refused when the name is already taken. */
  function Added(rows: Rows<Category>, c: Category): (r: Result<Rows<Category>>)
    requires ValidRows(rows)
    ensures r.Err? <==> IdByName(rows, c.name).Some?
    ensures r.Ok? ==> r.value == Insert(rows, c)
  {
    if IdByName(rows, c.name).Some? then Err(IntegrityError("UNIQUE constraint failed: category.name"))
    else Ok(Insert(rows, c))
  }

  /** A successful insert keeps the names unique, and the new name reads back the new id. */
  lemma AddedKeepsUnique(rows: Rows<Category>, c: Category)
    requires ValidRows(rows) && UniqueNames(rows) && Added(rows, c).Ok?
    ensures UniqueNames(Added(rows, c).value)
    ensures IdByName(Added(rows, c).value, c.name) == Some(NextId(rows))
  {
    var r := Added(rows, c).value;
    forall i, j | 0 <= i < j < |r| ensures r[i].data.name != r[j].data.name {
      if j == |rows| {
        assert r[i] == rows[i];
      } else {
        assert r[i] == rows[i] && r[j] == rows[j];
      }
    }
    IdByNameAt(r, |rows|);
  }

  method AddCategory(db: Database, name: string, limitAmount: Option<real> := None,
                     kind: int := 0, currency: string := "EUR")
    returns (r: Result<()>)
    requires db.Valid()
    modifies db
    ensures db.Valid()
    ensures var a := Added(old(db.categories), Category(name, limitAmount, kind, currency));
      (r.Ok? <==> a.Ok?)
      && db.Snap() == old(db.Snap()).(categories := if a.Ok? then a.value else old(db.categories))
  {
    var a := Added(db.categories, Category(name, limitAmount, kind, currency));
    if a.Err? {
      return Err(a.error);
    }
    AddedKeepsUnique(db.categories, Category(name, limitAmount, kind, currency));
    db.categories := a.value;
    r := Ok(());
  }

  // ---------------------------------------------------------------------
  // edit_category

  /** The row `edit_category` writes: each argument that is None keeps the stored field. */
  function Edited(cur: Category, newName: Option<string>, newLimit: Option<real>,
                  newKind: Option<int>, newCurrency: Option<string>): (c: Category)
    ensures newName.None? ==> c.name == cur.name
    ensures newName.Some? ==> c.name == newName.value
    ensures newLimit.None? ==> c.limitAmount == cur.limitAmount
    ensures cur.limitAmount.Some? ==> c.limitAmount.Some?
    ensures newKind.None? ==> c.kind == cur.kind
    ensures newCurrency.None? ==> c.currency == cur.currency
    ensures newLimit.Some? ==> c.limitAmount == newLimit
    ensures newKind.Some? ==> c.kind == newKind.value
    ensures newCurrency.Some? ==> c.currency == newCurrency.value
  {
    Category(
      newName.GetOr(cur.name),
      if newLimit.Some? then newLimit else cur.limitAmount,
      newKind.GetOr(cur.kind),
      newCurrency.GetOr(cur.currency))
  }

  /**
   * The table after `edit_category`: an unknown id changes nothing; a rename
   * onto another row's name is refused; otherwise only that row changes.
   */
  function EditedRows(rows: Rows<Category>, id: int, newName: Option<string>, newLimit: Option<real>,
                      newKind: Option<int>, newCurrency: Option<string>): (r: Result<Rows<Category>>)
    ensures Find(rows, id).None? ==> r == Ok(rows)
    ensures r.Err? <==> (Find(rows, id).Some? && newName.Some?
      && IdByName(rows, newName.value).Some? && IdByName(rows, newName.value).value != id)
    ensures r.Ok? ==> |r.value| == |rows| && Ids(r.value) == Ids(rows)
    ensures r.Ok? ==> forall i :: 0 <= i < |rows| && rows[i].id != id ==> r.value[i] == rows[i]
    ensures r.Ok? && Find(rows, id).Some? ==>
      Find(r.value, id) == Some(Edited(Find(rows, id).value, newName, newLimit, newKind, newCurrency))
  {
    match Find(rows, id)
    case None => Ok(rows)
    case Some(cur) =>
      var c := Edited(cur, newName, newLimit, newKind, newCurrency);
      FindUpdate(rows, id, c, id);
      if newName.Some? && IdByName(rows, c.name).Some? && IdByName(rows, c.name).value != id then
        Err(IntegrityError("UNIQUE constraint failed: category.name"))
      else
        Ok(Update(rows, id, c))
  }

  /** An accepted edit keeps the names unique. */
  lemma EditedKeepsUnique(rows: Rows<Category>, id: int, newName: Option<string>, newLimit: Option<real>,
                          newKind: Option<int>, newCurrency: Option<string>)
    requires ValidRows(rows) && UniqueNames(rows)
    requires EditedRows(rows, id, newName, newLimit, newKind, newCurrency).Ok?
    ensures ValidRows(EditedRows(rows, id, newName, newLimit, newKind, newCurrency).value)
    ensures UniqueNames(EditedRows(rows, id, newName, newLimit, newKind, newCurrency).value)
  {
    var r := EditedRows(rows, id, newName, newLimit, newKind, newCurrency).value;
    if Find(rows, id).Some? {
      var c := Edited(Find(rows, id).value, newName, newLimit, newKind, newCurrency);
      assert r == Update(rows, id, c);
      UpdateKeepsValid(rows, id, c);
      forall i, j | 0 <= i < j < |r| ensures r[i].data.name != r[j].data.name {
        if rows[i].id == id {
          EditedNameClash(rows, id, c, j);
        } else if rows[j].id == id {
          EditedNameClash(rows, id, c, i);
        }
      }
    }
  }

  /** The edited row's name never equals another row's name once the edit is accepted. */
  lemma EditedNameClash(rows: Rows<Category>, id: int, c: Category, other: nat)
    requires ValidRows(rows) && UniqueNames(rows) && other < |rows| && rows[other].id != id
    requires Find(rows, id).Some?
    requires c.name == Find(rows, id).value.name
      || IdByName(rows, c.name).None? || IdByName(rows, c.name).value == id
    ensures c.name != rows[other].data.name
  {
    var k :| 0 <= k < |rows| && rows[k].id == id;
    FindAt(rows, k);
    IdByNameAt(rows, k);
    IdByNameAt(rows, other);
  }

  method EditCategory(db: Database, categoryId: int, newName: Option<string> := None,
                      newLimit: Option<real> := None, newKind: Option<int> := None,
                      newCurrency: Option<string> := None)
    returns (r: Result<()>)
    requires db.Valid()
    modifies db
    ensures db.Valid()
    ensures var e := EditedRows(old(db.categories), categoryId, newName, newLimit, newKind, newCurrency);
      (r.Ok? <==> e.Ok?)
      && db.Snap() == old(db.Snap()).(categories := if e.Ok? then e.value else old(db.categories))
  {
    var e := EditedRows(db.categories, categoryId, newName, newLimit, newKind, newCurrency);
    if e.Err? {
      return Err(e.error);
    }
    EditedKeepsUnique(db.categories, categoryId, newName, newLimit, newKind, newCurrency);
    db.categories := e.value;
    r := Ok(());
  }

  // ---------------------------------------------------------------------
  // remove_category

  /** `remove_category`: an absent id is a no-op; otherwise exactly that row goes. */
  function Removed(rows: Rows<Category>, id: int): (r: Rows<Category>)
    requires ValidRows(rows)
    ensures ValidRows(r) && Find(r, id).None?
    ensures Find(rows, id).None? ==> r == rows
    ensures Find(rows, id).Some? ==> |r| == |rows| - 1
    ensures forall i :: 0 <= i < |rows| && rows[i].id != id ==> rows[i] in r
    ensures forall i :: 0 <= i < |r| ==> r[i] in rows
  {
    if Find(rows, id).None? then rows
    else
      DeleteKeepsValid(rows, id);
      DeletePresent(rows, id);
      DeleteKeepsOthers(rows, id);
      Delete(rows, id)
  }

  /** Removing keeps the names unique: what is left is a subsequence. */
  lemma RemovedKeepsUnique(rows: Rows<Category>, id: int)
    requires ValidRows(rows) && UniqueNames(rows)
    ensures UniqueNames(Removed(rows, id))
  {
    if Find(rows, id).Some? {
      DeleteUnique(rows, id);
    }
  }

  lemma {:induction false} DeleteUnique(rows: Rows<Category>, id: int)
    requires UniqueNames(rows)
    ensures UniqueNames(Delete(rows, id))
  {
    if rows != [] {
      DeleteUnique(rows[1..], id);
      if rows[0].id != id {
        var d := Delete(rows, id);
        var e := Delete(rows[1..], id);
        assert d == [rows[0]] + e;
        DeleteKeepsOthers(rows[1..], id);
        forall j | 0 <= j < |e| ensures e[j].data.name != rows[0].data.name {
          assert e[j] in rows[1..];
        }
        forall i, j | 0 <= i < j < |d| ensures d[i].data.name != d[j].data.name {
          if i > 0 { assert d[i] == e[i - 1] && d[j] == e[j - 1]; }
          else { assert d[j] == e[j - 1]; }
        }
      }
    }
  }

  method RemoveCategory(db: Database, categoryId: int)
    requires db.Valid()
    modifies db
    ensures db.Valid()
    ensures db.Snap() == old(db.Snap()).(categories := Removed(old(db.categories), categoryId))
  {
    if Find(db.categories, categoryId).None? {
      return;
    }
    RemovedKeepsUnique(db.categories, categoryId);
    db.categories := Removed(db.categories, categoryId);
  }

  // ---------------------------------------------------------------------
  // get_category_id_by_name

  /** The path `get_category_id_by_name` opens, relative to the working directory. */
  const LegacyPath := "database/budget_tracker.db"

  /**
   * `get_category_id_by_name` reads the database file at the hard-coded
   * `LegacyPath`, whatever database the rest of the store uses (`files` maps
   * paths to the databases found there). Opening a missing file creates an
   * empty database, whose query then fails for lack of a category table.
   */
  function CategoryIdByName(files: map<string, Snapshot>, name: string): (r: Result<Option<nat>>)
    ensures r.Err? <==> LegacyPath !in files || "category" !in files[LegacyPath].tables
    ensures r.Ok? ==> r.value == IdByName(files[LegacyPath].categories, name)
  {
    if LegacyPath !in files || "category" !in files[LegacyPath].tables then
      Err(OperationalError("no such table: category"))
    else
      Ok(IdByName(files[LegacyPath].categories, name))
  }

  /** Only the file at `LegacyPath` matters: the database at any other path never does. */
  lemma CategoryIdByNameIgnoresOtherPaths(files: map<string, Snapshot>, path: string, s: Snapshot, name: string)
    requires path != LegacyPath
    ensures CategoryIdByName(files[path := s], name) == CategoryIdByName(files, name)
  {
    assert LegacyPath in files[path := s] <==> LegacyPath in files;
  }

  // ---------------------------------------------------------------------
  // add_categories

  /** The seventeen default categories, in the order they are inserted. */
  const Seeds: seq<Category> := [
    Category("Coffee", Some(25.0), 0, "EUR"),
    Category("Clothes", Some(50.0), 0, "EUR"),
    Category("Extra", Some(50.0), 0, "EUR"),
    Category("Going out", Some(100.0), 0, "EUR"),
    Category("Health Care", Some(57.0), 1, "EUR"),
    Category("Home", Some(50.0), 0, "EUR"),
    Category("Memberships", Some(70.0), 1, "EUR"),
    Category("Personal Projects", Some(25.0), 0, "EUR"),
    Category("Pharmacy", Some(25.0), 0, "EUR"),
    Category("Rent", Some(533.3), 1, "EUR"),
    Category("Restaurant", Some(150.0), 0, "EUR"),
    Category("Shopping", Some(50.0), 0, "EUR"),
    Category("Sport", Some(35.0), 0, "EUR"),
    Category("Trasport", Some(140.0), 0, "EUR"),
    Category("Travel", Some(40.0), 0, "EUR"),
    Category("University Payment", Some(261.0), 1, "EUR"),
    Category("Groceries", Some(150.0), 0, "EUR")
  ]

  /** One `add_category` per seed, a refused insert leaving the table as it was. */
  function Seeded(rows: Rows<Category>, seeds: seq<Category>): (r: Rows<Category>)
    requires ValidRows(rows)
    ensures ValidRows(r) && |rows| <= |r| <= |rows| + |seeds| && r[..|rows|] == rows
  {
    if seeds == [] then rows
    else
      var n := |seeds| - 1;
      var prev := Seeded(rows, seeds[..n]);
      var a := Added(prev, seeds[n]);
      if a.Err? then prev else a.value
  }

  /** After seeding, every seed name is in the table. */
  lemma SeededHasSeeds(rows: Rows<Category>, seeds: seq<Category>)
    requires ValidRows(rows)
    ensures forall k :: 0 <= k < |seeds| ==> IdByName(Seeded(rows, seeds), seeds[k].name).Some?
  {
    forall k | 0 <= k < |seeds| ensures IdByName(Seeded(rows, seeds), seeds[k].name).Some? {
      SeededHasSeed(rows, seeds, k);
    }
  }

  lemma {:induction false} SeededHasSeed(rows: Rows<Category>, seeds: seq<Category>, k: nat)
    requires ValidRows(rows) && k < |seeds|
    ensures IdByName(Seeded(rows, seeds), seeds[k].name).Some?
  {
    var n := |seeds| - 1;
    if k < n {
      SeededHasSeed(rows, seeds[..n], k);
      assert seeds[..n][k] == seeds[k];
    }
    SeededStep(rows, seeds, seeds[k].name);
  }

  lemma SeededStep(rows: Rows<Category>, seeds: seq<Category>, name: string)
    requires ValidRows(rows) && seeds != []
    requires IdByName(Seeded(rows, seeds[..|seeds| - 1]), name).Some? || name == seeds[|seeds| - 1].name
    ensures IdByName(Seeded(rows, seeds), name).Some?
  {
    AddedFinds(Seeded(rows, seeds[..|seeds| - 1]), seeds[|seeds| - 1], name);
  }

  /** A name already present, or the one being added, is found after `add_category`. */
  lemma AddedFinds(rows: Rows<Category>, c: Category, name: string)
    requires ValidRows(rows) && (IdByName(rows, name).Some? || name == c.name)
    ensures var a := Added(rows, c); IdByName(if a.Err? then rows else a.value, name).Some?
  {
    var a := Added(rows, c);
    if a.Ok? {
      var last := a.value[|rows|];
      assert a.value == rows + [last];
      if IdByName(rows, name).Some? {
        IdByNameAppend(rows, [last], name);
      } else {
        assert a.value[|rows|].data.name == name;
      }
    }
  }

  /** Seeding keeps the names unique. */
  lemma {:induction false} SeededKeepsUnique(rows: Rows<Category>, seeds: seq<Category>)
    requires ValidRows(rows) && UniqueNames(rows)
    ensures UniqueNames(Seeded(rows, seeds))
  {
    if seeds != [] {
      var n := |seeds| - 1;
      SeededKeepsUnique(rows, seeds[..n]);
      var prev := Seeded(rows, seeds[..n]);
      if Added(prev, seeds[n]).Ok? {
        AddedKeepsUnique(prev, seeds[n]);
      }
    }
  }

  /** Seeding a table that already holds every seed name changes nothing. */
  lemma {:induction false} SeededPresent(rows: Rows<Category>, seeds: seq<Category>)
    requires ValidRows(rows)
    requires forall k :: 0 <= k < |seeds| ==> IdByName(rows, seeds[k].name).Some?
    ensures Seeded(rows, seeds) == rows
  {
    if seeds != [] {
      var n := |seeds| - 1;
      forall k | 0 <= k < n ensures IdByName(rows, seeds[..n][k].name).Some? {
        assert seeds[..n][k] == seeds[k];
      }
      SeededPresent(rows, seeds[..n]);
    }
  }

  /**
   * The categories seeding should insert: in seed order, each seed whose name
   * is neither in the table nor taken by an earlier seed.
   */
  function Missing(rows: Rows<Category>, seeds: seq<Category>): seq<Category> {
    if seeds == [] then []
    else
      var n := |seeds| - 1;
      Missing(rows, seeds[..n])
        + if IdByName(rows, seeds[n].name).Some? || NamedIn(seeds[..n], seeds[n].name) then [] else [seeds[n]]
  }

  /** Some category in `cs` has this name. */
  predicate NamedIn(cs: seq<Category>, name: string)
    ensures NamedIn(cs, name) <==> exists k :: 0 <= k < |cs| && cs[k].name == name
  {
    cs != [] && (cs[0].name == name || NamedIn(cs[1..], name))
  }

  /** Seeding appends exactly the `Missing` seeds, in order, each with its own limit, type and currency. */
  lemma {:induction false} SeededAppendsMissing(rows: Rows<Category>, seeds: seq<Category>)
    requires ValidRows(rows)
    ensures |Seeded(rows, seeds)| == |rows| + |Missing(rows, seeds)|
    ensures forall j :: 0 <= j < |Missing(rows, seeds)| ==> Seeded(rows, seeds)[|rows| + j].data == Missing(rows, seeds)[j]
  {
    if seeds != [] {
      var n := |seeds| - 1;
      var prev, m := Seeded(rows, seeds[..n]), Missing(rows, seeds[..n]);
      SeededAppendsMissing(rows, seeds[..n]);
      var taken := IdByName(rows, seeds[n].name).Some? || NamedIn(seeds[..n], seeds[n].name);
      SeededTakes(rows, seeds[..n], prev, m, seeds[n].name);
      AddedMissing(rows, prev, m, seeds[n], taken);
      assert Missing(rows, seeds) == m + if taken then [] else [seeds[n]];
      assert Seeded(rows, seeds) == var a := Added(prev, seeds[n]); if a.Err? then prev else a.value;
    }
  }

  /** One seeding step keeps the appended rows equal to the `Missing` seeds. */
  lemma {:induction false} AddedMissing(rows: Rows<Category>, prev: Rows<Category>, m: seq<Category>, c: Category, taken: bool)
    requires ValidRows(prev) && |prev| == |rows| + |m|
    requires forall j :: 0 <= j < |m| ==> prev[|rows| + j].data == m[j]
    requires IdByName(prev, c.name).Some? <==> taken
    ensures var a := Added(prev, c); var r := if a.Err? then prev else a.value;
      var m' := m + if taken then [] else [c];
      |r| == |rows| + |m'| && forall j :: 0 <= j < |m'| ==> r[|rows| + j].data == m'[j]
  {
  }

  /** After seeding `earlier`, a name is found exactly when it is in the table or is one of those seeds' names. */
  lemma {:induction false} SeededTakes(rows: Rows<Category>, earlier: seq<Category>, prev: Rows<Category>, m: seq<Category>, name: string)
    requires ValidRows(rows) && prev == Seeded(rows, earlier) && m == Missing(rows, earlier)
    requires |prev| == |rows| + |m| && forall j :: 0 <= j < |m| ==> prev[|rows| + j].data == m[j]
    ensures IdByName(prev, name).Some? <==> IdByName(rows, name).Some? || NamedIn(earlier, name)
  {
    if IdByName(rows, name).Some? {
      IdByNameExtended(rows, prev, name);
    } else if NamedIn(earlier, name) {
      var k :| 0 <= k < |earlier| && earlier[k].name == name;
      SeededHasSeed(rows, earlier, k);
    } else if IdByName(prev, name).Some? {
      forall j | 0 <= j < |m| ensures exists k :: 0 <= k < |earlier| && earlier[k] == m[j] {
        MissingFromSeeds(rows, earlier, j);
      }
      FoundIsTaken(rows, prev, m, earlier, |earlier|, name);
    }
  }

  /** A name found after seeding the first `n` seeds is in the table or is one of those seeds' names. */
  lemma {:induction false} FoundIsTaken(rows: Rows<Category>, prev: Rows<Category>, m: seq<Category>, seeds: seq<Category>, n: nat, name: string)
    requires n <= |seeds| && |prev| == |rows| + |m| && prev[..|rows|] == rows
    requires forall j :: 0 <= j < |m| ==> prev[|rows| + j].data == m[j]
    requires forall j :: 0 <= j < |m| ==> exists k :: 0 <= k < n && seeds[k] == m[j]
    requires IdByName(prev, name).Some?
    ensures IdByName(rows, name).Some? || exists k :: 0 <= k < n && seeds[k].name == name
  {
    var i :| 0 <= i < |prev| && prev[i].data.name == name;
    if i < |rows| {
      assert rows[i] == prev[i];
    } else {
      assert prev[|rows| + (i - |rows|)].data == m[i - |rows|];
    }
  }

  /** Every `Missing` category is one of the seeds. */
  lemma {:induction false} MissingFromSeeds(rows: Rows<Category>, seeds: seq<Category>, j: nat)
    requires j < |Missing(rows, seeds)|
    ensures exists k :: 0 <= k < |seeds| && seeds[k] == Missing(rows, seeds)[j]
  {
    var n := |seeds| - 1;
    if j < |Missing(rows, seeds[..n])| {
      MissingFromSeeds(rows, seeds[..n], j);
      var k :| 0 <= k < n && seeds[..n][k] == Missing(rows, seeds[..n])[j];
      assert seeds[k] == Missing(rows, seeds)[j];
    } else {
      assert seeds[n] == Missing(rows, seeds)[j];
    }
  }

  /** `add_categories` is idempotent: a second call leaves the table as the first left it. */
  lemma SeededIdempotent(rows: Rows<Category>, seeds: seq<Category>)
    requires ValidRows(rows)
    ensures Seeded(Seeded(rows, seeds), seeds) == Seeded(rows, seeds)
  {
    SeededHasSeeds(rows, seeds);
    SeededPresent(Seeded(rows, seeds), seeds);
  }

  method AddCategories(db: Database)
    requires db.Valid()
    modifies db
    ensures db.Valid()
    ensures db.Snap() == old(db.Snap()).(categories := Seeded(old(db.categories), Seeds))
  {
    AddEach(db, Seeds);
  }

  /** The loop of `add_categories`: one `add_category` per seed, in order. */
  method AddEach(db: Database, seeds: seq<Category>)
    requires db.Valid()
    modifies db
    ensures db.Valid()
    ensures db.Snap() == old(db.Snap()).(categories := Seeded(old(db.categories), seeds))
  {
    var i := 0;
    while i < |seeds|
      invariant 0 <= i <= |seeds|
      invariant db.Valid()
      invariant db.Snap() == old(db.Snap()).(categories := Seeded(old(db.categories), seeds[..i]))
    {
      SeededSnoc(old(db.categories), seeds, i);
      var _ := AddCategory(db, seeds[i].name, seeds[i].limitAmount, seeds[i].kind, seeds[i].currency);
      i := i + 1;
    }
    assert seeds[..|seeds|] == seeds;
  }

  lemma SeededSnoc(rows: Rows<Category>, seeds: seq<Category>, i: nat)
    requires ValidRows(rows) && i < |seeds|
    ensures var prev := Seeded(rows, seeds[..i]);
      var a := Added(prev, seeds[i]);
      Seeded(rows, seeds[..i + 1]) == if a.Err? then prev else a.value
  {
    assert seeds[..i + 1][..i] == seeds[..i];
  }
}
