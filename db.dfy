/**
 * Database bootstrap (backend/db.py): the core-table probe, the one-time
 * schema run, and the profile migration, which grows the profile table's
 * column set through guarded `ALTER TABLE ... ADD COLUMN` statements.
 *
 * A column added with a DEFAULT reads as that default in every existing row;
 * one added without reads as NULL. The schema script itself is a parameter
 * (`Schema`): the tables it creates with `IF NOT EXISTS` and the columns its
 * profile table starts with.
 */
module Db {
  import opened Wrappers
  import opened Values
  import opened Store
  import opened Profiles

  /** `_has_core_tables`: both `expense` and `wallet` exist; a failing catalog query answers false. */
  function HasCoreTables(catalog: Result<set<string>>): (b: bool)
    ensures b ==> catalog.Ok?
    ensures catalog.Ok? ==> (b <==> "expense" in catalog.value && "wallet" in catalog.value)
  {
    match catalog
    case Ok(tables) => "expense" in tables && "wallet" in tables
    case Err(_) => false
  }

  // ---------------------------------------------------------------------
  // migrate_profile_schema

  /** Every existing row gains column `col` reading `v`. */
  function WithDefault(rows: Rows<Profile>, col: string, v: Value): (r: Rows<Profile>)
    ensures |r| == |rows| && Ids(r) == Ids(rows)
    ensures forall i :: 0 <= i < |rows| ==> r[i] == Row(rows[i].id, rows[i].data[col := v])
    ensures ValidRows(rows) ==> ValidRows(r)
  {
    seq(|rows|, i requires 0 <= i < |rows| => Row(rows[i].id, rows[i].data[col := v]))
  }

  /**
   * One guarded `ALTER TABLE profile ADD COLUMN col ... DEFAULT v` (`v` is NULL
   * for a column declared without a DEFAULT): existing rows read `v`, and so
   * will the rows inserted later without a value for `col`.
   */
  function Added(s: Snapshot, col: string, v: Value): (t: Snapshot)
    ensures t.profileColumns == s.profileColumns + {col}
    ensures t == s.(profiles := t.profiles, profileColumns := t.profileColumns, profileDefaults := t.profileDefaults)
    ensures col in s.profileColumns ==> t == s
    ensures col !in s.profileColumns ==> t.profileDefaults == s.profileDefaults[col := v]
    ensures |t.profiles| == |s.profiles| && Ids(t.profiles) == Ids(s.profiles)
    ensures ValidSnapshot(s) ==> ValidSnapshot(t)
  {
    if col in s.profileColumns then s
    else s.(profileColumns := s.profileColumns + {col}, profileDefaults := s.profileDefaults[col := v],
            profiles := WithDefault(s.profiles, col, v))
  }

  /** Whether the backfill UPDATE's WHERE clause selects a row. */
  predicate NeedsBackfill(p: Profile) {
    var hash := Column(p, "password_hash");
    var backup := Column(p, "backup_password");
    (hash == VNone || hash == VStr("")) && backup != VNone && backup != VStr("")
  }

  /** `SET password_hash = COALESCE(password_hash, backup_password)` on one row. */
  function BackfilledRow(p: Profile): (q: Profile)
    ensures !NeedsBackfill(p) ==> q == p
  {
    if NeedsBackfill(p) then
      var hash := Column(p, "password_hash");
      p["password_hash" := if hash == VNone then Column(p, "backup_password") else hash]
    else p
  }

  function Backfilled(rows: Rows<Profile>): (r: Rows<Profile>)
    ensures |r| == |rows| && Ids(r) == Ids(rows)
    ensures forall i :: 0 <= i < |rows| ==> r[i] == Row(rows[i].id, BackfilledRow(rows[i].data))
    ensures ValidRows(rows) ==> ValidRows(r)
  {
    seq(|rows|, i requires 0 <= i < |rows| => Row(rows[i].id, BackfilledRow(rows[i].data)))
  }

  /** The Security step: the hash column, and the backfill only in the run that adds it. */
  function SecurityStep(s: Snapshot): (t: Snapshot)
    ensures t.profileColumns == s.profileColumns + {"password_hash"}
    ensures t == s.(profiles := t.profiles, profileColumns := t.profileColumns, profileDefaults := t.profileDefaults)
    ensures |t.profiles| == |s.profiles| && Ids(t.profiles) == Ids(s.profiles)
    ensures ValidSnapshot(s) ==> ValidSnapshot(t)
    ensures "password_hash" in s.profileColumns ==> t == s
  {
    if "password_hash" in s.profileColumns then s
    else
      var u := Added(s, "password_hash", VNone);
      if "backup_password" in u.profileColumns then u.(profiles := Backfilled(u.profiles)) else u
  }

  /** The columns the migration guarantees. */
  const MigratedColumns: set<string> :=
    {"photo_path", "monthly_budget", "main_wallet_id", "skip_months", "password_hash", "export_format", "updated_at"}

  /** `migrate_profile_schema` on a store whose profile table exists. */
  function Migrated(s: Snapshot): (t: Snapshot)
    ensures t == s.(profiles := t.profiles, profileColumns := t.profileColumns, profileDefaults := t.profileDefaults)
    ensures |t.profiles| == |s.profiles| && Ids(t.profiles) == Ids(s.profiles)
    ensures ValidSnapshot(s) ==> ValidSnapshot(t)
  {
    Bookkeeping(SecurityStep(Preferences(s)))
  }

  /** The User and Preferences blocks. */
  function Preferences(s: Snapshot): (t: Snapshot)
    ensures t.profileColumns == s.profileColumns + {"photo_path", "monthly_budget", "main_wallet_id", "skip_months"}
    ensures t == s.(profiles := t.profiles, profileColumns := t.profileColumns, profileDefaults := t.profileDefaults)
    ensures |t.profiles| == |s.profiles| && Ids(t.profiles) == Ids(s.profiles)
    ensures ValidSnapshot(s) ==> ValidSnapshot(t)
  {
    var s1 := Added(s, "photo_path", VNone);
    var s2 := Added(s1, "monthly_budget", VFloat(Decimal(0, 0)));
    var s3 := Added(s2, "main_wallet_id", VNone);
    Added(s3, "skip_months", VStr("[]"))
  }

  /** The Export and Bookkeeping blocks. */
  function Bookkeeping(s: Snapshot): (t: Snapshot)
    ensures t.profileColumns == s.profileColumns + {"export_format", "updated_at"}
    ensures t == s.(profiles := t.profiles, profileColumns := t.profileColumns, profileDefaults := t.profileDefaults)
    ensures |t.profiles| == |s.profiles| && Ids(t.profiles) == Ids(s.profiles)
    ensures ValidSnapshot(s) ==> ValidSnapshot(t)
  {
    Added(Added(s, "export_format", VStr("CSV")), "updated_at", VNone)
  }

  /** After the migration the profile table has every column it adds, and no column is dropped. */
  lemma MigratedHasColumns(s: Snapshot)
    ensures Migrated(s).profileColumns == s.profileColumns + MigratedColumns
  {
  }

  /** A second migration changes nothing: every ALTER is guarded by the column's presence. */
  lemma MigrateIdempotent(s: Snapshot)
    ensures Migrated(Migrated(s)) == Migrated(s)
  {
    var t := Migrated(s);
    MigratedHasColumns(s);
    assert "password_hash" in t.profileColumns;
    assert SecurityStep(t) == t;
  }

  /** Adding one column leaves every other column of every row as it was. */
  lemma AddedKeeps(s: Snapshot, col: string, v: Value, k: string, i: nat)
    requires k != col && i < |s.profiles|
    ensures Column(Added(s, col, v).profiles[i].data, k) == Column(s.profiles[i].data, k)
  {
  }

  /** A store that already has `password_hash` keeps every stored hash. */
  lemma NoBackfillWhenPresent(s: Snapshot, i: nat)
    requires "password_hash" in s.profileColumns && i < |s.profiles|
    ensures Column(Migrated(s).profiles[i].data, "password_hash") == Column(s.profiles[i].data, "password_hash")
  {
    var k := "password_hash";
    var s1 := Added(s, "photo_path", VNone);
    var s2 := Added(s1, "monthly_budget", VFloat(Decimal(0, 0)));
    var s3 := Added(s2, "main_wallet_id", VNone);
    var s4 := Added(s3, "skip_months", VStr("[]"));
    var s6 := Added(SecurityStep(s4), "export_format", VStr("CSV"));
    AddedKeeps(s, "photo_path", VNone, k, i);
    AddedKeeps(s1, "monthly_budget", VFloat(Decimal(0, 0)), k, i);
    AddedKeeps(s2, "main_wallet_id", VNone, k, i);
    AddedKeeps(s3, "skip_months", VStr("[]"), k, i);
    AddedKeeps(s4, "export_format", VStr("CSV"), k, i);
    AddedKeeps(s6, "updated_at", VNone, k, i);
  }

  /** The hash the Security step leaves in row `i` when it adds the column beside `backup_password`. */
  lemma SecurityBackfills(s: Snapshot, i: nat)
    requires "password_hash" !in s.profileColumns && "backup_password" in s.profileColumns
    requires i < |s.profiles|
    ensures var b := Column(s.profiles[i].data, "backup_password");
      Column(SecurityStep(s).profiles[i].data, "password_hash") == if b != VNone && b != VStr("") then b else VNone
  {
    var u := Added(s, "password_hash", VNone);
    AddedKeeps(s, "password_hash", VNone, "backup_password", i);
    assert Column(u.profiles[i].data, "password_hash") == VNone;
  }

  /**
   * In the run that adds `password_hash`, with `backup_password` present, each
   * row's new hash is its backup when the backup is neither NULL nor empty,
   * and NULL otherwise.
   */
  lemma BackfillFromBackup(s: Snapshot, i: nat)
    requires "password_hash" !in s.profileColumns && "backup_password" in s.profileColumns
    requires i < |s.profiles|
    ensures var b := Column(s.profiles[i].data, "backup_password");
      Column(Migrated(s).profiles[i].data, "password_hash") == if b != VNone && b != VStr("") then b else VNone
  {
    var k := "backup_password";
    var s1 := Added(s, "photo_path", VNone);
    var s2 := Added(s1, "monthly_budget", VFloat(Decimal(0, 0)));
    var s3 := Added(s2, "main_wallet_id", VNone);
    var s4 := Added(s3, "skip_months", VStr("[]"));
    var s5 := SecurityStep(s4);
    var s6 := Added(s5, "export_format", VStr("CSV"));
    AddedKeeps(s, "photo_path", VNone, k, i);
    AddedKeeps(s1, "monthly_budget", VFloat(Decimal(0, 0)), k, i);
    AddedKeeps(s2, "main_wallet_id", VNone, k, i);
    AddedKeeps(s3, "skip_months", VStr("[]"), k, i);
    SecurityBackfills(s4, i);
    AddedKeeps(s5, "export_format", VStr("CSV"), "password_hash", i);
    AddedKeeps(s6, "updated_at", VNone, "password_hash", i);
  }

  /** The migration as a method: the local column set mirrors the table's columns as it goes. */
  method MigrateProfileSchema(db: Database) returns (r: Result<()>)
    requires db.Valid()
    modifies db
    ensures db.Valid()
    ensures "profile" in old(db.tables) ==> r.Ok? && db.Snap() == Migrated(old(db.Snap()))
    ensures "profile" !in old(db.tables) ==> r.Err? && db.Snap() == old(db.Snap())
  {
    if "profile" !in db.tables {
      return Err(OperationalError("no such table: profile"));
    }
    var existing := db.profileColumns;
    AddPreferences(db, existing);
    existing := AddSecurity(db, existing);
    AddBookkeeping(db, existing);
    r := Ok(());
  }

  /** The User and Preferences blocks, guarded by the column set read at the start. */
  method AddPreferences(db: Database, existing: set<string>)
    requires db.Valid() && existing == db.profileColumns
    modifies db
    ensures db.Valid()
    ensures db.Snap() == Preferences(old(db.Snap()))
  {
    ghost var s0 := db.Snap();
    AddIfMissing(db, existing, "photo_path", VNone);
    ghost var s1 := db.Snap();
    AddIfMissing(db, existing, "monthly_budget", VFloat(Decimal(0, 0)));
    ghost var s2 := db.Snap();
    AddIfMissing(db, existing, "main_wallet_id", VNone);
    ghost var s3 := db.Snap();
    AddIfMissing(db, existing, "skip_months", VStr("[]"));
    assert s1 == Added(s0, "photo_path", VNone);
    assert s2 == Added(s1, "monthly_budget", VFloat(Decimal(0, 0)));
    assert s3 == Added(s2, "main_wallet_id", VNone);
  }

  /** The Export and Bookkeeping blocks, guarded by the local column set. */
  method AddBookkeeping(db: Database, existing: set<string>)
    requires db.Valid()
    requires "export_format" in existing <==> "export_format" in db.profileColumns
    requires "updated_at" in existing <==> "updated_at" in db.profileColumns
    modifies db
    ensures db.Valid()
    ensures db.Snap() == Bookkeeping(old(db.Snap()))
  {
    AddIfMissing(db, existing, "export_format", VStr("CSV"));
    AddIfMissing(db, existing, "updated_at", VNone);
  }

  /** The Security block: adds `password_hash` to the local set too, and backfills when `backup_password` is there. */
  method AddSecurity(db: Database, existing: set<string>) returns (existing': set<string>)
    requires db.Valid()
    requires "password_hash" in existing <==> "password_hash" in db.profileColumns
    requires "backup_password" in existing <==> "backup_password" in db.profileColumns
    modifies db
    ensures db.Valid()
    ensures existing' == existing + {"password_hash"}
    ensures db.Snap() == SecurityStep(old(db.Snap()))
  {
    existing' := existing;
    if "password_hash" !in existing' {
      AddColumn(db, "password_hash", VNone);
      existing' := existing' + {"password_hash"};
      if "backup_password" in existing' {
        db.profiles := Backfilled(db.profiles);
      }
    }
  }

  /** `if col not in existing_cols: add(...)`, where the local set still agrees with the table on `col`. */
  method AddIfMissing(db: Database, existing: set<string>, col: string, v: Value)
    requires db.Valid() && (col in existing <==> col in db.profileColumns)
    modifies db
    ensures db.Valid()
    ensures db.Snap() == Added(old(db.Snap()), col, v)
  {
    if col !in existing {
      AddColumn(db, col, v);
    }
  }

  method AddColumn(db: Database, col: string, v: Value)
    requires db.Valid() && col !in db.profileColumns
    modifies db
    ensures db.Valid()
    ensures db.Snap() == Added(old(db.Snap()), col, v)
  {
    db.profiles := WithDefault(db.profiles, col, v);
    db.profileColumns := db.profileColumns + {col};
    db.profileDefaults := db.profileDefaults[col := v];
  }

  // ---------------------------------------------------------------------
  // initialize_database

  /**
   * What `schema.sql` creates: its tables (all `IF NOT EXISTS`), the profile
   * table's initial columns and their DEFAULTs.
   */
  datatype Schema = Schema(tables: set<string>, profileColumns: set<string>, profileDefaults: Profile)

  /** `executescript(schema)`: missing tables appear, existing ones are untouched. */
  function ScriptRun(s: Snapshot, schema: Schema): (t: Snapshot)
    ensures t.tables == s.tables + schema.tables
    ensures "profile" in s.tables ==> t.profileColumns == s.profileColumns && t.profileDefaults == s.profileDefaults
  {
    var creates := "profile" !in s.tables && "profile" in schema.tables;
    s.(tables := s.tables + schema.tables,
       profileColumns := if creates then schema.profileColumns else s.profileColumns,
       profileDefaults := if creates then schema.profileDefaults else s.profileDefaults)
  }

  /**
   * `initialize_database`: nothing happens when the core tables exist; otherwise
   * the schema runs (a missing schema file raises) and the migration follows,
   * its failure swallowed.
   */
  function Initialized(s: Snapshot, schema: Option<Schema>): (r: Result<Snapshot>)
    ensures HasCoreTables(Ok(s.tables)) ==> r == Ok(s)
    ensures r.Err? <==> !HasCoreTables(Ok(s.tables)) && schema.None?
  {
    if HasCoreTables(Ok(s.tables)) then Ok(s)
    else match schema
      case None => Err(FileNotFound("backend/schema.sql"))
      case Some(sc) =>
        var t := ScriptRun(s, sc);
        Ok(if "profile" in t.tables then Migrated(t) else t)
  }

  /** A schema that creates the core tables leaves a store with them, and a migrated profile table. */
  lemma InitializeCreates(s: Snapshot, sc: Schema)
    requires "expense" in sc.tables && "wallet" in sc.tables
    ensures Initialized(s, Some(sc)).Ok?
    ensures var t := Initialized(s, Some(sc)).value;
      HasCoreTables(Ok(t.tables)) && s.tables <= t.tables
      && ("profile" in sc.tables && !HasCoreTables(Ok(s.tables)) ==> MigratedColumns <= t.profileColumns)
  {
    if !HasCoreTables(Ok(s.tables)) {
      MigratedHasColumns(ScriptRun(s, sc));
    }
  }

  /** Running the initializer twice is the same as once. */
  lemma InitializeIdempotent(s: Snapshot, sc: Schema)
    requires "expense" in sc.tables && "wallet" in sc.tables
    ensures Initialized(Initialized(s, Some(sc)).value, Some(sc)) == Initialized(s, Some(sc))
  {
    InitializeCreates(s, sc);
  }

  method InitializeDatabase(db: Database, schema: Option<Schema>) returns (r: Result<()>)
    requires db.Valid()
    modifies db
    ensures db.Valid()
    ensures r.Ok? <==> Initialized(old(db.Snap()), schema).Ok?
    ensures r.Ok? ==> db.Snap() == Initialized(old(db.Snap()), schema).value
    ensures r.Err? ==> db.Snap() == old(db.Snap())
  {
    if HasCoreTables(Ok(db.tables)) {
      return Ok(());
    }
    match schema
    case None =>
      return Err(FileNotFound("backend/schema.sql"));
    case Some(sc) =>
      var t := ScriptRun(db.Snap(), sc);
      db.tables, db.profileColumns, db.profileDefaults := t.tables, t.profileColumns, t.profileDefaults;
      var _ := MigrateProfileSchema(db);
      r := Ok(());
  }
}
