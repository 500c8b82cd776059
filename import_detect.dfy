/**
 * The importer's entry point: the JSON readers (`_read_json_single_file`,
 * `_read_json_zip`), the database reader (`_read_db_copy`), and
 * `import_all_from_path`, which detects the kind of file, reads it with the
 * matching reader, normalizes the tables and, unless it is a dry run, merges
 * them into the store.
 *
 * A file is given as what each reader would see in it: its rows as the csv
 * module splits them, its JSON document once decoded, its members when it is
 * a zip archive, and its tables when SQLite opens it.
 */
module ImportDetect {
  import opened Wrappers
  import opened Text
  import opened Values
  import opened ImportSchema
  import CsvImport
  import Export
  import Store
  import ImportApply

  // ---------------------------------------------------------------------
  // JSON readers

  /** `[_normalize_dict(d) for d in val if isinstance(d, dict)]`: the object items, in order. */
  function DictItems(items: seq<RawRow>): (rows: seq<RawRow>)
    ensures forall r :: r in rows ==> r.RDict? && r in items
    ensures forall r :: r in items && r.RDict? ==> r in rows
  {
    if items == [] then []
    else (if items[0].RDict? then [items[0]] else []) + DictItems(items[1..])
  }

  /** A list of objects is kept whole and in order. */
  lemma {:induction false} DictItemsOfDicts(items: seq<RawRow>)
    requires forall r :: r in items ==> r.RDict?
    ensures DictItems(items) == items
  {
    if items != [] {
      var rest := items[1..];
      assert items[0] in items;
      forall r | r in rest ensures r.RDict? {
        assert r in items;
      }
      DictItemsOfDicts(rest);
      assert DictItems(items) == [items[0]] + DictItems(rest);
      assert [items[0]] + rest == items;
    }
  }

  /** One table of the `"tables"` object: its objects when it is a list, otherwise none. */
  function JsonTableRows(src: map<string, Json>, t: Table): seq<RawRow> {
    var name := TableName(t);
    if name in src && src[name].JList? then DictItems(src[name].items) else []
  }

  const NoGet := AttributeError("object has no attribute 'get'")
  const NotJson := ValueError("Expecting value")

  /**
   * `_read_json_single_file` on the decoded document (`None`: the file is not JSON).
   * A document that is not an object, or whose `"tables"` is not an object, fails on `.get`.
   */
  function ReadJsonDocument(doc: Option<Json>): (r: Result<RawTables>)
    ensures doc.None? ==> r == Err(NotJson)
    ensures doc.Some? && !doc.value.JObject? ==> r == Err(NoGet)
    ensures r.Ok? ==> forall t: Table :: t in r.value && forall x :: x in r.value[t] ==> x.RDict?
  {
    match doc
    case None => Err(NotJson)
    case Some(JObject(m)) =>
      var src := if "tables" in m then m["tables"] else JObject(map[]);
      if src.JObject? then Ok(AllTables(JsonReader(src.members))) else Err(NoGet)
    case Some(_) => Err(NoGet)
  }

  function JsonReader(src: map<string, Json>): Table -> seq<RawRow> {
    t => JsonTableRows(src, t)
  }

  /** `_read_json_single_file`: the loop over the tables. */
  method ReadJsonSingleFile(doc: Option<Json>) returns (r: Result<RawTables>)
    ensures r == ReadJsonDocument(doc)
  {
    if doc.None? {
      return Err(NotJson);
    }
    var payload := doc.value;
    if !payload.JObject? {
      return Err(NoGet);
    }
    var src := if "tables" in payload.members then payload.members["tables"] else JObject(map[]);
    if !src.JObject? {
      return Err(NoGet);
    }
    var tables: RawTables := map[];
    var k := 0;
    while k < |ImportTables|
      invariant 0 <= k <= |ImportTables|
      invariant forall t: Table :: (t in tables <==> TableIndex(t) < k)
      invariant forall t: Table :: t in tables ==> tables[t] == JsonTableRows(src.members, t)
    {
      var table := ImportTables[k];
      var val := if TableName(table) in src.members then src.members[TableName(table)] else JList([]);
      var rows: seq<RawRow> := [];
      if val.JList? {
        rows := DictItems(val.items);
      }
      tables := tables[table := rows];
      k := k + 1;
    }
    TablesExt(tables, AllTables(JsonReader(src.members)));
    r := Ok(tables);
  }

  /** One table of a JSON zip: `<table>.json` when present and a list, else none; `Err` when it is not JSON. */
  function ZipJsonRows(members: map<string, Option<Json>>, t: Table): Result<seq<RawRow>> {
    var name := TableName(t) + ".json";
    if name !in members then Ok([])
    else
      match members[name]
      case None => Err(NotJson)
      case Some(JList(items)) => Ok(DictItems(items))
      case Some(_) => Ok([])
  }

  function ZipJsonReader(members: map<string, Option<Json>>): Table -> seq<RawRow> {
    t => OkOrEmpty(ZipJsonRows(members, t))
  }

  function OkOrEmpty(r: Result<seq<RawRow>>): seq<RawRow> {
    if r.Ok? then r.value else []
  }

  /** A table member the decoder refuses, among the tables before the `k`-th. */
  predicate BrokenBefore(members: map<string, Option<Json>>, k: nat) {
    exists t: Table :: TableIndex(t) < k && ZipJsonRows(members, t).Err?
  }

  /** `_read_json_zip` on the decoded members (`None`: a member that is not JSON). */
  function ReadJsonZipMembers(members: map<string, Option<Json>>): (r: Result<RawTables>)
    ensures r.Err? <==> exists t: Table :: ZipJsonRows(members, t).Err?
    ensures r.Ok? ==> forall t: Table :: t in r.value && Ok(r.value[t]) == ZipJsonRows(members, t)
  {
    if exists t: Table :: ZipJsonRows(members, t).Err? then Err(NotJson)
    else Ok(AllTables(ZipJsonReader(members)))
  }

  /** `_read_json_zip`: the loop over the tables; the first undecodable member raises. */
  method ReadJsonZip(members: map<string, Option<Json>>) returns (r: Result<RawTables>)
    ensures r == ReadJsonZipMembers(members)
  {
    var tables: RawTables := map[];
    var k := 0;
    while k < |ImportTables|
      invariant 0 <= k <= |ImportTables|
      invariant ZipJsonUpTo(members, tables, k)
    {
      var table := ImportTables[k];
      var read := ZipJsonRows(members, table);
      if read.Err? {
        ZipJsonBroken(members, table);
        return Err(NotJson);
      }
      ZipJsonStep(members, tables, k);
      tables := tables[table := read.value];
      k := k + 1;
    }
    ZipJsonAll(members, tables);
    r := Ok(tables);
  }

  /** The `_read_json_zip` loop after `k` tables: none refused so far, and exactly those read. */
  ghost predicate ZipJsonUpTo(members: map<string, Option<Json>>, tables: RawTables, k: nat) {
    && !BrokenBefore(members, k)
    && forall t: Table :: (t in tables <==> TableIndex(t) < k) && (t in tables ==> Ok(tables[t]) == ZipJsonRows(members, t))
  }

  lemma ZipJsonStep(members: map<string, Option<Json>>, tables: RawTables, k: nat)
    requires k < |ImportTables| && ZipJsonUpTo(members, tables, k)
    requires ZipJsonRows(members, ImportTables[k]).Ok?
    ensures ZipJsonUpTo(members, tables[ImportTables[k] := ZipJsonRows(members, ImportTables[k]).value], k + 1)
  {
    var table := ImportTables[k];
    forall t: Table ensures TableIndex(t) == k <==> t == table {
      TableAt(k);
    }
  }

  lemma ZipJsonBroken(members: map<string, Option<Json>>, t: Table)
    requires ZipJsonRows(members, t).Err?
    ensures ReadJsonZipMembers(members) == Err(NotJson)
  {
  }

  lemma ZipJsonAll(members: map<string, Option<Json>>, tables: RawTables)
    requires ZipJsonUpTo(members, tables, |ImportTables|)
    ensures ReadJsonZipMembers(members) == Ok(tables)
  {
    var all := AllTables(ZipJsonReader(members));
    forall t: Table ensures t in tables && t in all && tables[t] == all[t] {
      assert TableIndex(t) < |ImportTables|;
    }
    TablesExt(tables, all);
  }

  // ---------------------------------------------------------------------
  // The database reader

  /** One table of `_read_db_copy`: a dict per row, keyed by the columns; none when the table is missing. */
  function DbRows(db: Export.Db, t: Table): (rows: seq<RawRow>)
    requires Export.WellFormedDb(db)
    ensures forall r :: r in rows ==> r.RDict?
  {
    CsvImport.AsRows(Export.TableDicts(Export.FetchOf(db, t)))
  }

  /** `_read_db_copy`: every import table, read as `DbRows`. */
  function DbTables(db: Export.Db): (r: RawTables)
    requires Export.WellFormedDb(db)
    ensures forall t: Table :: t in r && r[t] == DbRows(db, t)
  {
    AllTables(DbReader(db))
  }

  function DbReader(db: Export.Db): Table -> seq<RawRow>
    requires Export.WellFormedDb(db)
  {
    t => DbRows(db, t)
  }

  lemma DbRowsOf(db: Export.Db, t: Table)
    requires Export.WellFormedDb(db)
    ensures RowsOf(DbTables(db), t) == DbRows(db, t)
    ensures Export.FetchOf(db, t).cols == [] ==> DbRows(db, t) == []
  {
  }

  /** `_read_db_copy`: the loop over the tables, skipping those without columns. */
  method ReadDbCopy(db: Export.Db) returns (tables: RawTables)
    requires Export.WellFormedDb(db)
    ensures tables == DbTables(db)
  {
    tables := NoTables();
    ReadUpToNone(DbTables(db));
    var k := 0;
    while k < |ImportTables|
      invariant 0 <= k <= |ImportTables|
      invariant ReadUpTo(tables, DbTables(db), k)
    {
      tables := ReadDbTable(db, tables, k);
      k := k + 1;
    }
    ReadUpToAll(tables, DbTables(db));
  }

  /** One pass of the `_read_db_copy` loop: a table with columns replaces its empty entry. */
  method ReadDbTable(db: Export.Db, tables: RawTables, k: nat) returns (tables': RawTables)
    requires Export.WellFormedDb(db) && k < |ImportTables| && ReadUpTo(tables, DbTables(db), k)
    ensures ReadUpTo(tables', DbTables(db), k + 1)
  {
    var t := ImportTables[k];
    var f := Export.FetchOf(db, t);
    ReadUpToStep(tables, DbTables(db), k);
    DbRowsOf(db, t);
    tables' := tables;
    if f.cols != [] {
      var dicts := Export.RowsToDicts(f);
      tables' := tables[t := CsvImport.AsRows(dicts)];
    }
  }

  // ---------------------------------------------------------------------
  // Detection

  /** The kinds `import_all_from_path` reports. */
  datatype Kind = DbFile | ZipCsv | ZipJson | CsvFile | JsonFile

  function KindName(k: Kind): string {
    match k
    case DbFile => "db"
    case ZipCsv => "zip-csv"
    case ZipJson => "zip-json"
    case CsvFile => "csv"
    case JsonFile => "json"
  }

  /** One file's bytes as the readers take them: split as CSV, and decoded as JSON (`None`: not JSON). */
  datatype Content = Content(rows: seq<seq<string>>, json: Option<Json>)

  /**
   * What the importer can learn about the file at a path: whether it exists, its
   * content, its members when it is a zip archive, and its tables when SQLite
   * opens it (`None`: not a database).
   */
  datatype FileView = FileView(present: bool, content: Content, zip: Option<map<string, Content>>, database: Option<Export.Db>)

  /** Every table SQLite hands back has one value per column. */
  predicate ValidView(file: FileView) {
    file.database.Some? ==> Export.WellFormedDb(file.database.value)
  }

  /** `any(n.endswith(ext) for n in {n.lower() for n in zf.namelist()})` */
  predicate HasMemberEnding(members: map<string, Content>, ext: string) {
    exists n :: n in members && EndsWith(Lower(n), ext)
  }

  /** The zip's members split as CSV. */
  function CsvMembers(members: map<string, Content>): map<string, seq<seq<string>>> {
    map n | n in members :: members[n].rows
  }

  /** The zip's members decoded as JSON. */
  function JsonMembers(members: map<string, Content>): map<string, Option<Json>> {
    map n | n in members :: members[n].json
  }

  const NotADatabase := DatabaseError("file is not a database")
  const NoDataInZip := ValueError("ZIP does not contain expected .csv or .json files.")

  /** `_read_db_copy` on a file that may not be a database. */
  function ReadDatabase(file: FileView): Result<RawTables>
    requires ValidView(file)
  {
    match file.database
    case Some(db) => Ok(DbTables(db))
    case None => Err(NotADatabase)
  }

  /** The kind `import_all_from_path` detects for `path`, and the tables its reader returns. */
  function Load(path: string, file: FileView): (r: Result<(Kind, RawTables)>)
    requires ValidView(file)
    ensures r.Err? && r.error.FileNotFound? <==> path == "" || !file.present
  {
    if path == "" || !file.present then Err(FileNotFound("File not found: " + path))
    else
      var lower := Lower(path);
      if EndsWith(lower, ".db") then
        match ReadDatabase(file)
        case Ok(raw) => Ok((DbFile, raw))
        case Err(e) => Err(e)
      else if file.zip.Some? then LoadZip(file.zip.value)
      else LoadByName(lower, file.content)
  }

  /** A zip archive: CSV members first, then JSON members, else refused. */
  function LoadZip(members: map<string, Content>): (r: Result<(Kind, RawTables)>)
    ensures r.Err? ==> !r.error.FileNotFound?
  {
    if HasMemberEnding(members, ".csv") then Ok((ZipCsv, CsvImport.ZipTables(CsvMembers(members))))
    else if HasMemberEnding(members, ".json") then
      match ReadJsonZipMembers(JsonMembers(members))
      case Ok(raw) => Ok((ZipJson, raw))
      case Err(e) => Err(e)
    else Err(NoDataInZip)
  }

  /** A single file, by its lower-cased name: `.csv`, `.json`, or JSON falling back to CSV. */
  function LoadByName(lower: string, content: Content): (r: Result<(Kind, RawTables)>)
    ensures r.Err? ==> !r.error.FileNotFound?
  {
    if EndsWith(lower, ".csv") then Ok((CsvFile, CsvImport.CsvTables(content.rows)))
    else if EndsWith(lower, ".json") then
      match ReadJsonDocument(content.json)
      case Ok(raw) => Ok((JsonFile, raw))
      case Err(e) => Err(e)
    else
      match ReadJsonDocument(content.json)
      case Ok(raw) => Ok((JsonFile, raw))
      case Err(_) => Ok((CsvFile, CsvImport.CsvTables(content.rows)))
  }

  /** The result of `import_all_from_path`: the source, the normalized tables, and, when not a dry run, what `apply_import` returned under `apply_result`. */
  datatype ImportResult = ImportResult(path: string, kind: Kind, tables: Tables, applied: Option<Value>)

  /** `import_all_from_path`: detect, read and normalize; merge into the store unless `dryRun`. */
  method ImportAllFromPath(db: Store.Database, path: string, file: FileView, dryRun: bool, now: string)
    returns (r: Result<ImportResult>)
    requires db.Valid() && ValidView(file)
    modifies db
    ensures db.Valid()
    ensures r.Err? <==> Load(path, file).Err?
    ensures r.Err? ==> r.error == Load(path, file).error && db.Snap() == old(db.Snap())
    ensures r.Ok? ==>
      r.value.path == path && r.value.kind == Load(path, file).value.0
      && r.value.tables == NormalizeTables(Load(path, file).value.1)
    ensures r.Ok? && dryRun ==> r.value.applied == None && db.Snap() == old(db.Snap())
    ensures r.Ok? && !dryRun ==>
      db.Snap() == ImportApply.Applied(old(db.Snap()), r.value.tables, now).s && r.value.applied == Some(VNone)
  {
    var loaded := Load(path, file);
    if loaded.Err? {
      return Err(loaded.error);
    }
    var (kind, raw) := loaded.value;
    var res := ImportLoaded(db, path, kind, raw, dryRun, now);
    r := Ok(res);
  }

  /** The part of `import_all_from_path` after a successful read: normalize, then merge unless `dryRun`. */
  method ImportLoaded(db: Store.Database, path: string, kind: Kind, raw: RawTables, dryRun: bool, now: string)
    returns (res: ImportResult)
    requires db.Valid()
    modifies db
    ensures db.Valid()
    ensures res.path == path && res.kind == kind && res.tables == NormalizeTables(raw)
    ensures dryRun ==> res.applied == None && db.Snap() == old(db.Snap())
    ensures !dryRun ==> db.Snap() == ImportApply.Applied(old(db.Snap()), res.tables, now).s && res.applied == Some(VNone)
  {
    var rows := NormalizeTables(raw);
    var applied: Option<Value> := None;
    if !dryRun {
      var result := ImportApply.ApplyImport(db, rows, now);
      applied := Some(result);
    }
    res := ImportResult(path, kind, rows, applied);
  }

  // ---------------------------------------------------------------------
  // The detection order

  /** A `.db` name is read as a database before anything else, even when the file is a zip archive. */
  lemma DbSuffixFirst(path: string, file: FileView)
    requires ValidView(file) && file.present && EndsWith(Lower(path), ".db")
    ensures Load(path, file) == (match ReadDatabase(file) case Ok(raw) => Ok((DbFile, raw)) case Err(e) => Err(e))
  {
  }

  /** A zip archive is read by its members whatever its name says, unless the name ends in `.db`. */
  lemma ZipBeforeSuffix(path: string, file: FileView)
    requires ValidView(file) && path != "" && file.present && !EndsWith(Lower(path), ".db") && file.zip.Some?
    ensures Load(path, file).Ok? ==> Load(path, file).value.0 in {ZipCsv, ZipJson}
    ensures Load(path, file).Err? <==>
      (!HasMemberEnding(file.zip.value, ".csv")
       && (HasMemberEnding(file.zip.value, ".json") ==> ReadJsonZipMembers(JsonMembers(file.zip.value)).Err?))
  {
  }

  /** A zip with both CSV and JSON members is read as CSV; one with neither is refused. */
  lemma ZipMemberPriority(path: string, file: FileView)
    requires ValidView(file) && path != "" && file.present && !EndsWith(Lower(path), ".db") && file.zip.Some?
    ensures HasMemberEnding(file.zip.value, ".csv") ==> Load(path, file).Ok? && Load(path, file).value.0 == ZipCsv
    ensures !HasMemberEnding(file.zip.value, ".csv") && !HasMemberEnding(file.zip.value, ".json")
      ==> Load(path, file) == Err(NoDataInZip)
  {
  }

  /** Without a known suffix, a file that does not read as the JSON export is read as sectioned CSV. */
  lemma FallbackToCsv(path: string, file: FileView)
    requires ValidView(file) && path != "" && file.present && file.zip.None?
    requires !EndsWith(Lower(path), ".db") && !EndsWith(Lower(path), ".csv") && !EndsWith(Lower(path), ".json")
    ensures Load(path, file).Ok?
    ensures Load(path, file).value.0 == CsvFile <==> ReadJsonDocument(file.content.json).Err?
    ensures ReadJsonDocument(file.content.json).Err? ==>
      Load(path, file).value.1 == CsvImport.CsvTables(file.content.rows)
  {
  }

  /** A name ending in `p` does not end in a suffix whose last character differs. */
  lemma LastCharDiffers(s: string, p: string, q: string)
    requires EndsWith(s, p) && p != [] && q != [] && p[|p| - 1] != q[|q| - 1]
    ensures !EndsWith(s, q)
  {
    assert s[|s| - 1] == s[|s| - |p|..][|p| - 1];
    if |q| <= |s| {
      assert s[|s| - 1] == s[|s| - |q|..][|q| - 1];
    }
  }

  /** Lower-casing keeps a suffix that has no capitals. */
  lemma LowerKeepsSuffix(s: string, suffix: string)
    requires EndsWith(s, suffix) && forall i :: 0 <= i < |suffix| ==> !('A' <= suffix[i] <= 'Z')
    ensures EndsWith(Lower(s), suffix)
  {
    var l := Lower(s);
    forall i | 0 <= i < |suffix| ensures l[|s| - |suffix| + i] == suffix[i] {
      assert s[|s| - |suffix|..][i] == suffix[i];
    }
  }

  /** A file at `path` that is present, not named `.db`, and holds the zip `members`. */
  predicate ZipAt(path: string, file: FileView, members: map<string, Content>) {
    ValidView(file) && path != "" && file.present && !EndsWith(Lower(path), ".db") && file.zip == Some(members)
  }

  /** A zip with a `.csv` member is read by the CSV zip reader. */
  lemma LoadsCsvZip(path: string, file: FileView, members: map<string, Content>)
    requires ZipAt(path, file, members) && HasMemberEnding(members, ".csv")
    ensures Load(path, file) == Ok((ZipCsv, CsvImport.ZipTables(CsvMembers(members))))
  {
  }

  /** A zip with `.json` members and no `.csv` one is read by the JSON zip reader. */
  lemma LoadsJsonZip(path: string, file: FileView, members: map<string, Content>, raw: RawTables)
    requires ZipAt(path, file, members) && !HasMemberEnding(members, ".csv") && HasMemberEnding(members, ".json")
    requires ReadJsonZipMembers(JsonMembers(members)) == Ok(raw)
    ensures Load(path, file) == Ok((ZipJson, raw))
  {
  }

  /** A zip whose only member is `CATEGORY.CSV`. */
  function UpperCaseZip(rows: seq<seq<string>>): map<string, Content> {
    map["CATEGORY.CSV" := Content(rows, None)]
  }

  /** An upper-case `.CSV` name ends in `.csv` once lower-cased. */
  lemma UpperCsvEnding(stem: string, ext: string, csv: string)
    requires ext == ".CSV" && csv == ".csv"
    ensures EndsWith(Lower(stem + ext), csv)
  {
    LowerAppend(stem, ext);
    var l := Lower(ext);
    assert l[0] == csv[0] && l[1] == csv[1] && l[2] == csv[2] && l[3] == csv[3];
    assert l == csv;
    EndsWithAppend(Lower(stem), csv);
  }

  lemma UpperCaseZipHasCsv(rows: seq<seq<string>>)
    ensures HasMemberEnding(UpperCaseZip(rows), ".csv")
  {
    UpperCsvEnding("CATEGORY", ".CSV", ".csv");
    assert "CATEGORY" + ".CSV" == "CATEGORY.CSV";
    assert "CATEGORY.CSV" in UpperCaseZip(rows);
  }

  lemma UpperCaseZipReadsEmpty(rows: seq<seq<string>>, t: Table)
    ensures t in CsvImport.ZipTables(CsvMembers(UpperCaseZip(rows)))
    ensures CsvImport.ZipTables(CsvMembers(UpperCaseZip(rows)))[t] == []
  {
    var m := CsvMembers(UpperCaseZip(rows));
    var name := TableName(t) + ".csv";
    assert name != "CATEGORY.CSV" by {
      assert name[|name| - 1] == 'v';
    }
    assert name !in m;
    CsvImport.ZipRowsOf(m, t);
    TableCase(t);
  }

  /**
   * Detection looks at member names in lower case but the reader opens the exact
   * lower-case name: a zip holding only `CATEGORY.CSV` is taken as a CSV zip and read as empty.
   */
  lemma UppercaseMemberReadsEmpty(path: string, file: FileView, rows: seq<seq<string>>, t: Table)
    requires ZipAt(path, file, UpperCaseZip(rows))
    ensures Load(path, file).Ok? && Load(path, file).value.0 == ZipCsv
    ensures t in Load(path, file).value.1 && Load(path, file).value.1[t] == []
  {
    UpperCaseZipHasCsv(rows);
    LoadsCsvZip(path, file, UpperCaseZip(rows));
    UpperCaseZipReadsEmpty(rows, t);
  }

  // ---------------------------------------------------------------------
  // Reading back what the exporter writes

  /** The single-file JSON export reads back as the database reader reads the same database. */
  lemma JsonDocumentRoundTrip(db: Export.Db, ts: string, source: string)
    requires Export.WellFormedDb(db)
    ensures ReadJsonDocument(Some(Export.JsonPayload(db, ts, source))) == Ok(DbTables(db))
  {
    var p := Export.JsonPayload(db, ts, source);
    Export.JsonPayloadTables(db, ts, source, Category);
    var src := p.members["tables"].members;
    forall t: Table ensures JsonTableRows(src, t) == DbRows(db, t) {
      JsonPayloadRows(db, ts, source, t);
    }
    SameTables(JsonReader(src), DbReader(db));
  }

  /** Each table of the single-file JSON export reads back as the database reader reads it. */
  lemma JsonPayloadRows(db: Export.Db, ts: string, source: string, t: Table)
    requires Export.WellFormedDb(db)
    ensures var p := Export.JsonPayload(db, ts, source);
      p.JObject? && "tables" in p.members && p.members["tables"].JObject?
      && JsonTableRows(p.members["tables"].members, t) == DbRows(db, t)
  {
    Export.JsonPayloadTables(db, ts, source, t);
    DictItemsOfDicts(DbRows(db, t));
  }

  /** Two readers that agree on every table give the same tables. */
  lemma SameTables(a: Table -> seq<RawRow>, b: Table -> seq<RawRow>)
    requires forall t: Table :: a(t) == b(t)
    ensures AllTables(a) == AllTables(b)
  {
    TablesExt(AllTables(a), AllTables(b));
  }

  /** Importing a `.json` file written by the single-file JSON export gives the exported database's tables. */
  lemma JsonExportImported(db: Export.Db, ts: string, source: string, path: string, file: FileView)
    requires Export.WellFormedDb(db) && ValidView(file)
    requires path != "" && file.present && file.zip.None? && EndsWith(path, ".json")
    requires file.content.json == Some(Export.JsonPayload(db, ts, source))
    ensures Load(path, file) == Ok((JsonFile, DbTables(db)))
  {
    LowerKeepsSuffix(path, ".json");
    LastCharDiffers(Lower(path), ".json", ".db");
    LastCharDiffers(Lower(path), ".json", ".csv");
    JsonDocumentRoundTrip(db, ts, source);
  }

  /** An explicit `.json` name is not retried as CSV: a document of the wrong shape fails the import. */
  lemma JsonSuffixNoFallback(path: string, file: FileView)
    requires ValidView(file) && path != "" && file.present && file.zip.None? && EndsWith(Lower(path), ".json")
    requires file.content.json.Some? && file.content.json.value.JList?
    ensures Load(path, file) == Err(NoGet)
  {
    LastCharDiffers(Lower(path), ".json", ".db");
    LastCharDiffers(Lower(path), ".json", ".csv");
  }

  /** The JSON zip export's members, each decoded as written. */
  predicate HoldsJsonZip(members: map<string, Content>, db: Export.Db, ts: string, source: string)
    requires Export.WellFormedDb(db)
  {
    var written := Export.JsonZip(db, ts, source);
    members.Keys == written.Keys && forall n :: n in members ==> members[n].json == Some(written[n])
  }

  lemma JsonZipNameSuffix(db: Export.Db, ts: string, source: string, n: string)
    requires Export.WellFormedDb(db) && n in Export.JsonZip(db, ts, source)
    ensures EndsWith(n, ".json")
  {
    Export.JsonZipNames(db, ts, source, n);
    if n != "manifest.json" {
      var i :| 0 <= i < |Export.MemberNames(".json")| && Export.MemberNames(".json")[i] == n;
      assert n == TableName(Export.ExportTables()[i]) + ".json";
    }
  }

  /** Every member of the JSON zip export ends in `.json`, never in `.csv`. */
  lemma JsonZipNamesEnding(db: Export.Db, ts: string, source: string, n: string)
    requires Export.WellFormedDb(db) && n in Export.JsonZip(db, ts, source)
    ensures EndsWith(Lower(n), ".json") && !EndsWith(Lower(n), ".csv")
  {
    JsonZipNameSuffix(db, ts, source, n);
    JsonNameEnding(n);
  }

  /** A name ending in `.json` still does once lower-cased, and so does not end in `.csv`. */
  lemma JsonNameEnding(n: string)
    requires EndsWith(n, ".json")
    ensures EndsWith(Lower(n), ".json") && !EndsWith(Lower(n), ".csv")
  {
    LowerKeepsSuffix(n, ".json");
    LastCharDiffers(Lower(n), ".json", ".csv");
  }

  /** The JSON zip reader gives back the exported tables. */
  lemma JsonZipReadBack(db: Export.Db, ts: string, source: string, members: map<string, Content>)
    requires Export.WellFormedDb(db) && HoldsJsonZip(members, db, ts, source)
    ensures ReadJsonZipMembers(JsonMembers(members)) == Ok(DbTables(db))
  {
    var decoded := JsonMembers(members);
    forall t: Table ensures ZipJsonRows(decoded, t) == Ok(DbRows(db, t)) {
      Export.JsonZipAt(db, ts, source, t);
      DictItemsOfDicts(DbRows(db, t));
    }
    TablesExt(ReadJsonZipMembers(decoded).value, DbTables(db));
  }

  /** Importing the JSON zip export gives the exported database's tables. */
  lemma JsonZipExportImported(db: Export.Db, ts: string, source: string, path: string, file: FileView)
    requires Export.WellFormedDb(db) && file.zip.Some? && ZipAt(path, file, file.zip.value)
    requires HoldsJsonZip(file.zip.value, db, ts, source)
    ensures Load(path, file) == Ok((ZipJson, DbTables(db)))
  {
    var members := file.zip.value;
    forall n | n in members ensures !EndsWith(Lower(n), ".csv") {
      JsonZipNamesEnding(db, ts, source, n);
    }
    var first := Export.MemberName(Category, ".json");
    Export.JsonZipAt(db, ts, source, Category);
    JsonZipNamesEnding(db, ts, source, first);
    assert HasMemberEnding(members, ".json");
    JsonZipReadBack(db, ts, source, members);
    LoadsJsonZip(path, file, members, DbTables(db));
  }

  /** The CSV zip export's members, each split as written. */
  predicate HoldsCsvZip(members: map<string, Content>, db: Export.Db, ts: string, source: string)
    requires Export.WellFormedDb(db)
  {
    var written := Export.CsvZip(db, ts, source);
    members.Keys == written.Keys && forall n :: n in members ==> members[n].rows == written[n]
  }

  /** Members holding, row for row, the zip `written`. */
  lemma SplitAsWritten(members: map<string, Content>, written: map<string, seq<seq<string>>>)
    requires members.Keys == written.Keys && forall n :: n in members ==> members[n].rows == written[n]
    ensures CsvMembers(members) == written
  {
  }

  /** A zip holding `manifest.csv` has a `.csv` member. */
  lemma ManifestIsCsv(members: map<string, Content>)
    requires "manifest.csv" in members
    ensures HasMemberEnding(members, ".csv")
  {
    LowerKeepsSuffix("manifest.csv", ".csv");
  }

  lemma CsvZipMembers(members: map<string, Content>, db: Export.Db, ts: string, source: string)
    requires Export.WellFormedDb(db) && HoldsCsvZip(members, db, ts, source)
    ensures HasMemberEnding(members, ".csv") && CsvMembers(members) == Export.CsvZip(db, ts, source)
  {
    var written := Export.CsvZip(db, ts, source);
    Export.CsvZipManifest(db, ts, source);
    ManifestIsCsv(members);
    SplitAsWritten(members, written);
  }

  /** Importing the CSV zip export gives, per table, what the single-file CSV export reads back as. */
  lemma CsvZipExportImported(db: Export.Db, ts: string, source: string, path: string, file: FileView, t: Table)
    requires Export.ZipReadableDb(db) && file.zip.Some? && ZipAt(path, file, file.zip.value)
    requires HoldsCsvZip(file.zip.value, db, ts, source)
    ensures Load(path, file).Ok? && Load(path, file).value.0 == ZipCsv
    ensures t in Load(path, file).value.1
    ensures Load(path, file).value.1[t] == CsvImport.AsRows(Export.ReadBack(Export.FetchOf(db, t)))
  {
    var members := file.zip.value;
    CsvZipMembers(members, db, ts, source);
    LoadsCsvZip(path, file, members);
    Export.CsvZipRoundTrip(db, ts, source, t);
  }

  /** A database copy written under the default name is imported as a database, with the source's tables. */
  lemma DbExportImported(files: Export.Files, source: string, stem: string, stamp: string, file: FileView)
    requires Export.ExportToDb(files, source, Export.DefaultDbExportName(stem, stamp), false).Ok?
    requires Export.WellFormedDb(Export.Opened(files, source))
    requires file.present
    requires file.database == Some(Export.ExportToDb(files, source, Export.DefaultDbExportName(stem, stamp), false).value[Export.DefaultDbExportName(stem, stamp)])
    ensures ValidView(file)
    ensures Load(Export.DefaultDbExportName(stem, stamp), file) == Ok((DbFile, DbTables(Export.Opened(files, source))))
  {
    var name := Export.DefaultDbExportName(stem, stamp);
    LowerKeepsSuffix(name, ".db");
  }
}
