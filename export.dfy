/**
 * The exporter's output shapes: the sectioned single-file CSV, the per-table
 * zip of CSV files, the JSON payload, and the guards of the database copy.
 * What the database hands the exporter for each table (`_fetch_table`) is an input.
 */
module Export {
  import opened Wrappers
  import opened Text
  import opened Values
  import opened ImportSchema
  import opened CsvImport

  /** One table as `_fetch_table` returns it: its columns, its rows; a missing table has no columns. */
  datatype Fetched = Fetched(cols: seq<string>, rows: seq<seq<Value>>)

  /** `_EXPORT_TABLES`, the same five tables in the same order as the importer's. */
  function ExportTables(): seq<Table> { ImportTables }

  type Db = map<Table, Fetched>

  function FetchOf(db: Db, t: Table): Fetched {
    if t in db then db[t] else Fetched([], [])
  }

  /** Every row has a value per column, as the database returns them. */
  predicate WellFormed(f: Fetched) {
    forall r :: r in f.rows ==> |r| == |f.cols|
  }

  predicate WellFormedDb(db: Db) {
    forall t :: t in db ==> WellFormed(db[t])
  }

  // ---------------------------------------------------------------------
  // Single-file CSV

  /** `[row[i] if row[i] is not None else "" for i in range(len(cols))]`, as text. */
  function CsvRow(cols: seq<string>, r: seq<Value>): (cells: seq<string>)
    requires |r| == |cols|
    ensures |cells| == |cols| && forall i :: 0 <= i < |cols| ==> cells[i] == CellText(r[i])
  {
    seq(|cols|, i requires 0 <= i < |cols| => CellText(r[i]))
  }

  function CsvDataRows(f: Fetched): (rows: seq<seq<string>>)
    requires WellFormed(f)
    ensures |rows| == |f.rows| && forall i :: 0 <= i < |f.rows| ==> rows[i] == CsvRow(f.cols, f.rows[i])
  {
    seq(|f.rows|, i requires 0 <= i < |f.rows| => CsvRow(f.cols, f.rows[i]))
  }

  const NoColumns: seq<string> := ["(no columns)"]

  function MarkerRow(t: Table): seq<string> {
    ["__TABLE__", TableName(t)]
  }

  /** What follows a section's marker: the header and the data, or the no-columns row. */
  function SectionBody(f: Fetched): seq<seq<string>>
    requires WellFormed(f)
  {
    if f.cols != [] then [f.cols] + CsvDataRows(f) else [NoColumns]
  }

  /** One table's section: a blank row, the marker, then its body. */
  function Section(t: Table, f: Fetched): seq<seq<string>>
    requires WellFormed(f)
  {
    [[], MarkerRow(t)] + SectionBody(f)
  }

  function Sections(db: Db, ts: seq<Table>): seq<seq<string>>
    requires WellFormedDb(db)
  {
    if ts == [] then []
    else
      var n := |ts| - 1;
      Sections(db, ts[..n]) + Section(ts[n], FetchOf(db, ts[n]))
  }

  /** The rows written once the first `k` tables are done. */
  function LayoutUpTo(db: Db, ts: string, k: nat): seq<seq<string>>
    requires WellFormedDb(db) && k <= |ExportTables()|
  {
    [ExportHeader(ts)] + Sections(db, ExportTables()[..k])
  }

  lemma LayoutSnoc(db: Db, ts: string, k: nat)
    requires WellFormedDb(db) && k < |ExportTables()|
    ensures LayoutUpTo(db, ts, k + 1)
      == LayoutUpTo(db, ts, k) + Section(ExportTables()[k], FetchOf(db, ExportTables()[k]))
  {
    SectionsSnoc(db, ExportTables(), k);
  }

  lemma SectionsSnoc(db: Db, ts: seq<Table>, k: nat)
    requires WellFormedDb(db) && k < |ts|
    ensures Sections(db, ts[..k + 1]) == Sections(db, ts[..k]) + Section(ts[k], FetchOf(db, ts[k]))
  {
    assert ts[..k + 1][..k] == ts[..k];
  }

  function ExportHeader(ts: string): seq<string> {
    ["__EXPORT__", "Finance Tool", "timestamp", ts]
  }

  /** The rows `export_all_to_csv(separate_files=False)` writes, stamped `ts`. */
  function CsvLayout(db: Db, ts: string): seq<seq<string>>
    requires WellFormedDb(db)
  {
    [ExportHeader(ts)] + Sections(db, ExportTables())
  }

  /** The writes for one table of `export_all_to_csv(separate_files=False)`. */
  method WriteSection(out: seq<seq<string>>, table: Table, f: Fetched) returns (out': seq<seq<string>>)
    requires WellFormed(f)
    ensures out' == out + Section(table, f)
  {
    var blank: seq<string> := [];
    out' := out + [blank];
    out' := out' + [MarkerRow(table)];
    SectionSplit(out, table, f);
    out' := WriteBody(out', f);
  }

  /** The header and data rows of a table, or the no-columns row. */
  method WriteBody(out: seq<seq<string>>, f: Fetched) returns (out': seq<seq<string>>)
    requires WellFormed(f)
    ensures out' == out + SectionBody(f)
  {
    if f.cols != [] {
      out' := out + [f.cols];
      out' := WriteDataRows(out', f);
      assert out + [f.cols] + CsvDataRows(f) == out + ([f.cols] + CsvDataRows(f));
    } else {
      out' := out + [NoColumns];
    }
  }

  lemma SectionSplit(out: seq<seq<string>>, table: Table, f: Fetched)
    requires WellFormed(f)
    ensures out + Section(table, f) == out + [[]] + [MarkerRow(table)] + SectionBody(f)
  {
  }

  /** The data rows of one table, one `writer.writerow` each. */
  method WriteDataRows(out: seq<seq<string>>, f: Fetched) returns (out': seq<seq<string>>)
    requires WellFormed(f)
    ensures out' == out + CsvDataRows(f)
  {
    out' := out;
    var j := 0;
    while j < |f.rows|
      invariant 0 <= j <= |f.rows|
      invariant out' == out + CsvDataRows(f)[..j]
    {
      assert f.rows[j] in f.rows;
      var cells := CsvRow(f.cols, f.rows[j]);
      DataRowsStep(f, j);
      out' := out' + [cells];
      j := j + 1;
    }
    assert CsvDataRows(f)[..j] == CsvDataRows(f);
  }

  lemma DataRowsStep(f: Fetched, j: nat)
    requires WellFormed(f) && j < |f.rows|
    ensures CsvDataRows(f)[..j + 1] == CsvDataRows(f)[..j] + [CsvRow(f.cols, f.rows[j])]
  {
    var rows := CsvDataRows(f);
    assert rows[..j + 1] == rows[..j] + [rows[j]];
  }

  /** `export_all_to_csv(separate_files=False)`: the rows written, in order. */
  method ExportAllToCsv(db: Db, ts: string) returns (out: seq<seq<string>>)
    requires WellFormedDb(db)
    ensures out == CsvLayout(db, ts)
  {
    out := [ExportHeader(ts)];
    var tables := ExportTables();
    var k := 0;
    while k < |tables|
      invariant 0 <= k <= |tables|
      invariant out == LayoutUpTo(db, ts, k)
    {
      LayoutSnoc(db, ts, k);
      out := WriteSection(out, tables[k], FetchOf(db, tables[k]));
      k := k + 1;
    }
    LayoutDone(db, ts);
  }

  lemma LayoutDone(db: Db, ts: string)
    requires WellFormedDb(db)
    ensures LayoutUpTo(db, ts, |ExportTables()|) == CsvLayout(db, ts)
  {
    assert ExportTables()[..|ExportTables()|] == ExportTables();
  }

  // ---------------------------------------------------------------------
  // Reading the single-file CSV back

  /** Columns the reader takes back as the header: non-empty, unpadded, and not marker words. */
  predicate ReadableColumns(cols: seq<string>) {
    (forall i :: 0 <= i < |cols| ==> cols[i] != "" && Strip(cols[i]) == cols[i])
    && (|cols| > 0 ==> cols[0] != "__TABLE__" && cols[0] != "__EXPORT__")
  }

  /** A table the reader takes back section by section: no data row's first cell reads as a marker. */
  predicate Readable(f: Fetched) {
    WellFormed(f) && ReadableColumns(f.cols)
    && forall r :: r in f.rows && |r| > 0 ==> Strip(CellText(r[0])) != "__TABLE__"
  }

  predicate ReadableDb(db: Db) {
    WellFormedDb(db) && forall t :: t in db ==> Readable(db[t])
  }

  /** The records the reader yields for one exported table. */
  function ReadBack(f: Fetched): seq<Record>
    requires WellFormed(f)
  {
    if f.cols == [] then [] else DataRecords(f.cols, CsvDataRows(f))
  }

  lemma StrippedText(s: string)
    requires s != [] && !IsSpace(s[0]) && !IsSpace(s[|s| - 1])
    ensures Strip(s) == s
  {
    StripOfStripped(s);
  }

  lemma TableNameRead(t: Table)
    ensures Lower(Strip(TableName(t))) == TableName(t) && TableName(t) != ""
  {
    TableNameLetters(t);
    LowerWordRead(TableName(t));
  }

  /** A word of lower-case letters is read back as itself. */
  lemma LowerWordRead(s: string)
    requires s != "" && forall i :: 0 <= i < |s| ==> 'a' <= s[i] <= 'z'
    ensures Lower(Strip(s)) == s
  {
    assert !IsSpace(s[0]) && !IsSpace(s[|s| - 1]);
    StrippedText(s);
    LowerNoUpper(s);
  }

  /** Table names are spelt in lower-case letters. */
  lemma TableNameLetters(t: Table)
    ensures var s := TableName(t); s != "" && forall i :: 0 <= i < |s| ==> 'a' <= s[i] <= 'z'
  {
    match t
    case Category =>
    case Wallet =>
    case Expense =>
    case Goal =>
    case Profile =>
  }

  lemma MarkerRowRead(name: string)
    requires Strip(name) == name
    ensures TableMarker(["__TABLE__", name])
    ensures StripCells(["__TABLE__", name])[1] == name
  {
    var row := StripCells(["__TABLE__", name]);
    assert row[0] == "__TABLE__" by { StrippedText("__TABLE__"); }
    assert row[0] != "";
  }

  /** Exported columns are read back as the header row, unchanged. */
  lemma ColumnsRead(cols: seq<string>)
    requires ReadableColumns(cols) && cols != []
    ensures DataRow(cols) && StripCells(cols) == cols
  {
    StripCellsOfStripped(cols);
    DataRowOf(cols);
  }

  /** The `(no columns)` row is read back as a header row. */
  lemma NoColumnsRead()
    ensures DataRow(NoColumns) && StripCells(NoColumns) == NoColumns
  {
    SingleCellRead(NoColumns[0]);
  }

  lemma SingleCellRead(s: string)
    requires s != [] && !IsSpace(s[0]) && !IsSpace(s[|s| - 1])
    requires s != "__EXPORT__" && s != "__TABLE__"
    ensures DataRow([s]) && StripCells([s]) == [s]
  {
    StrippedText(s);
    StripCellsOfStripped([s]);
    DataRowOf([s]);
  }

  lemma DataRowsNoMarker(f: Fetched)
    requires Readable(f)
    ensures forall i :: 0 <= i < |CsvDataRows(f)| ==> !TableMarker(CsvDataRows(f)[i])
  {
    forall i | 0 <= i < |CsvDataRows(f)| ensures !TableMarker(CsvDataRows(f)[i]) {
      assert f.rows[i] in f.rows;
    }
  }

  /** The row after the marker: the columns, or the no-columns row. */
  function HeaderOf(f: Fetched): seq<string> {
    if f.cols != [] then f.cols else NoColumns
  }

  /** The rows after the header. */
  function DataOf(f: Fetched): seq<seq<string>>
    requires WellFormed(f)
  {
    if f.cols != [] then CsvDataRows(f) else []
  }

  lemma SectionShape(t: Table, f: Fetched)
    requires WellFormed(f)
    ensures Section(t, f) == [[]] + ([MarkerRow(t), HeaderOf(f)] + DataOf(f))
  {
    var blank: seq<string> := [];
    assert SectionBody(f) == [HeaderOf(f)] + DataOf(f);
    Regroup(blank, MarkerRow(t), HeaderOf(f), DataOf(f));
  }

  lemma TakeSnoc<T>(xs: seq<T>, j: nat)
    requires j < |xs|
    ensures xs[..j + 1] == xs[..j] + [xs[j]]
  {
  }

  lemma Regroup<T>(a: T, b: T, c: T, d: seq<T>)
    ensures [a, b] + ([c] + d) == [a] + ([b, c] + d)
  {
  }

  lemma HeaderOfRead(f: Fetched)
    requires Readable(f)
    ensures DataRow(HeaderOf(f)) && StripCells(HeaderOf(f)) == HeaderOf(f)
    ensures ReadBack(f) == DataRecords(HeaderOf(f), DataOf(f))
  {
    if f.cols != [] {
      ColumnsRead(f.cols);
    } else {
      NoColumnsRead();
    }
  }

  /** Reading one exported section appends exactly its read-back records under the table's name. */
  lemma SectionReadBack(st: ReaderState, t: Table, f: Fetched)
    requires Readable(f)
    ensures ReadRows(st, Section(t, f)).tables == AppendRecords(st.tables, TableName(t), ReadBack(f))
  {
    var marker := MarkerRow(t);
    var rest := [marker, HeaderOf(f)] + DataOf(f);
    SectionShape(t, f);
    BlankRowSkipped(st, rest);
    TableNameRead(t);
    MarkerRowRead(TableName(t));
    HeaderOfRead(f);
    if f.cols != [] {
      DataRowsNoMarker(f);
    }
    SectionRead(st, marker, HeaderOf(f), DataOf(f));
  }

  function Names(ts: seq<Table>): (names: seq<string>)
    ensures |names| == |ts| && forall i :: 0 <= i < |ts| ==> names[i] == TableName(ts[i])
  {
    seq(|ts|, i requires 0 <= i < |ts| => TableName(ts[i]))
  }

  /** `f` of each table of `ts`, in order. */
  function Each<B>(f: Table -> B, ts: seq<Table>): (r: seq<B>)
    ensures |r| == |ts| && forall k :: 0 <= k < |ts| ==> r[k] == f(ts[k])
  {
    seq(|ts|, k requires 0 <= k < |ts| => f(ts[k]))
  }

  lemma EachSnoc<B>(f: Table -> B, ts: seq<Table>)
    requires ts != []
    ensures Each(f, ts) == Each(f, ts[..|ts| - 1]) + [f(ts[|ts| - 1])]
  {
  }

  /** The records the reader yields for a table of `db`. */
  function ReadBackOf(db: Db): Table -> seq<Record> {
    t => if WellFormed(FetchOf(db, t)) then ReadBack(FetchOf(db, t)) else []
  }

  /** The read-back records of each table of `ts`. */
  function ReadBacks(db: Db, ts: seq<Table>): (recs: seq<seq<Record>>)
    requires WellFormedDb(db)
    ensures |recs| == |ts|
  {
    Each(ReadBackOf(db), ts)
  }

  lemma {:induction false} SectionsReadBack(st: ReaderState, db: Db, ts: seq<Table>)
    requires ReadableDb(db)
    ensures ReadRows(st, Sections(db, ts)).tables == AppendAll(st.tables, Names(ts), ReadBacks(db, ts))
  {
    if ts != [] {
      var n := |ts| - 1;
      var f := FetchOf(db, ts[n]);
      assert Readable(f);
      var a := Sections(db, ts[..n]);
      var mid := ReadRows(st, a);
      ReadRowsAppend(st, a, Section(ts[n], f));
      SectionsReadBack(st, db, ts[..n]);
      SectionReadBack(mid, ts[n], f);
      NamesSnoc(ts);
      EachSnoc(ReadBackOf(db), ts);
      AppendAllSnoc(st.tables, Names(ts[..n]), ReadBacks(db, ts[..n]), TableName(ts[n]), ReadBack(f));
    }
  }

  lemma NamesSnoc(ts: seq<Table>)
    requires ts != []
    ensures Names(ts) == Names(ts[..|ts| - 1]) + [TableName(ts[|ts| - 1])]
  {
  }

  lemma ExportTablesDistinct()
    ensures Distinct(ExportTables())
  {
    forall i, j | 0 <= i < j < |ImportTables| ensures ImportTables[i] != ImportTables[j] {
      TableAt(i);
      TableAt(j);
    }
  }

  lemma NamesDistinct(ts: seq<Table>)
    requires Distinct(ts)
    ensures Distinct(Names(ts))
  {
    forall i, j | 0 <= i < j < |ts| ensures Names(ts)[i] != Names(ts)[j] {
      if TableName(ts[i]) == TableName(ts[j]) {
        TableNameInjective(ts[i], ts[j]);
      }
    }
  }

  lemma ExportHeaderSkipped(ts: string)
    ensures Skipped(ExportHeader(ts))
  {
    var header := ExportHeader(ts);
    assert Strip(header[0]) == "__EXPORT__" by {
      StrippedText("__EXPORT__");
    }
    ExportRowSkipped(header);
  }

  /** The reader skips the `__EXPORT__` header row. */
  lemma HeaderSkipped(st: ReaderState, ts: string, rest: seq<seq<string>>)
    ensures ReadRows(st, [ExportHeader(ts)] + rest) == ReadRows(st, rest)
  {
    var header := ExportHeader(ts);
    ExportHeaderSkipped(ts);
    SkippedRowInvisible(st, [], header, rest);
    assert [] + [header] + rest == [header] + rest;
    assert [] + rest == rest;
  }

  /** Reading the exported file: the header row is skipped, then every section is appended in turn. */
  lemma CsvLayoutRead(db: Db, ts: string)
    requires ReadableDb(db)
    ensures ReadRows(InitialState(), CsvLayout(db, ts)).tables
      == AppendAll(EmptyTables(), Names(ExportTables()), ReadBacks(db, ExportTables()))
  {
    HeaderSkipped(InitialState(), ts, Sections(db, ExportTables()));
    SectionsReadBack(InitialState(), db, ExportTables());
  }

  /**
   * Round trip: reading the exported single-file CSV gives, for every table,
   * the records of its non-blank exported rows keyed by its columns.
   */
  lemma CsvExportImportRoundTrip(db: Db, ts: string, t: Table)
    requires ReadableDb(db)
    ensures t in CsvTables(CsvLayout(db, ts))
    ensures CsvTables(CsvLayout(db, ts))[t] == AsRows(ReadBack(FetchOf(db, t)))
  {
    var tables := ExportTables();
    var names := Names(tables);
    var recs := ReadBacks(db, tables);
    CsvLayoutRead(db, ts);
    var k := TableIndex(t);
    ExportTablesDistinct();
    NamesDistinct(tables);
    assert names[k] == TableName(t);
    AppendAllAt(EmptyTables(), names, recs, k);
    assert recs[k] == ReadBack(FetchOf(db, t));
    assert EmptyTables()[TableName(t)] + recs[k] == recs[k];
  }

  // ---------------------------------------------------------------------
  // Rows as dicts

  /** The dicts a table is exported as (`_rows_to_dicts(cols, rows) if cols else []`). */
  function TableDicts(f: Fetched): (ds: seq<Record>)
    requires WellFormed(f)
    ensures |ds| == if f.cols == [] then 0 else |f.rows|
    ensures f.cols != [] ==> forall j :: 0 <= j < |f.rows| ==> ds[j] == DictOf(f.cols, f.rows[j])
  {
    if f.cols == [] then []
    else seq(|f.rows|, j requires 0 <= j < |f.rows| => DictOf(f.cols, f.rows[j]))
  }

  /** `_rows_to_dicts`: one dict per row, in row order. */
  method RowsToDicts(f: Fetched) returns (out: seq<Record>)
    requires WellFormed(f) && f.cols != []
    ensures out == TableDicts(f)
  {
    ghost var ds := TableDicts(f);
    out := [];
    var j := 0;
    while j < |f.rows|
      invariant 0 <= j <= |f.rows|
      invariant out == ds[..j]
    {
      assert f.rows[j] in f.rows;
      var d := DictOf(f.cols, f.rows[j]);
      TakeSnoc(ds, j);
      out := out + [d];
      j := j + 1;
    }
    assert ds[..j] == ds;
  }

  /** Each exported dict has exactly the table's columns as keys, in order, holding the row's values. */
  lemma TableDictsKeyed(f: Fetched, j: nat)
    requires WellFormed(f) && Distinct(f.cols) && f.cols != [] && j < |f.rows|
    ensures var d := TableDicts(f)[j];
      Keys(d) == f.cols && forall i :: 0 <= i < |f.cols| ==> d[i] == (f.cols[i], f.rows[j][i])
  {
    assert f.rows[j] in f.rows;
    DictOfDistinct(f.cols, f.rows[j]);
  }

  // ---------------------------------------------------------------------
  // Writing named entries in turn

  /** `m[names[0] := vals[0]]...[names[k-1] := vals[k-1]]`: the entries written one after another. */
  function PutAll<V>(m: map<string, V>, names: seq<string>, vals: seq<V>): map<string, V>
    requires |names| == |vals|
  {
    if names == [] then m
    else
      var n := |names| - 1;
      PutAll(m, names[..n], vals[..n])[names[n] := vals[n]]
  }

  lemma PutAllSnoc<V>(m: map<string, V>, names: seq<string>, vals: seq<V>, k: nat)
    requires |names| == |vals| && k < |names|
    ensures PutAll(m, names[..k + 1], vals[..k + 1]) == PutAll(m, names[..k], vals[..k])[names[k] := vals[k]]
  {
    assert names[..k + 1][..k] == names[..k] && vals[..k + 1][..k] == vals[..k];
  }

  /** With distinct names, each name holds its own value. */
  lemma {:induction false} PutAllAt<V>(m: map<string, V>, names: seq<string>, vals: seq<V>, i: nat)
    requires |names| == |vals| && Distinct(names) && i < |names|
    ensures names[i] in PutAll(m, names, vals) && PutAll(m, names, vals)[names[i]] == vals[i]
  {
    var n := |names| - 1;
    if i < n {
      PutAllAt(m, names[..n], vals[..n], i);
    }
  }

  /** A name that is not written keeps what the start map had. */
  lemma {:induction false} PutAllOther<V>(m: map<string, V>, names: seq<string>, vals: seq<V>, k: string)
    requires |names| == |vals| && k !in names
    ensures (k in PutAll(m, names, vals) <==> k in m) && (k in m ==> PutAll(m, names, vals)[k] == m[k])
  {
    if names != [] {
      var n := |names| - 1;
      assert names[n] in names;
      assert forall x :: x in names[..n] ==> x in names;
      PutAllOther(m, names[..n], vals[..n], k);
    }
  }

  /** A written name was in the start map or among the names. */
  lemma {:induction false} PutAllNames<V>(m: map<string, V>, names: seq<string>, vals: seq<V>, k: string)
    requires |names| == |vals| && k in PutAll(m, names, vals)
    ensures k in m || k in names
  {
    if names != [] {
      var n := |names| - 1;
      if k != names[n] {
        PutAllNames(m, names[..n], vals[..n], k);
        assert forall x :: x in names[..n] ==> x in names;
      }
    }
  }

  /** The name of a table's member in a per-table zip: `<table><ext>`. */
  function MemberName(t: Table, ext: string): string {
    TableName(t) + ext
  }

  /** The members of the export tables, in export order. */
  function MemberNames(ext: string): (names: seq<string>)
    ensures |names| == |ExportTables()|
    ensures forall i :: 0 <= i < |names| ==> names[i] == MemberName(ExportTables()[i], ext)
  {
    seq(|ExportTables()|, i requires 0 <= i < |ExportTables()| => MemberName(ExportTables()[i], ext))
  }

  lemma MemberNameInjective(a: Table, b: Table, ext: string)
    requires MemberName(a, ext) == MemberName(b, ext)
    ensures a == b
  {
    assert MemberName(a, ext)[0] == TableName(a)[0] && MemberName(b, ext)[0] == TableName(b)[0];
    match a
    case Category =>
    case Wallet =>
    case Expense =>
    case Goal =>
    case Profile =>
  }

  lemma MemberNamesDistinct(ext: string)
    ensures Distinct(MemberNames(ext))
  {
    var names := MemberNames(ext);
    forall i, j | 0 <= i < j < |names| ensures names[i] != names[j] {
      if names[i] == names[j] {
        MemberNameInjective(ExportTables()[i], ExportTables()[j], ext);
      }
    }
  }

  /** No table member is named like the manifest. */
  lemma ManifestNotATable(manifest: string, ext: string)
    requires |manifest| > 0 && manifest[0] == 'm'
    ensures manifest !in MemberNames(ext)
  {
    forall i | 0 <= i < |MemberNames(ext)| ensures MemberNames(ext)[i] != manifest {
      var t := ExportTables()[i];
      assert MemberName(t, ext)[0] == TableName(t)[0];
    }
  }

  /** Where a table sits in the member names. */
  lemma MemberNameOf(t: Table, ext: string)
    ensures MemberNames(ext)[TableIndex(t)] == MemberName(t, ext)
  {
  }

  // ---------------------------------------------------------------------
  // The JSON exports

  function JText(s: string): Json {
    JScalar(VStr(s))
  }

  /** A table's JSON: the list of its row dicts. */
  function TableJson(f: Fetched): Json
    requires WellFormed(f)
  {
    JList(AsRows(TableDicts(f)))
  }

  /** Every export table's JSON, in export order. */
  function TableJsons(db: Db): (js: seq<Json>)
    requires WellFormedDb(db)
    ensures |js| == |ExportTables()|
    ensures forall i :: 0 <= i < |js| ==> js[i] == TableJson(FetchOf(db, ExportTables()[i]))
  {
    seq(|ExportTables()|, i requires 0 <= i < |ExportTables()| => TableJson(FetchOf(db, ExportTables()[i])))
  }

  /** The `"export"` block of the single-file JSON. */
  function JsonExportBlock(ts: string, source: string): Json {
    JObject(map["app" := JText("Finance Tool"), "timestamp" := JText(ts),
                "source_db" := JText(source), "format" := JText("single-json")])
  }

  /** The `"tables"` object of the single-file JSON. */
  function JsonTablesObject(db: Db): map<string, Json>
    requires WellFormedDb(db)
  {
    PutAll(map[], Names(ExportTables()), TableJsons(db))
  }

  /** The document `export_all_to_json(separate_files=False)` writes, stamped `ts`, for the database at `source`. */
  function JsonPayload(db: Db, ts: string, source: string): Json
    requires WellFormedDb(db)
  {
    JObject(map["export" := JsonExportBlock(ts, source), "tables" := JObject(JsonTablesObject(db))])
  }

  /** The `"tables"` object holds exactly the five tables, each as the list of its row dicts. */
  lemma JsonTablesObjectAt(db: Db, name: string)
    requires WellFormedDb(db)
    ensures var m := JsonTablesObject(db);
      (name in m <==> TableNamed(name).Some?)
      && (name in m ==> m[name] == JList(AsRows(TableDicts(FetchOf(db, TableNamed(name).value)))))
  {
    var names := Names(ExportTables());
    ExportTablesDistinct();
    NamesDistinct(ExportTables());
    match TableNamed(name)
    case Some(t) =>
      assert names[TableIndex(t)] == name;
      PutAllAt(map[], names, TableJsons(db), TableIndex(t));
    case None =>
      assert name !in names;
      PutAllOther(map[], names, TableJsons(db), name);
  }

  /** The payload's `"tables"` object holds every table's rows as dicts. */
  lemma JsonPayloadTables(db: Db, ts: string, source: string, t: Table)
    requires WellFormedDb(db)
    ensures var p := JsonPayload(db, ts, source);
      p.JObject? && "tables" in p.members && p.members["tables"].JObject?
      && TableName(t) in p.members["tables"].members
      && p.members["tables"].members[TableName(t)] == JList(AsRows(TableDicts(FetchOf(db, t))))
  {
    JsonTablesObjectAt(db, TableName(t));
    TableNameInjective(TableNamed(TableName(t)).value, t);
  }

  /** `export_all_to_json(separate_files=False)`: the document written. */
  method ExportAllToJson(db: Db, ts: string, source: string) returns (payload: Json)
    requires WellFormedDb(db)
    ensures payload == JsonPayload(db, ts, source)
  {
    ghost var names := Names(ExportTables());
    var tables: map<string, Json> := map[];
    var k := 0;
    while k < |ExportTables()|
      invariant 0 <= k <= |ExportTables()|
      invariant tables == PutAll(map[], names[..k], TableJsons(db)[..k])
    {
      var table := ExportTables()[k];
      var entry := FetchJson(FetchOf(db, table));
      TableEntriesStep(db, map[], names, k);
      assert names[k] == TableName(table);
      tables := tables[TableName(table) := entry];
      k := k + 1;
    }
    TableEntriesDone(db, map[], names);
    payload := JObject(map["export" := JsonExportBlock(ts, source), "tables" := JObject(tables)]);
  }

  /** One table's JSON entry: its rows as dicts, or `[]` for a table without columns. */
  method FetchJson(f: Fetched) returns (entry: Json)
    requires WellFormed(f)
    ensures entry == TableJson(f)
  {
    var data: seq<Record> := [];
    if f.cols != [] {
      data := RowsToDicts(f);
    }
    entry := JList(AsRows(data));
  }

  /** The JSON zip's manifest. */
  function JsonManifest(ts: string, source: string): Json {
    JObject(map["app" := JText("Finance Tool"), "timestamp" := JText(ts), "source_db" := JText(source),
                "format" := JText("per-table-json"),
                "tables" := JList(seq(|ExportTables()|, i requires 0 <= i < |ExportTables()| =>
                                    ROther(VStr(TableName(ExportTables()[i])))))])
  }

  /** The members of `export_all_to_json(separate_files=True)`. */
  function JsonZip(db: Db, stamp: string, source: string): map<string, Json>
    requires WellFormedDb(db)
  {
    PutAll(map["manifest.json" := JsonManifest(stamp, source)], MemberNames(".json"), TableJsons(db))
  }

  /** Each table's member of the JSON zip holds its list of row dicts. */
  lemma JsonZipAt(db: Db, stamp: string, source: string, t: Table)
    requires WellFormedDb(db)
    ensures var m := JsonZip(db, stamp, source);
      MemberName(t, ".json") in m && m[MemberName(t, ".json")] == TableJson(FetchOf(db, t))
  {
    MemberNamesDistinct(".json");
    MemberNameOf(t, ".json");
    PutAllAt(map["manifest.json" := JsonManifest(stamp, source)], MemberNames(".json"), TableJsons(db), TableIndex(t));
  }

  /** The JSON zip holds the manifest and the table members, and nothing else. */
  lemma JsonZipNames(db: Db, stamp: string, source: string, name: string)
    requires WellFormedDb(db)
    ensures name in JsonZip(db, stamp, source) <==> name == "manifest.json" || name in MemberNames(".json")
  {
    var start := map["manifest.json" := JsonManifest(stamp, source)];
    if name in JsonZip(db, stamp, source) {
      PutAllNames(start, MemberNames(".json"), TableJsons(db), name);
    } else if name !in MemberNames(".json") {
      PutAllOther(start, MemberNames(".json"), TableJsons(db), name);
    } else {
      var i :| 0 <= i < |MemberNames(".json")| && MemberNames(".json")[i] == name;
      MemberNamesDistinct(".json");
      PutAllAt(start, MemberNames(".json"), TableJsons(db), i);
    }
  }

  /** The table members of the JSON zip, written after what `start` holds. */
  method WriteJsonMembers(db: Db, start: map<string, Json>) returns (members: map<string, Json>)
    requires WellFormedDb(db)
    ensures members == PutAll(start, MemberNames(".json"), TableJsons(db))
  {
    ghost var names := MemberNames(".json");
    members := start;
    var k := 0;
    while k < |ExportTables()|
      invariant 0 <= k <= |ExportTables()|
      invariant members == PutAll(start, names[..k], TableJsons(db)[..k])
    {
      var table := ExportTables()[k];
      var entry := FetchJson(FetchOf(db, table));
      TableEntriesStep(db, start, names, k);
      assert names[k] == MemberName(table, ".json");
      members := members[MemberName(table, ".json") := entry];
      k := k + 1;
    }
    TableEntriesDone(db, start, names);
  }

  /** One more table's entry, stored under its name. */
  lemma TableEntriesStep(db: Db, start: map<string, Json>, names: seq<string>, k: nat)
    requires WellFormedDb(db) && |names| == |ExportTables()| && k < |names|
    ensures PutAll(start, names[..k + 1], TableJsons(db)[..k + 1])
      == PutAll(start, names[..k], TableJsons(db)[..k])[names[k] := TableJson(FetchOf(db, ExportTables()[k]))]
  {
    PutAllSnoc(start, names, TableJsons(db), k);
  }

  lemma TableEntriesDone(db: Db, start: map<string, Json>, names: seq<string>)
    requires WellFormedDb(db) && |names| == |ExportTables()|
    ensures PutAll(start, names[..|names|], TableJsons(db)[..|names|]) == PutAll(start, names, TableJsons(db))
  {
    assert names[..|names|] == names && TableJsons(db)[..|names|] == TableJsons(db);
  }

  /** `export_all_to_json(separate_files=True)`: the zip's members. */
  method ExportJsonZip(db: Db, stamp: string, source: string) returns (members: map<string, Json>)
    requires WellFormedDb(db)
    ensures members == JsonZip(db, stamp, source)
  {
    members := WriteJsonMembers(db, map["manifest.json" := JsonManifest(stamp, source)]);
  }

  // ---------------------------------------------------------------------
  // The per-table CSV zip

  /** The zip's `manifest.csv`, as the rows it splits into. */
  function CsvManifest(stamp: string, source: string): seq<seq<string>> {
    [["export_timestamp", stamp], ["source_db", source]]
  }

  /** A table's member: its header and data rows, or nothing for a table without columns. */
  function CsvMember(f: Fetched): seq<seq<string>>
    requires WellFormed(f)
  {
    if f.cols != [] then [f.cols] + CsvDataRows(f) else []
  }

  /** Every export table's member rows, in export order. */
  function CsvMembers(db: Db): (ms: seq<seq<seq<string>>>)
    requires WellFormedDb(db)
    ensures |ms| == |ExportTables()|
    ensures forall i :: 0 <= i < |ms| ==> ms[i] == CsvMember(FetchOf(db, ExportTables()[i]))
  {
    seq(|ExportTables()|, i requires 0 <= i < |ExportTables()| => CsvMember(FetchOf(db, ExportTables()[i])))
  }

  /** The members of `export_all_to_csv(separate_files=True)`. */
  function CsvZip(db: Db, stamp: string, source: string): map<string, seq<seq<string>>>
    requires WellFormedDb(db)
  {
    PutAll(map["manifest.csv" := CsvManifest(stamp, source)], MemberNames(".csv"), CsvMembers(db))
  }

  /** Each table's member of the CSV zip holds its header and data rows. */
  lemma CsvZipAt(db: Db, stamp: string, source: string, t: Table)
    requires WellFormedDb(db)
    ensures var m := CsvZip(db, stamp, source);
      MemberName(t, ".csv") in m && m[MemberName(t, ".csv")] == CsvMember(FetchOf(db, t))
  {
    MemberNamesDistinct(".csv");
    MemberNameOf(t, ".csv");
    PutAllAt(map["manifest.csv" := CsvManifest(stamp, source)], MemberNames(".csv"), CsvMembers(db), TableIndex(t));
  }

  /** The CSV zip always holds `manifest.csv`. */
  lemma CsvZipManifest(db: Db, stamp: string, source: string)
    requires WellFormedDb(db)
    ensures var m := CsvZip(db, stamp, source);
      "manifest.csv" in m && m["manifest.csv"] == CsvManifest(stamp, source)
  {
    ManifestNotATable("manifest.csv", ".csv");
    PutAllOther(map["manifest.csv" := CsvManifest(stamp, source)], MemberNames(".csv"), CsvMembers(db), "manifest.csv");
  }

  /** The table members of the CSV zip, written after what `start` holds. */
  method WriteCsvMembers(db: Db, start: map<string, seq<seq<string>>>) returns (members: map<string, seq<seq<string>>>)
    requires WellFormedDb(db)
    ensures members == PutAll(start, MemberNames(".csv"), CsvMembers(db))
  {
    members := start;
    var k := 0;
    while k < |ExportTables()|
      invariant 0 <= k <= |ExportTables()|
      invariant members == CsvMembersUpTo(db, start, k)
    {
      var table := ExportTables()[k];
      var rows := WriteCsvMember(FetchOf(db, table));
      CsvMembersUpToStep(db, start, k);
      members := members[MemberName(table, ".csv") := rows];
      k := k + 1;
    }
    CsvMembersUpToAll(db, start);
  }

  /** The zip after the first `k` export tables are written. */
  ghost function CsvMembersUpTo(db: Db, start: map<string, seq<seq<string>>>, k: nat): map<string, seq<seq<string>>>
    requires WellFormedDb(db) && k <= |ExportTables()|
  {
    PutAll(start, MemberNames(".csv")[..k], CsvMembers(db)[..k])
  }

  lemma CsvMembersUpToStep(db: Db, start: map<string, seq<seq<string>>>, k: nat)
    requires WellFormedDb(db) && k < |ExportTables()|
    ensures var t := ExportTables()[k];
      CsvMembersUpTo(db, start, k + 1) == CsvMembersUpTo(db, start, k)[MemberName(t, ".csv") := CsvMember(FetchOf(db, t))]
  {
    PutAllSnoc(start, MemberNames(".csv"), CsvMembers(db), k);
  }

  lemma CsvMembersUpToAll(db: Db, start: map<string, seq<seq<string>>>)
    requires WellFormedDb(db)
    ensures CsvMembersUpTo(db, start, |ExportTables()|) == PutAll(start, MemberNames(".csv"), CsvMembers(db))
  {
    assert MemberNames(".csv")[..|ExportTables()|] == MemberNames(".csv");
    assert CsvMembers(db)[..|ExportTables()|] == CsvMembers(db);
  }

  /** One table's member: its header row, then its data rows; nothing for a table without columns. */
  method WriteCsvMember(f: Fetched) returns (rows: seq<seq<string>>)
    requires WellFormed(f)
    ensures rows == CsvMember(f)
  {
    rows := [];
    if f.cols != [] {
      rows := WriteDataRows([f.cols], f);
    }
  }

  /** `export_all_to_csv(separate_files=True)`: the zip's members. */
  method ExportCsvZip(db: Db, stamp: string, source: string) returns (members: map<string, seq<seq<string>>>)
    requires WellFormedDb(db)
    ensures members == CsvZip(db, stamp, source)
  {
    members := WriteCsvMembers(db, map["manifest.csv" := CsvManifest(stamp, source)]);
  }

  /** A table the zip reader takes back row for row: also no data row reads as an export marker. */
  predicate ZipReadable(f: Fetched) {
    Readable(f) && forall r :: r in f.rows && |r| > 0 ==> Strip(CellText(r[0])) != "__EXPORT__"
  }

  predicate ZipReadableDb(db: Db) {
    WellFormedDb(db) && forall t :: t in db ==> ZipReadable(db[t])
  }

  /** Under a header, a run of rows with no marker rows reads the same in a zip member as in a section. */
  lemma {:induction false} MemberRecordsData(headers: seq<string>, rows: seq<seq<string>>)
    requires forall i :: 0 <= i < |rows| ==> !IsMarker(StripCells(rows[i]), "__EXPORT__") && !TableMarker(rows[i])
    ensures MemberRecords(Some(headers), rows) == DataRecords(headers, rows)
  {
    if rows != [] {
      MemberRecordsData(headers, rows[1..]);
    }
  }

  lemma DataRowsNoExport(f: Fetched)
    requires ZipReadable(f)
    ensures forall i :: 0 <= i < |CsvDataRows(f)| ==> !IsMarker(StripCells(CsvDataRows(f)[i]), "__EXPORT__")
  {
    forall i | 0 <= i < |CsvDataRows(f)| ensures !IsMarker(StripCells(CsvDataRows(f)[i]), "__EXPORT__") {
      assert f.rows[i] in f.rows;
    }
  }

  /** A table's member reads back as the same records the single-file CSV gives for it. */
  lemma CsvMemberReadBack(f: Fetched)
    requires ZipReadable(f)
    ensures MemberRecords(None, CsvMember(f)) == ReadBack(f)
  {
    if f.cols != [] {
      ColumnsRead(f.cols);
      DataRowsNoMarker(f);
      DataRowsNoExport(f);
      var rows := [f.cols] + CsvDataRows(f);
      assert rows[0] == f.cols && rows[1..] == CsvDataRows(f);
      MemberRecordsData(f.cols, CsvDataRows(f));
    }
  }

  /**
   * Round trip through the zip: reading `export_all_to_csv(separate_files=True)` back
   * with `_read_csv_zip` gives, for every table, the records the single-file export reads back as.
   */
  lemma CsvZipRoundTrip(db: Db, stamp: string, source: string, t: Table)
    requires ZipReadableDb(db)
    ensures t in ZipTables(CsvZip(db, stamp, source))
    ensures ZipTables(CsvZip(db, stamp, source))[t] == AsRows(ReadBack(FetchOf(db, t)))
  {
    CsvZipAt(db, stamp, source, t);
    assert ZipReadable(FetchOf(db, t));
    CsvMemberReadBack(FetchOf(db, t));
  }

  // ---------------------------------------------------------------------
  // Copying the database

  /** The databases `export_all_to_db` can see, by absolute path. */
  type Files = map<string, Db>

  /** What opening a path gives: the database there, or a new empty one (`sqlite3.connect` creates it). */
  function Opened(files: Files, path: string): Db {
    if path in files then files[path] else map[]
  }

  /** `export_all_to_db` with both paths already absolute: the guards, then the copy. */
  function ExportToDb(files: Files, source: string, dest: string, overwrite: bool): (r: Result<Files>)
    ensures r.Err? <==> source == dest || (dest in files && !overwrite)
    ensures source == dest ==> r == Err(ValueError("out_path must be different from db_path."))
    ensures source != dest && dest in files && !overwrite ==> r.Err? && r.error.FileExists?
  {
    if source == dest then Err(ValueError("out_path must be different from db_path."))
    else if dest in files && !overwrite then Err(FileExists("Destination already exists: " + dest))
    else Ok(files[dest := Opened(files, source)])
  }

  /** A copy holds the source's tables, leaves the source and every other file as they were. */
  lemma ExportedCopy(files: Files, source: string, dest: string, overwrite: bool, t: Table)
    requires ExportToDb(files, source, dest, overwrite).Ok?
    ensures var after := ExportToDb(files, source, dest, overwrite).value;
      dest in after && FetchOf(after[dest], t) == FetchOf(Opened(files, source), t)
      && Opened(after, source) == Opened(files, source)
      && forall p :: p != dest ==> (p in after <==> p in files) && (p in files ==> after[p] == files[p])
  {
  }

  /** Without `overwrite`, exporting to the same destination twice fails the second time. */
  lemma SecondExportRefused(files: Files, source: string, dest: string)
    requires ExportToDb(files, source, dest, false).Ok?
    ensures ExportToDb(ExportToDb(files, source, dest, false).value, source, dest, false).Err?
  {
  }

  /** The default destination: `<stem>_export_<ts>.db`, with the stem of the source's file name or "budget_tracker". */
  function DefaultDbExportName(stem: string, stamp: string): (name: string)
    ensures EndsWith(name, ".db")
  {
    (if stem == "" then "budget_tracker" else stem) + "_export_" + stamp + ".db"
  }
}
