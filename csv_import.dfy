/**
 * The CSV readers of the importer: cell coercion (`_coerce_value`), row to
 * dict (`_row_to_dict`), the sectioned single-file reader
 * (`_read_csv_single_file`) and the per-table zip reader (`_read_csv_zip`).
 *
 * A CSV file is modelled as its rows already split into cells by the csv module.
 */
module CsvImport {
  import opened Wrappers
  import opened Text
  import opened Values
  import opened ImportSchema

  // ---------------------------------------------------------------------
  // Cells

  /** `_coerce_value`: "" is None, true/false any case are bools, integer text is an int,
   *  float text a float, and anything else the original text. */
  function CoerceValue(val: string): (r: Value)
    ensures r.VNone? <==> val == ""
    ensures r.VStr? ==> r.s == val
    ensures r.VBool? ==> Lower(Strip(val)) in {"true", "false"}
    ensures r.VInt? ==> ParseInt(Strip(val)) == Some(r.i)
  {
    if val == "" then VNone
    else
      var s := Strip(val);
      var l := Lower(s);
      if l == "true" || l == "false" then VBool(l == "true")
      else if AllDigits(s) || (|s| > 1 && s[0] == '-' && AllDigits(s[1..])) then VInt(ParseInt(s).value)
      else
        match ParseFloat(s)
        case Some(d) => VFloat(d)
        case None => VStr(val)
  }

  /** `[c.strip() for c in raw]` */
  function StripCells(raw: seq<string>): (row: seq<string>)
    ensures |row| == |raw| && forall i :: 0 <= i < |raw| ==> row[i] == Strip(raw[i])
  {
    seq(|raw|, i requires 0 <= i < |raw| => Strip(raw[i]))
  }

  /** `any(row)`: some cell is non-empty. */
  predicate AnyNonEmpty(row: seq<string>) {
    exists i :: 0 <= i < |row| && row[i] != ""
  }

  /** The cell a header position reads: the row's cell, or "" past its end. */
  function CellAt(row: seq<string>, i: nat): string {
    if i < |row| then row[i] else ""
  }

  function CoercedCells(headers: seq<string>, row: seq<string>): (vals: seq<Value>)
    ensures |vals| == |headers| && forall i :: 0 <= i < |headers| ==> vals[i] == CoerceValue(CellAt(row, i))
  {
    seq(|headers|, i requires 0 <= i < |headers| => CoerceValue(CellAt(row, i)))
  }

  /** What `_row_to_dict` returns. */
  function RowRecord(headers: seq<string>, row: seq<string>): Record {
    DictOf(headers, CoercedCells(headers, row))
  }

  /** `_row_to_dict` */
  method RowToDict(headers: seq<string>, row: seq<string>) returns (record: Record)
    ensures record == RowRecord(headers, row)
  {
    record := [];
    var i := 0;
    while i < |headers|
      invariant 0 <= i <= |headers|
      invariant record == DictOf(headers[..i], CoercedCells(headers, row)[..i])
    {
      var val := if i < |row| then row[i] else "";
      DictOfSnoc(headers, CoercedCells(headers, row), i);
      record := Set(record, headers[i], CoerceValue(val));
      i := i + 1;
    }
    assert headers[..i] == headers;
    assert CoercedCells(headers, row)[..i] == CoercedCells(headers, row);
  }

  /** The dict of one more header is the dict so far with that header set. */
  lemma DictOfSnoc(keys: seq<string>, vals: seq<Value>, i: nat)
    requires |keys| == |vals| && i < |keys|
    ensures DictOf(keys[..i + 1], vals[..i + 1]) == Set(DictOf(keys[..i], vals[..i]), keys[i], vals[i])
  {
    assert keys[..i + 1][..i] == keys[..i];
    assert vals[..i + 1][..i] == vals[..i];
  }

  // ---------------------------------------------------------------------
  // Properties of cells and rows

  /** `_row_to_dict` has exactly the header keys, in header order, when they are distinct. */
  lemma RowRecordKeys(headers: seq<string>, row: seq<string>)
    requires Distinct(headers)
    ensures var r := RowRecord(headers, row);
      Keys(r) == headers &&
      forall i :: 0 <= i < |headers| ==> r[i].1 == CoerceValue(CellAt(row, i))
  {
    DictOfDistinct(headers, CoercedCells(headers, row));
  }

  /** Short rows pad with None. */
  lemma ShortRowPadsNone(headers: seq<string>, row: seq<string>, i: nat)
    requires Distinct(headers) && |row| <= i < |headers|
    ensures var r := RowRecord(headers, row); |r| == |headers| && r[i] == (headers[i], VNone)
  {
    DictOfDistinct(headers, CoercedCells(headers, row));
  }

  /** Cells past the last header are ignored. */
  lemma ExtraCellsDropped(headers: seq<string>, row: seq<string>)
    requires |row| >= |headers|
    ensures RowRecord(headers, row) == RowRecord(headers, row[..|headers|])
  {
    assert CoercedCells(headers, row) == CoercedCells(headers, row[..|headers|]);
  }

  lemma DigitsLower(s: string)
    requires forall i :: 0 <= i < |s| ==> !('A' <= s[i] <= 'Z')
    ensures Lower(s) == s
  {
  }

  /** The text `str(i)` writes reads back as the same int. */
  lemma CoerceIntText(i: int)
    ensures CoerceValue(IntToString(i)) == VInt(i)
  {
    var t := IntToString(i);
    assert Strip(t) == t by {
      assert !IsSpace(t[0]) && !IsSpace(t[|t| - 1]);
      StripOfStripped(t);
    }
    DigitsLower(t);
    assert t != "true" && t != "false" by {
      if i < 0 { assert t[0] == '-'; } else { assert IsDigit(t[0]); }
    }
    ParseIntToString(i);
    if i < 0 {
      assert t[1..] == NatToString(-i);
    }
  }

  /** Integer text with leading zeros reads as the int, so "007" comes back as 7. */
  lemma LeadingZerosDropped()
    ensures CoerceValue("007") == VInt(7)
    ensures Str(CoerceValue("007")) == "7"
  {
    assert Strip("007") == "007" by { StripOfStripped("007"); }
    DigitsLower("007");
    assert DigitsValue("007") == 7 by {
      assert "007"[..2] == "00";
      assert "00"[..1] == "0";
    }
  }

  /** The text `str(x)` writes for a float reads back as the same (normalized) float. */
  lemma CoerceFloatText(d: Decimal)
    ensures CoerceValue(FloatRepr(d)) == VFloat(Normalize(d))
  {
    var t := FloatRepr(d);
    FloatReprNoSpaces(d);
    StripOfStripped(t);
    var k := FloatReprDot(d);
    DotNotWordOrInt(t, k);
    ParseFloatRepr(d);
    CoerceFloatLike(t, Normalize(d));
  }

  /** `str(x)` of a float has its point after at least one digit. */
  lemma FloatReprDot(d: Decimal) returns (k: nat)
    ensures 0 < k < |FloatRepr(d)| && FloatRepr(d)[k] == '.'
  {
    var n := Normalize(d);
    var whole := NatToString(WholePart(n));
    var frac := FracText(n);
    var sign := if n.mantissa < 0 then "-" else "";
    assert FloatRepr(d) == sign + whole + "." + frac;
    k := |sign| + |whole|;
  }

  /** Text with a point is neither a bool word nor int text. */
  lemma DotNotWordOrInt(t: string, k: nat)
    requires 0 < k < |t| && t[k] == '.'
    ensures Lower(t) != "true" && Lower(t) != "false"
    ensures !AllDigits(t) && !(|t| > 1 && t[0] == '-' && AllDigits(t[1..]))
  {
    assert Lower(t)[k] == '.';
    assert t[1..][k - 1] == '.';
  }

  /** Stripped text that is no bool word and no int text, but float text, reads as that float. */
  lemma CoerceFloatLike(t: string, d: Decimal)
    requires t != "" && Strip(t) == t && Lower(t) != "true" && Lower(t) != "false"
    requires !AllDigits(t) && !(|t| > 1 && t[0] == '-' && AllDigits(t[1..]))
    requires ParseFloat(t) == Some(d)
    ensures CoerceValue(t) == VFloat(d)
  {
  }

  /** `str(True)`/`str(False)` read back as the same bool. */
  lemma CoerceBoolText(b: bool)
    ensures CoerceValue(Str(VBool(b))) == VBool(b)
  {
    var t := Str(VBool(b));
    StripOfStripped(t);
    assert Lower(t) == (if b then "true" else "false");
  }

  /** Text the coercion keeps as text: stripped, non-empty, and neither bool, int nor float text. */
  predicate PlainText(s: string) {
    s != "" && Strip(s) == s && Lower(s) != "true" && Lower(s) != "false"
    && !AllDigits(s) && !(|s| > 1 && s[0] == '-' && AllDigits(s[1..]))
    && ParseFloat(s).None?
  }

  /** The values an exported cell carries back unchanged: None, ints, floats, and plain text. */
  predicate CellSafe(v: Value) {
    match v
    case VNone => true
    case VInt(_) => true
    case VFloat(d) => Canonical(d)
    case VStr(s) => PlainText(s)
    case _ => false
  }

  /** The text the exporter writes for a stored value: None as "", otherwise `str`. */
  function CellText(v: Value): string {
    if v.VNone? then "" else Str(v)
  }

  /** Writing a stored value and reading the stripped cell back gives the value. */
  lemma CellRoundTrip(v: Value)
    requires CellSafe(v)
    ensures CoerceValue(Strip(CellText(v))) == v
  {
    match v
    case VNone => assert Strip("") == "";
    case VInt(i) =>
      var t := IntToString(i);
      assert !IsSpace(t[0]) && !IsSpace(t[|t| - 1]);
      StripOfStripped(t);
      CoerceIntText(i);
    case VFloat(d) =>
      FloatReprNoSpaces(d);
      StripOfStripped(FloatRepr(d));
      CoerceFloatText(d);
      NormalizeCanonical(d);
    case VStr(s) =>
  }

  // ---------------------------------------------------------------------
  // The sectioned single-file reader

  /**
   * The reader's state between rows. `current == ""` covers both "no table yet"
   * (Python `None`) and an empty table name: both are falsy and no row is read into them.
   */
  datatype ReaderState = ReaderState(current: string, headers: Option<seq<string>>, tables: map<string, seq<Record>>)

  /** `{t: [] for t in _IMPORT_TABLES}` */
  function EmptyTables(): (m: map<string, seq<Record>>)
    ensures forall t: Table :: TableName(t) in m && m[TableName(t)] == []
  {
    map["category" := [], "wallet" := [], "expense" := [], "goal" := [], "profile" := []]
  }

  function InitialState(): ReaderState {
    ReaderState("", None, EmptyTables())
  }

  /** `len(row) >= 2 and row[0] == marker` */
  predicate IsMarker(row: seq<string>, marker: string) {
    |row| >= 2 && row[0] == marker
  }

  /** `tables.setdefault(name, []).append(record)` */
  function AppendRecord(tables: map<string, seq<Record>>, name: string, record: Record): (m: map<string, seq<Record>>)
    ensures name in m && m[name] == (if name in tables then tables[name] else []) + [record]
    ensures forall k :: k != name ==> (k in m <==> k in tables) && (k in tables ==> m[k] == tables[k])
  {
    tables[name := (if name in tables then tables[name] else []) + [record]]
  }

  /** One iteration of the reader's loop over the raw rows. */
  function Step(st: ReaderState, raw: seq<string>): ReaderState {
    var row := StripCells(raw);
    if !AnyNonEmpty(row) then st
    else if IsMarker(row, "__EXPORT__") then st
    else if IsMarker(row, "__TABLE__") then st.(current := Lower(Strip(row[1])), headers := None)
    else if st.current == "" then st
    else if st.headers.None? then st.(headers := Some(row))
    else st.(tables := AppendRecord(st.tables, st.current, RowRecord(st.headers.value, row)))
  }

  /** The reader's state after the rows, in order. */
  function ReadRows(st: ReaderState, rows: seq<seq<string>>): ReaderState
    decreases |rows|
  {
    if rows == [] then st
    else ReadRows(Step(st, rows[0]), rows[1..])
  }

  /** `tables.get(t, [])`, every row a dict. */
  function TableRows(tables: map<string, seq<Record>>, t: Table): seq<RawRow> {
    AsRows(if TableName(t) in tables then tables[TableName(t)] else [])
  }

  /** `{t: tables.get(t, []) for t in _IMPORT_TABLES}`: exactly the five tables. */
  function KnownTables(tables: map<string, seq<Record>>): (r: RawTables)
    ensures Category in r && Wallet in r && Expense in r && Goal in r && Profile in r
    ensures forall t :: t in r ==> r[t] == TableRows(tables, t)
  {
    map[Category := TableRows(tables, Category), Wallet := TableRows(tables, Wallet),
        Expense := TableRows(tables, Expense), Goal := TableRows(tables, Goal),
        Profile := TableRows(tables, Profile)]
  }

  function AsRows(records: seq<Record>): (rows: seq<RawRow>)
    ensures |rows| == |records| && forall i :: 0 <= i < |records| ==> rows[i] == RDict(records[i])
  {
    seq(|records|, i requires 0 <= i < |records| => RDict(records[i]))
  }

  /** What `_read_csv_single_file` returns for the rows of a file. */
  function CsvTables(rows: seq<seq<string>>): RawTables {
    KnownTables(ReadRows(InitialState(), rows).tables)
  }

  lemma {:induction false} ReadRowsSnoc(st: ReaderState, rows: seq<seq<string>>, row: seq<string>)
    ensures ReadRows(st, rows + [row]) == Step(ReadRows(st, rows), row)
    decreases |rows|
  {
    if rows != [] {
      assert (rows + [row])[1..] == rows[1..] + [row];
      ReadRowsSnoc(Step(st, rows[0]), rows[1..], row);
    }
  }

  /** `_read_csv_single_file` */
  method ReadCsvSingleFile(rows: seq<seq<string>>) returns (result: RawTables)
    ensures result == CsvTables(rows)
  {
    var tables := EmptyTables();
    var current := "";
    var headers: Option<seq<string>> := None;
    var n := 0;
    while n < |rows|
      invariant 0 <= n <= |rows|
      invariant ReaderState(current, headers, tables) == ReadRows(InitialState(), rows[..n])
    {
      current, headers, tables := ReadRow(current, headers, tables, rows[n]);
      ReadRowsPrefix(rows, n);
      n := n + 1;
    }
    assert rows[..n] == rows;
    result := KnownTables(tables);
  }

  /** One pass of the `_read_csv_single_file` loop. */
  method ReadRow(current: string, headers: Option<seq<string>>, tables: map<string, seq<Record>>, raw: seq<string>)
    returns (current': string, headers': Option<seq<string>>, tables': map<string, seq<Record>>)
    ensures ReaderState(current', headers', tables') == Step(ReaderState(current, headers, tables), raw)
  {
    current', headers', tables' := current, headers, tables;
    var row := StripCells(raw);
    if !AnyNonEmpty(row) {
    } else if IsMarker(row, "__EXPORT__") {
    } else if IsMarker(row, "__TABLE__") {
      current' := Lower(Strip(row[1]));
      headers' := None;
    } else if current != "" {
      if headers.None? {
        headers' := Some(row);
      } else {
        var record := RowToDict(headers.value, row);
        tables' := AppendRecord(tables, current, record);
      }
    }
  }

  lemma ReadRowsPrefix(rows: seq<seq<string>>, n: nat)
    requires n < |rows|
    ensures ReadRows(InitialState(), rows[..n + 1]) == Step(ReadRows(InitialState(), rows[..n]), rows[n])
  {
    ReadRowsSnoc(InitialState(), rows[..n], rows[n]);
    assert rows[..n + 1] == rows[..n] + [rows[n]];
  }

  // ---------------------------------------------------------------------
  // Properties of the sectioned reader

  lemma {:induction false} ReadRowsAppend(st: ReaderState, a: seq<seq<string>>, b: seq<seq<string>>)
    ensures ReadRows(st, a + b) == ReadRows(ReadRows(st, a), b)
    decreases |a|
  {
    if a == [] {
      assert a + b == b;
    } else {
      assert (a + b)[0] == a[0] && (a + b)[1..] == a[1..] + b;
      ReadRowsAppend(Step(st, a[0]), a[1..], b);
    }
  }

  /** A raw row the reader skips outright: blank after stripping, or an `__EXPORT__` row. */
  predicate Skipped(raw: seq<string>) {
    !AnyNonEmpty(StripCells(raw)) || IsMarker(StripCells(raw), "__EXPORT__")
  }

  predicate TableMarker(raw: seq<string>) {
    AnyNonEmpty(StripCells(raw)) && !IsMarker(StripCells(raw), "__EXPORT__")
    && IsMarker(StripCells(raw), "__TABLE__")
  }

  /** A leading blank row is skipped. */
  lemma BlankRowSkipped(st: ReaderState, rest: seq<seq<string>>)
    ensures ReadRows(st, [[]] + rest) == ReadRows(st, rest)
  {
    var blank: seq<string> := [];
    assert !AnyNonEmpty(StripCells(blank));
    SkippedRowInvisible(st, [], blank, rest);
    assert [] + [blank] + rest == [blank] + rest;
    assert [] + rest == rest;
  }

  /** A row whose first cell strips to `__EXPORT__` is skipped. */
  lemma ExportRowSkipped(raw: seq<string>)
    requires |raw| >= 2 && Strip(raw[0]) == "__EXPORT__"
    ensures Skipped(raw)
  {
    assert StripCells(raw)[0] == "__EXPORT__";
  }

  /** Blank rows and `__EXPORT__` rows can be dropped anywhere without changing the result. */
  lemma SkippedRowInvisible(st: ReaderState, a: seq<seq<string>>, row: seq<string>, b: seq<seq<string>>)
    requires Skipped(row)
    ensures ReadRows(st, a + [row] + b) == ReadRows(st, a + b)
  {
    ReadRowsAppend(st, a + [row], b);
    ReadRowsAppend(st, a, [row]);
    ReadRowsAppend(st, a, b);
    assert ReadRows(ReadRows(st, a), [row]) == Step(ReadRows(st, a), row);
  }

  /** Rows before the first `__TABLE__` marker leave the reader in its initial state. */
  lemma {:induction false} RowsBeforeMarkerDropped(st: ReaderState, rows: seq<seq<string>>)
    requires st.current == ""
    requires forall i :: 0 <= i < |rows| ==> !TableMarker(rows[i])
    ensures ReadRows(st, rows) == st
    decreases |rows|
  {
    if rows != [] {
      RowsBeforeMarkerDropped(Step(st, rows[0]), rows[1..]);
    }
  }

  /** So a file without any `__TABLE__` marker reads as five empty tables. */
  lemma NoMarkerNoRecords(rows: seq<seq<string>>)
    requires forall i :: 0 <= i < |rows| ==> !TableMarker(rows[i])
    ensures forall t :: t in CsvTables(rows) ==> CsvTables(rows)[t] == []
  {
    RowsBeforeMarkerDropped(InitialState(), rows);
  }

  /** A row the reader reads as a header or a record. */
  predicate DataRow(raw: seq<string>) {
    AnyNonEmpty(StripCells(raw)) && !IsMarker(StripCells(raw), "__EXPORT__")
    && !IsMarker(StripCells(raw), "__TABLE__")
  }

  /** Cells that are already stripped are kept as they are. */
  lemma StripCellsOfStripped(raw: seq<string>)
    requires forall i :: 0 <= i < |raw| ==> Strip(raw[i]) == raw[i]
    ensures StripCells(raw) == raw
  {
  }

  /** A row whose first cell is non-empty, unpadded and not a marker word is read as data. */
  lemma DataRowOf(raw: seq<string>)
    requires raw != [] && raw[0] != "" && Strip(raw[0]) == raw[0]
    requires raw[0] != "__EXPORT__" && raw[0] != "__TABLE__"
    ensures DataRow(raw)
  {
    assert StripCells(raw)[0] == raw[0];
  }

  /** The records a run of rows yields under `headers`: one per data row, blank and export rows skipped. */
  function DataRecords(headers: seq<string>, rows: seq<seq<string>>): (recs: seq<Record>)
    ensures |recs| <= |rows|
  {
    if rows == [] then []
    else
      (if DataRow(rows[0]) then [RowRecord(headers, StripCells(rows[0]))] else [])
      + DataRecords(headers, rows[1..])
  }

  /** `setdefault(name, []).append(r)` for each record in turn; no records, no change. */
  function AppendRecords(tables: map<string, seq<Record>>, name: string, recs: seq<Record>): map<string, seq<Record>> {
    if recs == [] then tables
    else tables[name := (if name in tables then tables[name] else []) + recs]
  }

  /** Appending under `name` lengthens that table by the records and leaves every other table as it was. */
  lemma AppendRecordsAt(tables: map<string, seq<Record>>, name: string, recs: seq<Record>, k: string)
    requires k in tables
    ensures var m := AppendRecords(tables, name, recs);
      k in m && m[k] == tables[k] + (if k == name then recs else [])
  {
    assert tables[k] + [] == tables[k];
  }

  /** Appending a list of record runs, each under its name, in turn. */
  function AppendAll(tables: map<string, seq<Record>>, names: seq<string>, recs: seq<seq<Record>>): map<string, seq<Record>>
    requires |names| == |recs|
  {
    if names == [] then tables
    else
      var n := |names| - 1;
      AppendRecords(AppendAll(tables, names[..n], recs[..n]), names[n], recs[n])
  }

  /** Appending one more run at the end of `AppendAll`. */
  lemma AppendAllSnoc(tables: map<string, seq<Record>>, names: seq<string>, recs: seq<seq<Record>>, name: string, r: seq<Record>)
    requires |names| == |recs|
    ensures AppendAll(tables, names + [name], recs + [r]) == AppendRecords(AppendAll(tables, names, recs), name, r)
  {
    assert (names + [name])[..|names|] == names;
    assert (recs + [r])[..|recs|] == recs;
  }

  /** With distinct names, each named table gains exactly its own run. */
  lemma {:induction false} AppendAllAt(tables: map<string, seq<Record>>, names: seq<string>, recs: seq<seq<Record>>, k: nat)
    requires |names| == |recs| && Distinct(names) && k < |names| && names[k] in tables
    ensures var m := AppendAll(tables, names, recs);
      names[k] in m && m[names[k]] == tables[names[k]] + recs[k]
  {
    var n := |names| - 1;
    var m' := AppendAll(tables, names[..n], recs[..n]);
    DistinctLast(names);
    if k == n {
      AppendAllAbsent(tables, names[..n], recs[..n], names[k]);
      AppendRecordsAt(m', names[n], recs[n], names[k]);
    } else {
      AppendAllAt(tables, names[..n], recs[..n], k);
      assert names[..n][k] == names[k];
      AppendRecordsAt(m', names[n], recs[n], names[k]);
      assert names[k] != names[n];
      assert m'[names[k]] + [] == m'[names[k]];
    }
  }

  /** A name no run is appended under keeps its table. */
  lemma {:induction false} AppendAllAbsent(tables: map<string, seq<Record>>, names: seq<string>, recs: seq<seq<Record>>, name: string)
    requires |names| == |recs| && name !in names && name in tables
    ensures var m := AppendAll(tables, names, recs); name in m && m[name] == tables[name]
  {
    if names != [] {
      var n := |names| - 1;
      assert name != names[n];
      assert name !in names[..n];
      AppendAllAbsent(tables, names[..n], recs[..n], name);
      AppendRecordsAt(AppendAll(tables, names[..n], recs[..n]), names[n], recs[n], name);
      assert tables[name] + [] == tables[name];
    }
  }

  lemma AppendRecordsTwice(tables: map<string, seq<Record>>, name: string, a: seq<Record>, b: seq<Record>)
    ensures AppendRecords(AppendRecords(tables, name, a), name, b) == AppendRecords(tables, name, a + b)
  {
    if a == [] { assert a + b == b; }
    else if b == [] { assert a + b == a; }
    else {
      var prior := if name in tables then tables[name] else [];
      assert prior + a + b == prior + (a + b);
    }
  }

  /** One row under a header: a data row appends its record, any other row changes nothing. */
  lemma DataStep(st: ReaderState, row: seq<string>)
    requires st.current != "" && st.headers.Some? && !TableMarker(row)
    ensures Step(st, row) == st.(tables := AppendRecords(st.tables, st.current,
      if DataRow(row) then [RowRecord(st.headers.value, StripCells(row))] else []))
  {
  }

  /** Under a header, every data row appends its record to the current table and nothing else changes. */
  lemma {:induction false} DataRowsRead(st: ReaderState, rows: seq<seq<string>>)
    requires st.current != "" && st.headers.Some?
    requires forall i :: 0 <= i < |rows| ==> !TableMarker(rows[i])
    ensures ReadRows(st, rows)
      == st.(tables := AppendRecords(st.tables, st.current, DataRecords(st.headers.value, rows)))
    decreases |rows|
  {
    if rows != [] {
      var h := st.headers.value;
      var first := if DataRow(rows[0]) then [RowRecord(h, StripCells(rows[0]))] else [];
      DataStep(st, rows[0]);
      var st1 := Step(st, rows[0]);
      DataRowsRead(st1, rows[1..]);
      AppendRecordsTwice(st.tables, st.current, first, DataRecords(h, rows[1..]));
    }
  }

  /**
   * A section: a `__TABLE__` marker, a header row, then data rows. Whatever the
   * reader was doing before, the section's records go to the stripped, lower-cased
   * name under that header.
   */
  lemma SectionRead(st: ReaderState, marker: seq<string>, header: seq<string>, rows: seq<seq<string>>)
    requires TableMarker(marker) && DataRow(header)
    requires Lower(Strip(StripCells(marker)[1])) != ""
    requires forall i :: 0 <= i < |rows| ==> !TableMarker(rows[i])
    ensures var name := Lower(Strip(StripCells(marker)[1]));
      ReadRows(st, [marker, header] + rows)
      == ReaderState(name, Some(StripCells(header)),
                     AppendRecords(st.tables, name, DataRecords(StripCells(header), rows)))
  {
    var name := Lower(Strip(StripCells(marker)[1]));
    var st1 := Step(st, marker);
    assert st1 == st.(current := name, headers := None);
    var st2 := Step(st1, header);
    assert st2 == st1.(headers := Some(StripCells(header)));
    ReadRowsAppend(st, [marker, header], rows);
    assert ReadRows(st, [marker, header]) == st2 by {
      assert [marker, header][1..] == [header];
      assert ReadRows(st1, [header]) == ReadRows(st2, []);
    }
    DataRowsRead(st2, rows);
  }

  /** Sections under a name that is no import table leave the result unchanged. */
  lemma UnknownSectionIgnored(tables: map<string, seq<Record>>, name: string, recs: seq<Record>)
    requires TableNamed(name) == None
    ensures KnownTables(AppendRecords(tables, name, recs)) == KnownTables(tables)
  {
    forall t: Table ensures TableRows(AppendRecords(tables, name, recs), t) == TableRows(tables, t) {
      assert TableName(t) != name;
    }
  }

  // ---------------------------------------------------------------------
  // The per-table zip reader

  /** The records of one zip member: the first non-blank row is the header, each later non-blank row a record. */
  function MemberRecords(headers: Option<seq<string>>, rows: seq<seq<string>>): seq<Record>
    decreases |rows|
  {
    if rows == [] then []
    else
      var row := StripCells(rows[0]);
      if !AnyNonEmpty(row) then MemberRecords(headers, rows[1..])
      else if headers.None? then MemberRecords(Some(row), rows[1..])
      else [RowRecord(headers.value, row)] + MemberRecords(headers, rows[1..])
  }

  /** The rows of table `t` in the zip: `<t>.csv` when that member exists, else none. */
  function ZipTableRows(members: map<string, seq<seq<string>>>, t: Table): seq<RawRow> {
    var name := TableName(t) + ".csv";
    if name in members then AsRows(MemberRecords(None, members[name])) else []
  }

  /** What `_read_csv_zip` returns for the zip's members (file name to split rows). */
  function ZipTables(members: map<string, seq<seq<string>>>): (r: RawTables)
    ensures Category in r && Wallet in r && Expense in r && Goal in r && Profile in r
    ensures forall t :: t in r ==> r[t] == ZipTableRows(members, t)
  {
    map[Category := ZipTableRows(members, Category), Wallet := ZipTableRows(members, Wallet),
        Expense := ZipTableRows(members, Expense), Goal := ZipTableRows(members, Goal),
        Profile := ZipTableRows(members, Profile)]
  }

  /** The loop over one member's rows. */
  method ReadMember(rows: seq<seq<string>>) returns (records: seq<Record>)
    ensures records == MemberRecords(None, rows)
  {
    records := [];
    var headers: Option<seq<string>> := None;
    var n := 0;
    while n < |rows|
      invariant 0 <= n <= |rows|
      invariant records + MemberRecords(headers, rows[n..]) == MemberRecords(None, rows)
    {
      assert rows[n..][0] == rows[n] && rows[n..][1..] == rows[n + 1..];
      var row := StripCells(rows[n]);
      if !AnyNonEmpty(row) {
      } else if headers.None? {
        headers := Some(row);
      } else {
        var record := RowToDict(headers.value, row);
        assert records + [record] + MemberRecords(headers, rows[n + 1..])
          == records + ([record] + MemberRecords(headers, rows[n + 1..]));
        records := records + [record];
      }
      n := n + 1;
    }
    assert records + [] == records;
  }

  lemma ZipRowsOf(members: map<string, seq<seq<string>>>, t: Table)
    ensures RowsOf(ZipTables(members), t) == ZipTableRows(members, t)
  {
    TableCase(t);
  }

  method ReadCsvZip(members: map<string, seq<seq<string>>>) returns (result: RawTables)
    ensures result == ZipTables(members)
  {
    ghost var z := ZipTables(members);
    result := NoTables();
    ReadUpToNone(z);
    var k := 0;
    while k < |ImportTables|
      invariant 0 <= k <= |ImportTables|
      invariant ReadUpTo(result, z, k)
    {
      var table := ImportTables[k];
      var name := TableName(table) + ".csv";
      ReadUpToStep(result, z, k);
      ZipRowsOf(members, table);
      if name in members {
        var records := ReadMember(members[name]);
        result := result[table := AsRows(records)];
      }
      k := k + 1;
    }
    ReadUpToAll(result, z);
  }
}
