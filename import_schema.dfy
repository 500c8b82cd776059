/**
 * Schema-aware normalization of imported rows: the per-type coercers, the
 * per-table column schema, case-insensitive key matching and the projection
 * of a raw record onto its table's columns.
 */
module ImportSchema {
  import opened Wrappers
  import opened Text
  import opened Values
  import JsonText

  // ---------------------------------------------------------------------
  // Coercers

  /** `v is None or v == ""` */
  predicate Blank(v: Value) {
    v == VNone || v == VStr("")
  }

  /** `_to_int`: int text, else float text truncated, bools as 0/1, otherwise None. */
  function ToInt(v: Value): (r: Value)
    ensures r.VNone? || r.VInt?
    ensures Blank(v) ==> r == VNone
    ensures v.VBool? ==> r == VInt(if v.b then 1 else 0)
  {
    if Blank(v) then VNone
    else if v.VBool? then VInt(if v.b then 1 else 0)
    else
      var t := Strip(Str(v));
      match ParseInt(t)
      case Some(i) => VInt(i)
      case None =>
        match ParseFloat(t)
        case Some(d) => VInt(Truncate(d))
        case None => VNone
  }

  /** `_to_float`: `float(str(v).strip())`, otherwise None. */
  function ToFloat(v: Value): (r: Value)
    ensures r.VNone? || (r.VFloat? && Canonical(r.d))
    ensures Blank(v) ==> r == VNone
  {
    if Blank(v) then VNone
    else
      match ParseFloat(Strip(Str(v)))
      case Some(d) => VFloat(d)
      case None => VNone
  }

  /** `_to_str`: `str(v)`; None stays None. */
  function ToStr(v: Value): (r: Value)
    ensures r.VNone? <==> v.VNone?
    ensures r.VStr? || r.VNone?
  {
    if v.VNone? then VNone else VStr(Str(v))
  }

  const TrueWords: set<string> := {"1", "true", "yes", "y", "t"}
  const FalseWords: set<string> := {"0", "false", "no", "n", "f"}

  /** `_to_bool` */
  function ToBool(v: Value): (r: Value)
    ensures r.VNone? || r.VBool?
  {
    if Blank(v) then VNone
    else if v.VBool? then v
    else
      var s := Lower(Strip(Str(v)));
      if s in TrueWords then VBool(true)
      else if s in FalseWords then VBool(false)
      else VNone
  }

  function IsLeapYear(y: int): bool {
    y % 4 == 0 && (y % 100 != 0 || y % 400 == 0)
  }

  function DaysInMonth(y: int, m: int): int
    requires 1 <= m <= 12
  {
    if m == 2 then (if IsLeapYear(y) then 29 else 28)
    else if m == 4 || m == 6 || m == 9 || m == 11 then 30
    else 31
  }

  /** `YYYY-MM-DD` naming an existing calendar day (year 1 to 9999). */
  predicate IsIsoDate(s: string) {
    |s| == 10 && s[4] == '-' && s[7] == '-'
    && AllDigits(s[..4]) && AllDigits(s[5..7]) && AllDigits(s[8..])
    && var y, m, d := DigitsValue(s[..4]), DigitsValue(s[5..7]), DigitsValue(s[8..]);
    1 <= y && 1 <= m <= 12 && 1 <= d <= DaysInMonth(y, m)
  }

  /** `_to_date_str`, strict `YYYY-MM-DD` path. */
  function ToDateStr(v: Value): (r: Value)
    ensures r.VNone? || (r.VStr? && IsIsoDate(r.s))
  {
    if Blank(v) then VNone
    else
      var s := Strip(Str(v));
      if IsIsoDate(s) then VStr(s) else VNone
  }

  /** `_to_timestamp_str`: stripped text, passed through. */
  function ToTimestampStr(v: Value): (r: Value)
    ensures Blank(v) ==> r == VNone
    ensures !Blank(v) ==> r == VStr(Strip(Str(v)))
  {
    if Blank(v) then VNone else VStr(Strip(Str(v)))
  }

  /** `_to_json_text`: lists become JSON text, other values their `str`; None stays None. */
  function ToJsonText(v: Value): (r: Value)
    ensures r.VNone? <==> v.VNone?
    ensures r.VStr?  || r.VNone?
    ensures v.VList? ==> r == VStr(JsonText.Encode(v, false))
  {
    if v.VNone? then VNone
    else if v.VList? then VStr(JsonText.Encode(v, false))
    else VStr(Str(v))
  }

  datatype Coercer = CInt | CFloat | CStr | CBool | CDate | CTimestamp | CJson

  function Apply(c: Coercer, v: Value): Value {
    match c
    case CInt => ToInt(v)
    case CFloat => ToFloat(v)
    case CStr => ToStr(v)
    case CBool => ToBool(v)
    case CDate => ToDateStr(v)
    case CTimestamp => ToTimestampStr(v)
    case CJson => ToJsonText(v)
  }

  // ---------------------------------------------------------------------
  // Properties of the coercers

  /** Every coercer maps a missing value to None. */
  lemma ApplyNone(c: Coercer)
    ensures Apply(c, VNone) == VNone
  {
  }

  /**
   * Float text is accepted by `_to_int` through its fallback and truncated
   * toward zero (so "3.0" gives 3 and "-2.5" gives -2).
   */
  lemma ToIntFloatText(d: Decimal)
    ensures ToInt(VStr(FloatRepr(d))) == VInt(Truncate(Normalize(d)))
  {
    var t := FloatRepr(d);
    var n := Normalize(d);
    var whole := NatToString(WholePart(n));
    var frac := FracText(n);
    assert t == (if n.mantissa < 0 then "-" else "") + whole + "." + frac;
    FloatReprNoSpaces(d);
    StripOfStripped(t);
    assert !AllDigits(t) && !AllDigits(t[1..]) by {
      var k := |t| - |frac| - 1;
      assert t[k] == '.';
      assert k > 0;
    }
    ParseFloatRepr(d);
  }

  /** `_to_int` gives None for text that is neither int nor float text. */
  lemma ToIntUnparsable(s: string)
    requires !Blank(VStr(s)) && ParseInt(Strip(s)).None? && ParseFloat(Strip(s)).None?
    ensures ToInt(VStr(s)) == VNone
  {
  }

  lemma LowerNoUpper(s: string)
    requires forall i :: 0 <= i < |s| ==> !('A' <= s[i] <= 'Z')
    ensures Lower(s) == s
  {
  }

  /** Any capitalisation and surrounding spaces of a known word read as that word. */
  lemma ToBoolTrimsAndLowers(s: string, w: string)
    requires w in TrueWords || w in FalseWords
    requires Lower(Strip(s)) == w
    ensures ToBool(VStr(s)) == VBool(w in TrueWords)
  {
    StripShape(s);
    assert s != "";
  }

  /** The words the bool coercer knows, read as written. */
  lemma ToBoolWords(s: string)
    requires s in TrueWords || s in FalseWords
    ensures ToBool(VStr(s)) == VBool(s in TrueWords)
  {
    if s in TrueWords {
      WordPlain(s, TrueWords);
    } else {
      WordPlain(s, FalseWords);
    }
    ToBoolTrimsAndLowers(s, s);
  }

  /** Each known word is lower-case and unpadded. */
  lemma WordPlain(s: string, words: set<string>)
    requires words == TrueWords || words == FalseWords
    requires s in words
    ensures Lower(Strip(s)) == s
  {
    assert |s| > 0 && !IsSpace(s[0]) && !IsSpace(s[|s| - 1]);
    assert forall i :: 0 <= i < |s| ==> !('A' <= s[i] <= 'Z');
    StripOfStripped(s);
    LowerNoUpper(s);
  }

  /** Text outside both word lists gives None. */
  lemma ToBoolUnknown(s: string)
    requires s != "" && Lower(Strip(s)) !in TrueWords && Lower(Strip(s)) !in FalseWords
    ensures ToBool(VStr(s)) == VNone
  {
  }

  /** An int stays the same int. */
  lemma ToIntOfInt(i: int)
    ensures ToInt(VInt(i)) == VInt(i)
  {
    var t := IntToString(i);
    assert Strip(t) == t by {
      assert !IsSpace(t[0]) && !IsSpace(t[|t| - 1]);
      StripOfStripped(t);
    }
    ParseIntToString(i);
  }

  /** A canonical float stays the same float. */
  lemma ToFloatOfFloat(d: Decimal)
    requires Canonical(d)
    ensures ToFloat(VFloat(d)) == VFloat(d)
  {
    var t := FloatRepr(d);
    FloatReprNoSpaces(d);
    StripOfStripped(t);
    ParseFloatRepr(d);
    NormalizeCanonical(d);
  }

  lemma FloatReprNoSpaces(d: Decimal)
    ensures var t := FloatRepr(d); !IsSpace(t[0]) && !IsSpace(t[|t| - 1])
  {
    var n := Normalize(d);
    var whole := NatToString(WholePart(n));
    var frac := FracText(n);
    assert FloatRepr(d) == (if n.mantissa < 0 then "-" else "") + whole + "." + frac;
  }

  /**
   * Applying a coercer to its own output changes nothing, except that a
   * whitespace-only timestamp first becomes "" and then None.
   */
  lemma ApplyIdempotent(c: Coercer, v: Value)
    requires !(c == CTimestamp && Apply(c, v) == VStr(""))
    ensures Apply(c, Apply(c, v)) == Apply(c, v)
  {
    match c
    case CInt => IntIdempotent(v);
    case CFloat => FloatIdempotent(v);
    case CStr =>
    case CBool =>
    case CDate => DateIdempotent(v);
    case CTimestamp => TimestampIdempotent(v);
    case CJson =>
  }

  lemma IntIdempotent(v: Value)
    ensures ToInt(ToInt(v)) == ToInt(v)
  {
    var r := ToInt(v);
    if r.VInt? { ToIntOfInt(r.i); }
  }

  lemma FloatIdempotent(v: Value)
    ensures ToFloat(ToFloat(v)) == ToFloat(v)
  {
    var r := ToFloat(v);
    if r.VFloat? { ToFloatOfFloat(r.d); }
  }

  lemma DateIdempotent(v: Value)
    ensures ToDateStr(ToDateStr(v)) == ToDateStr(v)
  {
    var r := ToDateStr(v);
    if r.VStr? {
      IsoDateKept(r.s);
    }
  }

  /** An ISO date is read back as itself. */
  lemma IsoDateKept(s: string)
    requires IsIsoDate(s)
    ensures ToDateStr(VStr(s)) == VStr(s)
  {
    assert s[0] == s[..4][0] && s[9] == s[8..][1];
    assert !IsSpace(s[0]) && !IsSpace(s[9]);
    StripOfStripped(s);
    assert !Blank(VStr(s)) && Str(VStr(s)) == s;
  }

  lemma TimestampIdempotent(v: Value)
    requires ToTimestampStr(v) != VStr("")
    ensures ToTimestampStr(ToTimestampStr(v)) == ToTimestampStr(v)
  {
    if !Blank(v) { StripIdempotent(Str(v)); }
  }

  /** The exception: `_to_timestamp_str("  ")` is "", and "" then becomes None. */
  lemma TimestampWhitespaceNotIdempotent()
    ensures ToTimestampStr(VStr("  ")) == VStr("")
    ensures ToTimestampStr(ToTimestampStr(VStr("  "))) == VNone
  {
    assert StripLeft("  ") == "";
  }

  // ---------------------------------------------------------------------
  // Schema

  datatype Column = Column(name: string, coercer: Coercer)

  /** The five tables the importer knows, in `_IMPORT_TABLES` order. */
  datatype Table = Category | Wallet | Expense | Goal | Profile

  const ImportTables: seq<Table> := [Category, Wallet, Expense, Goal, Profile]

  /** The position of a table in `_IMPORT_TABLES`. */
  function TableIndex(t: Table): (k: nat)
    ensures k < |ImportTables| && ImportTables[k] == t
  {
    match t
    case Category => 0
    case Wallet => 1
    case Expense => 2
    case Goal => 3
    case Profile => 4
  }

  /** `TableIndex` inverts indexing into `_IMPORT_TABLES`. */
  lemma TableAt(k: nat)
    requires k < |ImportTables|
    ensures TableIndex(ImportTables[k]) == k
  {
  }

  function TableName(t: Table): string {
    match t
    case Category => "category"
    case Wallet => "wallet"
    case Expense => "expense"
    case Goal => "goal"
    case Profile => "profile"
  }

  lemma TableNameInjective(a: Table, b: Table)
    requires TableName(a) == TableName(b)
    ensures a == b
  {
    match a
    case Category => assert TableName(a)[0] == 'c';
    case Wallet => assert TableName(a)[0] == 'w';
    case Expense => assert TableName(a)[0] == 'e';
    case Goal => assert TableName(a)[0] == 'g';
    case Profile => assert TableName(a)[0] == 'p';
  }

  /** The table a name denotes, if any (exact match). */
  function TableNamed(name: string): (r: Option<Table>)
    ensures r.Some? ==> TableName(r.value) == name
    ensures r.None? ==> forall t: Table :: TableName(t) != name
  {
    if name == "category" then Some(Category)
    else if name == "wallet" then Some(Wallet)
    else if name == "expense" then Some(Expense)
    else if name == "goal" then Some(Goal)
    else if name == "profile" then Some(Profile)
    else None
  }

  const CategorySchema: seq<Column> := [
    Column("id", CInt), Column("name", CStr), Column("limit_amount", CFloat),
    Column("type", CInt), Column("currency", CStr)]

  const WalletSchema: seq<Column> := [
    Column("id", CInt), Column("name", CStr), Column("amount", CFloat),
    Column("currency", CStr), Column("created_at", CTimestamp)]

  const ExpenseSchema: seq<Column> := [
    Column("id", CInt), Column("name", CStr), Column("category_id", CInt),
    Column("cost", CFloat), Column("date", CDate), Column("description", CStr),
    Column("wallet_id", CInt)]

  const GoalSchema: seq<Column> := [
    Column("id", CInt), Column("name", CStr), Column("amount_to_reach", CFloat),
    Column("amount_reached", CFloat), Column("category_id", CInt), Column("currency", CStr),
    Column("completed", CBool), Column("start_date", CDate), Column("end_date", CDate)]

  const ProfileSchema: seq<Column> := [
    Column("id", CInt), Column("name", CStr), Column("photo_path", CStr),
    Column("monthly_budget", CFloat), Column("main_wallet_id", CInt), Column("skip_months", CJson),
    Column("theme", CInt), Column("password_hash", CStr), Column("created_at", CTimestamp),
    Column("last_login", CTimestamp)]

  /** `_SCHEMA[table]` */
  function SchemaOf(table: Table): seq<Column> {
    match table
    case Category => CategorySchema
    case Wallet => WalletSchema
    case Expense => ExpenseSchema
    case Goal => GoalSchema
    case Profile => ProfileSchema
  }

  function ColumnNames(cols: seq<Column>): (names: seq<string>)
    ensures |names| == |cols| && forall i :: 0 <= i < |cols| ==> names[i] == cols[i].name
  {
    if cols == [] then [] else [cols[0].name] + ColumnNames(cols[1..])
  }

  /** The first column whose lower-cased name equals `lk`. */
  function FindColumn(cols: seq<Column>, lk: string): (r: Option<string>)
    ensures r.Some? ==> r.value in ColumnNames(cols) && Lower(r.value) == lk
    ensures r.None? ==> forall c :: c in ColumnNames(cols) ==> Lower(c) != lk
  {
    if cols == [] then None
    else if Lower(cols[0].name) == lk then Some(cols[0].name)
    else FindColumn(cols[1..], lk)
  }

  /**
   * `_canonical_key`: the schema's spelling of a key, matched
   * case-insensitively against the columns `cols` of the table.
   */
  function CanonicalKey(cols: seq<Column>, key: string): Option<string> {
    FindColumn(cols, Lower(key))
  }

  /** The value of the last key of `rec` that maps to column `col`. */
  function LastMatch(cols: seq<Column>, rec: Record, col: string): Option<Value> {
    if rec == [] then None
    else if CanonicalKey(cols, rec[|rec| - 1].0) == Some(col) then Some(rec[|rec| - 1].1)
    else LastMatch(cols, rec[..|rec| - 1], col)
  }

  /** The coerced value of one column. */
  function Cell(cols: seq<Column>, rec: Record, col: Column): (string, Value) {
    (col.name, Apply(col.coercer, LastMatch(cols, rec, col.name).GetOr(VNone)))
  }

  /** What `_project_and_coerce` returns: every column of `cols`, in order. */
  function Projected(cols: seq<Column>, rec: Record): (r: Record)
    ensures Keys(r) == ColumnNames(cols)
  {
    seq(|cols|, j requires 0 <= j < |cols| => Cell(cols, rec, cols[j]))
  }

  /** `temp` holds, for every column, the value of the last key of `rec` that maps to it. */
  ghost predicate HoldsLastMatches(cols: seq<Column>, rec: Record, temp: Record) {
    forall c :: Get(temp, c) == LastMatch(cols, rec, c)
  }

  /** One step of the key-mapping loop keeps `temp` equal to the last match so far. */
  lemma LastMatchStep(cols: seq<Column>, rec: Record, i: nat, temp: Record, temp': Record)
    requires i < |rec|
    requires HoldsLastMatches(cols, rec[..i], temp)
    requires var canon := CanonicalKey(cols, rec[i].0);
      temp' == if canon.Some? then Set(temp, canon.value, rec[i].1) else temp
    ensures HoldsLastMatches(cols, rec[..i + 1], temp')
  {
    var canon := CanonicalKey(cols, rec[i].0);
    assert rec[..i + 1][..i] == rec[..i];
    if canon.Some? {
      forall c ensures Get(temp', c) == LastMatch(cols, rec[..i + 1], c) {
        GetSet(temp, canon.value, rec[i].1, c);
      }
    }
  }

  /** `_project_and_coerce` */
  method ProjectAndCoerce(cols: seq<Column>, record: Record) returns (out: Record)
    ensures out == Projected(cols, record)
  {
    var temp := MatchKeys(cols, record);
    out := CoerceColumns(cols, record, temp);
  }

  /** The first loop of `_project_and_coerce`: each column holds the value of its last matching key. */
  method MatchKeys(cols: seq<Column>, record: Record) returns (temp: Record)
    ensures HoldsLastMatches(cols, record, temp)
  {
    temp := [];
    var i := 0;
    while i < |record|
      invariant 0 <= i <= |record|
      invariant HoldsLastMatches(cols, record[..i], temp)
    {
      var canon := CanonicalKey(cols, record[i].0);
      var temp' := temp;
      if canon.Some? {
        temp' := Set(temp, canon.value, record[i].1);
      }
      LastMatchStep(cols, record, i, temp, temp');
      temp := temp';
      i := i + 1;
    }
    assert record[..i] == record;
  }

  /** The second loop of `_project_and_coerce`: every column, in order, coerced. */
  method CoerceColumns(cols: seq<Column>, record: Record, temp: Record) returns (out: Record)
    requires HoldsLastMatches(cols, record, temp)
    ensures out == Projected(cols, record)
  {
    out := [];
    var j := 0;
    while j < |cols|
      invariant 0 <= j <= |cols| && |out| == j
      invariant forall m :: 0 <= m < j ==> out[m] == Cell(cols, record, cols[m])
    {
      var raw := Get(temp, cols[j].name);
      out := out + [(cols[j].name, Apply(cols[j].coercer, raw.GetOr(VNone)))];
      j := j + 1;
    }
    assert forall m :: 0 <= m < |out| ==> out[m] == Projected(cols, record)[m];
  }

  // ---------------------------------------------------------------------
  // Properties of the projection

  /** A column no key maps to comes out as None. */
  lemma MissingColumnIsNone(cols: seq<Column>, rec: Record, j: nat)
    requires j < |cols|
    requires forall i :: 0 <= i < |rec| ==> Lower(rec[i].0) != Lower(cols[j].name)
    ensures Projected(cols, rec)[j] == (cols[j].name, VNone)
  {
    NoMatch(cols, rec, cols[j].name);
    ApplyNone(cols[j].coercer);
  }

  lemma {:induction false} NoMatch(cols: seq<Column>, rec: Record, col: string)
    requires forall i :: 0 <= i < |rec| ==> Lower(rec[i].0) != Lower(col)
    ensures LastMatch(cols, rec, col) == None
  {
    if rec != [] {
      NoMatch(cols, rec[..|rec| - 1], col);
    }
  }

  /** Keys that name no column of the table are dropped: appending one changes nothing. */
  lemma UnknownKeyDropped(cols: seq<Column>, rec: Record, k: string, v: Value)
    requires CanonicalKey(cols, k) == None
    ensures Projected(cols, rec + [(k, v)]) == Projected(cols, rec)
  {
    var rec' := rec + [(k, v)];
    assert rec'[..|rec'| - 1] == rec;
    forall c ensures LastMatch(cols, rec', c) == LastMatch(cols, rec, c) {
    }
  }

  /** Matching is case-insensitive: records whose keys agree up to case project alike. */
  lemma {:induction false} CaseInsensitive(cols: seq<Column>, rec: Record, rec': Record, col: string)
    requires |rec| == |rec'|
    requires forall i :: 0 <= i < |rec| ==> Lower(rec[i].0) == Lower(rec'[i].0) && rec[i].1 == rec'[i].1
    ensures LastMatch(cols, rec, col) == LastMatch(cols, rec', col)
  {
    if rec != [] {
      var n := |rec| - 1;
      assert CanonicalKey(cols, rec[n].0) == CanonicalKey(cols, rec'[n].0);
      CaseInsensitive(cols, rec[..n], rec'[..n], col);
    }
  }

  lemma ProjectedCaseInsensitive(cols: seq<Column>, rec: Record, rec': Record)
    requires |rec| == |rec'|
    requires forall i :: 0 <= i < |rec| ==> Lower(rec[i].0) == Lower(rec'[i].0) && rec[i].1 == rec'[i].1
    ensures Projected(cols, rec) == Projected(cols, rec')
  {
    forall c { CaseInsensitive(cols, rec, rec', c); }
  }

  // ---------------------------------------------------------------------
  // All tables

  /** A row as a reader produced it: a dict, or some other JSON value. */
  datatype RawRow = RDict(fields: Record) | ROther(value: Value)

  type RawTables = map<Table, seq<RawRow>>
  type Tables = map<Table, seq<Record>>

  /**
   * A decoded JSON document, as deep as the readers look into it: an object, a
   * list whose items are rows (an object, or any other value), or a scalar.
   */
  datatype Json = JObject(members: map<string, Json>) | JList(items: seq<RawRow>) | JScalar(value: Value)

  lemma TableCase(t: Table)
    ensures t == Category || t == Wallet || t == Expense || t == Goal || t == Profile
  {
  }

  /** A map over the five import tables, each entry given by `rows`. */
  function AllTables<R>(rows: Table -> R): (m: map<Table, R>)
    ensures forall t: Table :: t in m && m[t] == rows(t)
  {
    var m := map[Category := rows(Category), Wallet := rows(Wallet), Expense := rows(Expense),
                 Goal := rows(Goal), Profile := rows(Profile)];
    assert forall t: Table :: t in m && m[t] == rows(t) by {
      forall t: Table ensures t in m && m[t] == rows(t) { TableCase(t); }
    }
    m
  }

  /** Two maps over the tables that hold every table and agree on each are equal. */
  lemma TablesExt<R>(a: map<Table, R>, b: map<Table, R>)
    requires forall t: Table :: t in a && t in b && a[t] == b[t]
    ensures a == b
  {
    assert forall t :: t in a <==> t in b;
  }

  /** The tables each reader starts from: every import table, empty. */
  function NoTables(): RawTables {
    map[Category := [], Wallet := [], Expense := [], Goal := [], Profile := []]
  }

  lemma NoTablesAt(t: Table)
    ensures t in NoTables() && NoTables()[t] == []
  {
    match t
    case Category =>
    case Wallet =>
    case Expense =>
    case Goal =>
    case Profile =>
  }

  function RowsOf(raw: RawTables, table: Table): seq<RawRow> {
    if table in raw then raw[table] else []
  }

  /** A reader's tables after the first `k` of `z` are read; the rest are still empty. */
  ghost predicate ReadUpTo(result: RawTables, z: RawTables, k: nat) {
    forall t: Table :: t in result && result[t] == if TableIndex(t) < k then RowsOf(z, t) else []
  }

  lemma ReadUpToNone(z: RawTables)
    ensures ReadUpTo(NoTables(), z, 0)
  {
    forall t: Table ensures t in NoTables() && NoTables()[t] == [] {
      NoTablesAt(t);
    }
  }

  lemma ReadUpToStep(result: RawTables, z: RawTables, k: nat)
    requires k < |ImportTables| && ReadUpTo(result, z, k)
    ensures ReadUpTo(result[ImportTables[k] := RowsOf(z, ImportTables[k])], z, k + 1)
    ensures RowsOf(z, ImportTables[k]) == [] ==> ReadUpTo(result, z, k + 1)
  {
    var table := ImportTables[k];
    forall t: Table ensures TableIndex(t) == k <==> t == table {
      TableAt(k);
    }
  }

  lemma ReadUpToAll(result: RawTables, z: RawTables)
    requires ReadUpTo(result, z, |ImportTables|)
    requires Category in z && Wallet in z && Expense in z && Goal in z && Profile in z
    ensures result == z
  {
    forall t: Table ensures t in result && t in z && result[t] == z[t] {
      TableCase(t);
    }
    TablesExt(result, z);
  }

  function NormalizeRow(table: Table, row: RawRow): Record {
    match row
    case RDict(fields) => Projected(SchemaOf(table), fields)
    case ROther(_) => Projected(SchemaOf(table), [])
  }

  /** One table of `_normalize_tables_for_schema`: one record per input row. */
  function NormalizeTable(raw: RawTables, t: Table): (rows: seq<Record>)
    ensures |rows| == |RowsOf(raw, t)|
    ensures forall i :: 0 <= i < |rows| ==>
      rows[i] == Projected(SchemaOf(t), if RowsOf(raw, t)[i].RDict? then RowsOf(raw, t)[i].fields else [])
  {
    seq(|RowsOf(raw, t)|, i requires 0 <= i < |RowsOf(raw, t)| => NormalizeRow(t, RowsOf(raw, t)[i]))
  }

  /** `_normalize_tables_for_schema`: exactly the five import tables, missing ones empty. */
  function NormalizeTables(raw: RawTables): (r: Tables)
    ensures Category in r && Wallet in r && Expense in r && Goal in r && Profile in r
    ensures forall t :: t in r ==> r[t] == NormalizeTable(raw, t)
  {
    map[Category := NormalizeTable(raw, Category), Wallet := NormalizeTable(raw, Wallet),
        Expense := NormalizeTable(raw, Expense), Goal := NormalizeTable(raw, Goal),
        Profile := NormalizeTable(raw, Profile)]
  }

  /** A non-dict row normalizes to a record whose every column is None. */
  lemma NonDictRowAllNone(table: Table, v: Value, j: nat)
    requires j < |SchemaOf(table)|
    ensures NormalizeRow(table, ROther(v))[j].1 == VNone
  {
    ApplyNone(SchemaOf(table)[j].coercer);
  }
}
