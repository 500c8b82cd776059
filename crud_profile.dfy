/**
 * The single-row `profile` table (backend/crud/profile.py): the upsert that
 * creates the row or overwrites the requested columns, the read that decodes
 * `skip_months` and aliases `theme_id`, the last-login stamp, and the
 * PBKDF2 password storage format with its verification.
 *
 * The row that matters is always the first by id (`ORDER BY id LIMIT 1`),
 * which in an ascending table is `profiles[0]`. The profile table's own set of
 * columns (`PRAGMA table_info`) is `profileColumns`; writing a column the table
 * lacks is an `OperationalError`. The clock is a parameter (`now`, `ts`), the
 * random salt is a parameter, and the hash and base64 codec are parameters
 * bundled as `Crypto`.
 */
module Profiles {
  import opened Wrappers
  import opened Text
  import opened Values
  import JsonText
  import opened Store

  /** A column of a profile row; a column the row never got holds NULL. */
  function Column(p: Profile, k: string): Value {
    if k in p then p[k] else VNone
  }

  // ---------------------------------------------------------------------
  // upsert_profile

  /** The keyword arguments of `upsert_profile`, each None when omitted. */
  datatype ProfileArgs = ProfileArgs(
    name: Option<string>, photoPath: Option<string>, monthlyBudget: Option<Decimal>,
    mainWalletId: Option<int>, skipMonths: Option<seq<string>>, passwordHash: Option<string>,
    theme: Option<int>)

  function OptStr(o: Option<string>): Option<Value> {
    match o
    case Some(x) => Some(VStr(x))
    case None => None
  }

  function IntOrNone(o: Option<int>): Value {
    match o
    case Some(i) => VInt(i)
    case None => VNone
  }

  function Strs(xs: seq<string>): (r: seq<Value>)
    ensures |r| == |xs| && forall i :: 0 <= i < |xs| ==> r[i] == VStr(xs[i])
  {
    seq(|xs|, i requires 0 <= i < |xs| => VStr(xs[i]))
  }

  /** The JSON text stored for a list of skipped months. */
  function SkipMonthsJson(months: seq<string>): string {
    JsonText.Encode(VList(Strs(months)), true)
  }

  /**
   * What `upsert_profile` asks to write into column `k`, before the columns
   * are filtered: each argument given writes its column, and `main_wallet_id`
   * and `theme` are written even when omitted (their guards are tautologies),
   * so an omitted wallet or theme clears the stored one.
   */
  function Requested(a: ProfileArgs, k: string): Option<Value> {
    if k == "name" then OptStr(a.name)
    else if k == "photo_path" then OptStr(a.photoPath)
    else if k == "monthly_budget" then
      (match a.monthlyBudget case Some(d) => Some(VFloat(d)) case None => None)
    else if k == "main_wallet_id" then Some(IntOrNone(a.mainWalletId))
    else if k == "skip_months" then
      (match a.skipMonths case Some(m) => Some(VStr(SkipMonthsJson(m))) case None => None)
    else if k == "password_hash" then OptStr(a.passwordHash)
    else if k == "theme" then Some(IntOrNone(a.theme))
    else None
  }

  /** `d[k] = v` when there is a value to write. */
  function Put(r: Record, k: string, o: Option<Value>): Record {
    match o
    case Some(v) => Set(r, k, v)
    case None => r
  }

  lemma GetPut(r: Record, k: string, o: Option<Value>, j: string)
    ensures Get(Put(r, k, o), j) == if j == k && o.Some? then o else Get(r, j)
  {
    if o.Some? {
      GetSet(r, k, o.value, j);
    }
  }

  /** The `fields` dict, built in argument order. */
  function Fields(a: ProfileArgs): Record {
    var f0 := Put([], "name", Requested(a, "name"));
    var f1 := Put(f0, "photo_path", Requested(a, "photo_path"));
    var f2 := Put(f1, "monthly_budget", Requested(a, "monthly_budget"));
    var f3 := Put(f2, "main_wallet_id", Requested(a, "main_wallet_id"));
    var f4 := Put(f3, "skip_months", Requested(a, "skip_months"));
    var f5 := Put(f4, "password_hash", Requested(a, "password_hash"));
    Put(f5, "theme", Requested(a, "theme"))
  }

  /** The dict holds exactly the requested columns. */
  lemma FieldsGet(a: ProfileArgs, k: string)
    ensures Get(Fields(a), k) == Requested(a, k)
  {
    var f0 := Put([], "name", Requested(a, "name"));
    var f1 := Put(f0, "photo_path", Requested(a, "photo_path"));
    var f2 := Put(f1, "monthly_budget", Requested(a, "monthly_budget"));
    var f3 := Put(f2, "main_wallet_id", Requested(a, "main_wallet_id"));
    var f4 := Put(f3, "skip_months", Requested(a, "skip_months"));
    var f5 := Put(f4, "password_hash", Requested(a, "password_hash"));
    GetPut([], "name", Requested(a, "name"), k);
    GetPut(f0, "photo_path", Requested(a, "photo_path"), k);
    GetPut(f1, "monthly_budget", Requested(a, "monthly_budget"), k);
    GetPut(f2, "main_wallet_id", Requested(a, "main_wallet_id"), k);
    GetPut(f3, "skip_months", Requested(a, "skip_months"), k);
    GetPut(f4, "password_hash", Requested(a, "password_hash"), k);
    GetPut(f5, "theme", Requested(a, "theme"), k);
  }

  /** The early `return True` for an empty dict never fires. */
  lemma FieldsNeverEmpty(a: ProfileArgs)
    ensures Fields(a) != []
  {
    FieldsGet(a, "theme");
  }

  /** The dict comprehension that keeps only keys naming a column. */
  function Filtered(f: Record, cols: set<string>): (r: Record)
    ensures forall k :: Get(r, k) == if k in cols then Get(f, k) else None
  {
    if f == [] then []
    else if f[0].0 in cols then [f[0]] + Filtered(f[1..], cols)
    else Filtered(f[1..], cols)
  }

  /** A record is empty exactly when no key reads back. */
  lemma EmptyRecord(r: Record)
    ensures r == [] <==> forall k :: Get(r, k).None?
  {
    if r != [] {
      assert Get(r, r[0].0).Some?;
    }
  }

  /** The row after the SQL writes each pair; the lists it is given have distinct keys. */
  function Apply(p: Profile, r: Record): (q: Profile)
    ensures forall k :: Column(q, k) == match Get(r, k) case Some(v) => v case None => Column(p, k)
  {
    if r == [] then p else Apply(p, r[1..])[r[0].0 := r[0].1]
  }

  /** `fields.pop("name", None) or "User"` */
  function NameOrUser(o: Option<Value>): (v: Value)
    ensures Truthy(v)
  {
    match o
    case Some(x) => if Truthy(x) then x else VStr("User")
    case None => VStr("User")
  }

  /**
   * The row inserted when the table is empty: the kept fields over the column
   * DEFAULTs, with the name defaulted.
   */
  function NewProfile(defaults: Profile, kept: Record): Profile {
    Apply(defaults, kept)["name" := NameOrUser(Get(kept, "name"))]
  }

  /** The SET list of the UPDATE: the kept fields, then `updated_at` when that column exists. */
  function SetList(kept: Record, cols: set<string>, now: string): Record {
    Put(kept, "updated_at", if "updated_at" in cols then Some(VStr(now)) else None)
  }

  /**
   * `upsert_profile`: inserts the first row when the table is empty, otherwise
   * updates the first row. Only the profile table changes, and it never gains
   * a second row.
   */
  function Upserted(s: Snapshot, a: ProfileArgs, now: string): (r: Result<Snapshot>)
    requires ValidSnapshot(s)
    ensures r.Ok? ==> ValidSnapshot(r.value) && r.value == s.(profiles := r.value.profiles)
    ensures r.Ok? ==> |r.value.profiles| == if s.profiles == [] then 1 else |s.profiles|
  {
    var kept := Filtered(Fields(a), s.profileColumns);
    if s.profiles == [] then
      if "name" !in s.profileColumns then Err(OperationalError("table profile has no column named name"))
      else Ok(s.(profiles := Insert(s.profiles, NewProfile(s.profileDefaults, kept))))
    else
      var sets := SetList(kept, s.profileColumns, now);
      if sets == [] then Err(OperationalError("near \"WHERE\": syntax error"))
      else
        var first := s.profiles[0];
        UpdateKeepsValid(s.profiles, first.id, Apply(first.data, sets));
        Ok(s.(profiles := Update(s.profiles, first.id, Apply(first.data, sets))))
  }

  /**
   * The upsert fails exactly when the INSERT has no `name` column to write, or
   * when the UPDATE would have an empty SET list: no requested column and no
   * `updated_at` exists.
   */
  lemma UpsertFails(s: Snapshot, a: ProfileArgs, now: string)
    requires ValidSnapshot(s)
    ensures Upserted(s, a, now).Err? <==>
      if s.profiles == [] then "name" !in s.profileColumns
      else "updated_at" !in s.profileColumns && forall k :: k in s.profileColumns ==> Requested(a, k).None?
  {
    if s.profiles != [] {
      var cols := s.profileColumns;
      var kept := Filtered(Fields(a), cols);
      var sets := SetList(kept, cols, now);
      forall k ensures Get(kept, k) == if k in cols then Requested(a, k) else None {
        FieldsGet(a, k);
      }
      EmptyRecord(kept);
      if "updated_at" in cols {
        GetPut(kept, "updated_at", Some(VStr(now)), "updated_at");
        EmptyRecord(sets);
      }
    }
  }

  /** On an empty table the new row holds the kept fields, a name that is never empty, and the column DEFAULTs elsewhere. */
  lemma UpsertCreates(s: Snapshot, a: ProfileArgs, now: string, k: string)
    requires ValidSnapshot(s) && s.profiles == [] && Upserted(s, a, now).Ok?
    ensures var t := Upserted(s, a, now).value;
      |t.profiles| == 1 &&
      Column(t.profiles[0].data, k) ==
        if k == "name" then NameOrUser(Requested(a, "name"))
        else if k in s.profileColumns && Requested(a, k).Some? then Requested(a, k).value
        else Column(s.profileDefaults, k)
  {
    FieldsGet(a, k);
    FieldsGet(a, "name");
  }

  /**
   * On an existing row the first row keeps its id and gets every requested
   * column the table has, plus `updated_at` when it exists; every other column
   * and every other row is unchanged.
   */
  lemma UpsertUpdates(s: Snapshot, a: ProfileArgs, now: string, k: string)
    requires ValidSnapshot(s) && s.profiles != [] && Upserted(s, a, now).Ok?
    ensures var t := Upserted(s, a, now).value;
      t.profiles[0].id == s.profiles[0].id && t.profiles[1..] == s.profiles[1..] &&
      Column(t.profiles[0].data, k) ==
        if k in s.profileColumns && Requested(a, k).Some? then Requested(a, k).value
        else if k == "updated_at" && k in s.profileColumns then VStr(now)
        else Column(s.profiles[0].data, k)
  {
    var sets := SetList(Filtered(Fields(a), s.profileColumns), s.profileColumns, now);
    UpsertedRows(s, a, now, Apply(s.profiles[0].data, sets));
    SetListGet(a, s.profileColumns, now, k);
  }

  /** The SET list holds the requested columns the table has, then the timestamp. */
  lemma SetListGet(a: ProfileArgs, cols: set<string>, now: string, k: string)
    ensures Get(SetList(Filtered(Fields(a), cols), cols, now), k) ==
      if k in cols && Requested(a, k).Some? then Requested(a, k)
      else if k == "updated_at" && k in cols then Some(VStr(now))
      else None
  {
    var kept := Filtered(Fields(a), cols);
    FieldsGet(a, k);
    assert Get(kept, k) == if k in cols then Requested(a, k) else None;
    assert Requested(a, "updated_at") == None;
    GetPut(kept, "updated_at", if "updated_at" in cols then Some(VStr(now)) else None, k);
  }

  /** The UPDATE rewrites the first row only. */
  lemma UpsertedRows(s: Snapshot, a: ProfileArgs, now: string, d: Profile)
    requires ValidSnapshot(s) && s.profiles != [] && Upserted(s, a, now).Ok?
    requires d == Apply(s.profiles[0].data, SetList(Filtered(Fields(a), s.profileColumns), s.profileColumns, now))
    ensures var t := Upserted(s, a, now).value;
      t.profiles == Update(s.profiles, s.profiles[0].id, d) &&
      t.profiles[0] == Row(s.profiles[0].id, d) && t.profiles[1..] == s.profiles[1..]
  {
    UpsertedUpdate(s, a, now);
    UpdateFirst(s.profiles, d);
  }

  /** Updating the first row of a table with unique ids leaves the others as they are. */
  lemma UpdateFirst<T>(rows: Rows<T>, d: T)
    requires ValidRows(rows) && rows != []
    ensures var u := Update(rows, rows[0].id, d); u[0] == Row(rows[0].id, d) && u[1..] == rows[1..]
  {
    var u := Update(rows, rows[0].id, d);
    forall i | 1 <= i < |rows| ensures u[i] == rows[i] {
      assert rows[0].id < rows[i].id;
    }
  }

  /** On an existing row the upsert is the UPDATE of the first row with the SET list. */
  lemma UpsertedUpdate(s: Snapshot, a: ProfileArgs, now: string)
    requires ValidSnapshot(s) && s.profiles != [] && Upserted(s, a, now).Ok?
    ensures Upserted(s, a, now).value.profiles
      == Update(s.profiles, s.profiles[0].id,
                Apply(s.profiles[0].data, SetList(Filtered(Fields(a), s.profileColumns), s.profileColumns, now)))
  {
  }

  /** The docstring's promise: an argument left as None leaves its column as it was. */
  lemma UpsertKeepsOmitted(s: Snapshot, a: ProfileArgs, now: string, k: string)
    requires ValidSnapshot(s) && s.profiles != [] && Upserted(s, a, now).Ok?
    requires Requested(a, k).None? && k != "updated_at"
    ensures Column(Upserted(s, a, now).value.profiles[0].data, k) == Column(s.profiles[0].data, k)
  {
    UpsertUpdates(s, a, now, k);
  }

  /** ... except the main wallet and the theme, which an omitted argument clears. */
  lemma UpsertClearsWalletAndTheme(s: Snapshot, a: ProfileArgs, now: string)
    requires ValidSnapshot(s) && s.profiles != [] && Upserted(s, a, now).Ok?
    requires a.mainWalletId.None? && a.theme.None?
    requires "main_wallet_id" in s.profileColumns && "theme" in s.profileColumns
    ensures Column(Upserted(s, a, now).value.profiles[0].data, "main_wallet_id") == VNone
    ensures Column(Upserted(s, a, now).value.profiles[0].data, "theme") == VNone
  {
    UpsertUpdates(s, a, now, "main_wallet_id");
    UpsertUpdates(s, a, now, "theme");
  }

  method UpsertProfile(db: Database, a: ProfileArgs, now: string) returns (r: Result<bool>)
    requires db.Valid()
    modifies db
    ensures db.Valid()
    ensures Upserted(old(db.Snap()), a, now).Ok? ==> r == Ok(true) && db.Snap() == Upserted(old(db.Snap()), a, now).value
    ensures Upserted(old(db.Snap()), a, now).Err? ==> r == Err(Upserted(old(db.Snap()), a, now).error) && db.Snap() == old(db.Snap())
  {
    var u := Upserted(db.Snap(), a, now);
    match u
    case Err(e) =>
      r := Err(e);
    case Ok(t) =>
      db.profiles := t.profiles;
      r := Ok(true);
  }

  // ---------------------------------------------------------------------
  // get_current_profile

  /** The columns the SELECT names; one the table lacks is an `OperationalError`. */
  const SelectedColumns: seq<string> :=
    ["name", "photo_path", "monthly_budget", "main_wallet_id", "skip_months",
     "password_hash", "created_at", "last_login", "theme"]

  /** Text that strips to something starting with `[` is decoded as JSON; anything else, or a failed decode, stays as stored. */
  function ParsedSkip(v: Value): (r: Value)
    ensures !(v.VStr? && StartsWith(Strip(v.s), "[")) ==> r == v
    ensures r == v || (v.VStr? && JsonText.Decode(v.s) == Some(r))
  {
    match v
    case VStr(text) =>
      if StartsWith(Strip(text), "[") then
        (match JsonText.Decode(text) case Some(d) => d case None => v)
      else v
    case _ => v
  }

  /** Stored skipped months read back as the list that was stored. */
  lemma SkipMonthsRoundTrip(months: seq<string>)
    ensures ParsedSkip(VStr(SkipMonthsJson(months))) == VList(Strs(months))
  {
    var v := VList(Strs(months));
    var e := SkipMonthsJson(months);
    assert e[0] == '[' && e[|e| - 1] == ']';
    StripOfStripped(e);
    assert JsonText.CanonicalValue(v);
    JsonText.DecodeEncode(v, true);
  }

  /** A key read from the first pair that carries it. */
  lemma {:induction false} GetAt(r: Record, i: nat)
    requires i < |r| && forall j :: 0 <= j < i ==> r[j].0 != r[i].0
    ensures Get(r, r[i].0) == Some(r[i].1)
  {
    if i > 0 {
      GetAt(r[1..], i - 1);
    }
  }

  /** The returned dict, with `theme_id` as an alias of `theme`. */
  function ProfileDict(row: Row<Profile>): (r: Record)
  {
    var d := row.data;
    var r := [("id", VInt(row.id)), ("name", Column(d, "name")), ("photo_path", Column(d, "photo_path")),
      ("monthly_budget", Column(d, "monthly_budget")), ("main_wallet_id", Column(d, "main_wallet_id")),
      ("skip_months", ParsedSkip(Column(d, "skip_months"))), ("password_hash", Column(d, "password_hash")),
      ("created_at", Column(d, "created_at")), ("last_login", Column(d, "last_login")),
      ("theme", Column(d, "theme")), ("theme_id", Column(d, "theme"))];
    r
  }

  lemma ProfileDictId(row: Row<Profile>)
    ensures Get(ProfileDict(row), "id") == Some(VInt(row.id))
  {
    GetAt(ProfileDict(row), 0);
  }

  lemma ProfileDictPhoto(row: Row<Profile>)
    ensures Get(ProfileDict(row), "photo_path") == Some(Column(row.data, "photo_path"))
  {
    GetAt(ProfileDict(row), 2);
  }

  lemma ProfileDictSkip(row: Row<Profile>)
    ensures Get(ProfileDict(row), "skip_months") == Some(ParsedSkip(Column(row.data, "skip_months")))
  {
    GetAt(ProfileDict(row), 5);
  }

  lemma ProfileDictTheme(row: Row<Profile>)
    ensures Get(ProfileDict(row), "theme") == Some(Column(row.data, "theme"))
  {
    GetAt(ProfileDict(row), 9);
  }

  lemma ProfileDictThemeId(row: Row<Profile>)
    ensures Get(ProfileDict(row), "theme_id") == Some(Column(row.data, "theme"))
  {
    GetAt(ProfileDict(row), 10);
  }

  /** `get_current_profile`: the first row as a dict, None on an empty table. */
  function CurrentProfile(s: Snapshot): (r: Result<Option<Record>>)
    ensures r.Ok? <==> forall c :: c in SelectedColumns ==> c in s.profileColumns
    ensures r.Ok? ==> (r.value.None? <==> s.profiles == [])
    ensures r.Ok? && s.profiles != [] ==> r.value.value == ProfileDict(s.profiles[0])
  {
    if forall c :: c in SelectedColumns ==> c in s.profileColumns then
      if s.profiles == [] then Ok(None) else Ok(Some(ProfileDict(s.profiles[0])))
    else Err(OperationalError("no such column"))
  }

  /** Months saved by an upsert are read back by `get_current_profile` as the same list. */
  lemma UpsertThenReadSkipMonths(s: Snapshot, a: ProfileArgs, now: string, months: seq<string>)
    requires ValidSnapshot(s) && Upserted(s, a, now).Ok?
    requires a.skipMonths == Some(months) && "skip_months" in s.profileColumns
    requires forall c :: c in SelectedColumns ==> c in s.profileColumns
    ensures CurrentProfile(Upserted(s, a, now).value).Ok?
    ensures var p := CurrentProfile(Upserted(s, a, now).value).value;
      p.Some? && Get(p.value, "skip_months") == Some(VList(Strs(months)))
  {
    if s.profiles == [] {
      UpsertCreates(s, a, now, "skip_months");
    } else {
      UpsertUpdates(s, a, now, "skip_months");
    }
    SkipMonthsRoundTrip(months);
    ProfileDictSkip(Upserted(s, a, now).value.profiles[0]);
  }

  // ---------------------------------------------------------------------
  // update_last_login

  /** `update_last_login(when)` with `ts` the ISO text of `when` (or of the current time). */
  function LastLoginUpdated(s: Snapshot, ts: string): (r: Result<Snapshot>)
    requires ValidSnapshot(s)
    ensures r.Ok? ==> ValidSnapshot(r.value) && r.value == s.(profiles := r.value.profiles)
    ensures r.Ok? ==> |r.value.profiles| == if s.profiles == [] then 1 else |s.profiles|
    ensures r.Err? <==> "last_login" !in s.profileColumns || (s.profiles == [] && "name" !in s.profileColumns)
  {
    var cols := s.profileColumns;
    if s.profiles == [] then
      if "name" in cols && "last_login" in cols then
        Ok(s.(profiles := Insert(s.profiles, s.profileDefaults["name" := VStr("User")]["last_login" := VStr(ts)])))
      else Err(OperationalError("table profile has no such column"))
    else if "last_login" !in cols then Err(OperationalError("no such column: last_login"))
    else
      var first := s.profiles[0];
      var d := first.data["last_login" := VStr(ts)];
      var d' := if "updated_at" in cols then d["updated_at" := VStr(ts)] else d;
      UpdateKeepsValid(s.profiles, first.id, d');
      Ok(s.(profiles := Update(s.profiles, first.id, d')))
  }

  /** After the stamp the first row's `last_login` is `ts`; only `updated_at` changes beside it. */
  lemma LastLoginStamped(s: Snapshot, ts: string, k: string)
    requires ValidSnapshot(s) && LastLoginUpdated(s, ts).Ok?
    ensures var t := LastLoginUpdated(s, ts).value;
      Column(t.profiles[0].data, "last_login") == VStr(ts) &&
      (s.profiles != [] && k != "last_login" && k != "updated_at" ==>
        t.profiles[0].id == s.profiles[0].id && Column(t.profiles[0].data, k) == Column(s.profiles[0].data, k))
  {
  }

  method UpdateLastLogin(db: Database, ts: string) returns (r: Result<bool>)
    requires db.Valid()
    modifies db
    ensures db.Valid()
    ensures LastLoginUpdated(old(db.Snap()), ts).Ok? ==> r == Ok(true) && db.Snap() == LastLoginUpdated(old(db.Snap()), ts).value
    ensures LastLoginUpdated(old(db.Snap()), ts).Err? ==> r.Err? && db.Snap() == old(db.Snap())
  {
    var u := LastLoginUpdated(db.Snap(), ts);
    match u
    case Err(e) =>
      r := Err(e);
    case Ok(t) =>
      db.profiles := t.profiles;
      r := Ok(true);
  }

  // ---------------------------------------------------------------------
  // Passwords

  type Bytes = seq<bv8>

  /**
   * `hashlib.pbkdf2_hmac("sha256", password.encode("utf-8"), salt, iterations)`
   * and standard base64, passed in as functions whose code is not modelled.
   */
  datatype Crypto = Crypto(
    derive: (string, Bytes, int) -> Bytes,
    encode64: Bytes -> string,
    decode64: string -> Option<Bytes>)

  /** What the storage format relies on: base64 text has no `$` and decodes back. */
  ghost predicate Base64Laws(c: Crypto) {
    forall b :: '$' !in c.encode64(b) && c.decode64(c.encode64(b)) == Some(b)
  }

  const Iterations: int := 200000
  const Algorithm: string := "pbkdf2_sha256"

  /** `f"pbkdf2_sha256${iterations}${salt_b64}${dk_b64}"` */
  function StoredHash(c: Crypto, password: string, salt: Bytes): string {
    Algorithm + "$" + IntToString(Iterations) + "$" + c.encode64(salt) + "$" + c.encode64(c.derive(password, salt, Iterations))
  }

  /** `s.partition(sep)` when `sep` occurs: the text before its first occurrence and the rest. */
  function SplitOnce(s: string, sep: char): (r: Option<(string, string)>)
    ensures r.None? <==> sep !in s
    ensures r.Some? ==> s == r.value.0 + [sep] + r.value.1 && sep !in r.value.0
  {
    if s == [] then None
    else if s[0] == sep then Some(([], s[1..]))
    else match SplitOnce(s[1..], sep)
      case None => None
      case Some((a, b)) => Some(([s[0]] + a, b))
  }

  /** `s.split(sep, max)`: at most `max` cuts, the last piece kept whole. */
  function SplitMax(s: string, sep: char, max: nat): (parts: seq<string>)
    ensures 1 <= |parts| <= max + 1
    decreases max
  {
    if max == 0 then [s]
    else match SplitOnce(s, sep)
      case None => [s]
      case Some((a, b)) => [a] + SplitMax(b, sep, max - 1)
  }

  lemma {:induction false} SplitOnceAt(a: string, sep: char, b: string)
    requires sep !in a
    ensures SplitOnce(a + [sep] + b, sep) == Some((a, b))
  {
    var s := a + [sep] + b;
    if a == [] {
      assert s[0] == sep && s[1..] == b;
    } else {
      assert s[0] == a[0] && s[1..] == a[1..] + [sep] + b;
      SplitOnceAt(a[1..], sep, b);
      assert [a[0]] + a[1..] == a;
    }
  }

  /** A stored hash splits back into its four fields. */
  lemma SplitFour(p0: string, p1: string, p2: string, p3: string)
    requires '$' !in p0 && '$' !in p1 && '$' !in p2 && '$' !in p3
    ensures SplitMax(p0 + "$" + p1 + "$" + p2 + "$" + p3, '$', 3) == [p0, p1, p2, p3]
  {
    var t2 := p2 + ['$'] + p3;
    var t1 := p1 + ['$'] + t2;
    var t0 := p0 + ['$'] + t1;
    assert p0 + "$" + p1 + "$" + p2 + "$" + p3 == t0;
    SplitOnceAt(p0, '$', t1);
    SplitOnceAt(p1, '$', t2);
    SplitOnceAt(p2, '$', p3);
    assert SplitMax(p3, '$', 0) == [p3];
    assert SplitMax(t2, '$', 1) == [p2, p3];
    assert SplitMax(t1, '$', 2) == [p1, p2, p3];
  }

  /**
   * The body of `verify_password` after the hash is read: a hash that does not
   * split into four fields, names another algorithm, has a bad iteration
   * count or undecodable base64 rejects the password instead of raising.
   */
  function HashMatches(c: Crypto, stored: string, password: string): bool {
    var parts := SplitMax(stored, '$', 3);
    if |parts| != 4 || parts[0] != Algorithm then false
    else match ParseInt(Strip(parts[1]))
      case None => false
      case Some(n) =>
        match (c.decode64(parts[2]), c.decode64(parts[3]))
        case (Some(salt), Some(dk)) => n >= 1 && c.derive(password, salt, n) == dk
        case _ => false
  }

  /** `verify_password`: the SELECT fails only when the column is missing. */
  function PasswordVerified(s: Snapshot, c: Crypto, password: Value): (r: Result<bool>)
    ensures r.Err? <==> password.VStr? && "password_hash" !in s.profileColumns
    ensures r == Ok(true) ==> password.VStr? && s.profiles != [] && Truthy(Column(s.profiles[0].data, "password_hash"))
  {
    if !password.VStr? then Ok(false)
    else if "password_hash" !in s.profileColumns then Err(OperationalError("no such column: password_hash"))
    else if s.profiles == [] then Ok(false)
    else
      var h := Column(s.profiles[0].data, "password_hash");
      if !Truthy(h) then Ok(false) else Ok(HashMatches(c, Str(h), password.s))
  }

  /** `is_password_set` */
  function PasswordIsSet(s: Snapshot): (r: Result<bool>)
    ensures r.Err? <==> "password_hash" !in s.profileColumns
    ensures r == Ok(true) <==> "password_hash" in s.profileColumns && s.profiles != [] && Truthy(Column(s.profiles[0].data, "password_hash"))
  {
    if "password_hash" !in s.profileColumns then Err(OperationalError("no such column: password_hash"))
    else Ok(s.profiles != [] && Truthy(Column(s.profiles[0].data, "password_hash")))
  }

  /** A store after an operation that may fail part-way, with what it returned or raised. */
  datatype Outcome<T> = Outcome(state: Snapshot, result: Result<T>)

  /** `_get_or_create_profile_id`: the first row's id, inserting a row named "User" on an empty table. */
  function RowEnsured(s: Snapshot): (r: Result<(Snapshot, nat)>)
    requires ValidSnapshot(s)
    ensures r.Err? <==> s.profiles == [] && "name" !in s.profileColumns
    ensures r.Ok? ==> var (t, id) := r.value;
      ValidSnapshot(t) && t == s.(profiles := t.profiles) && t.profiles != [] && t.profiles[0].id == id
      && (s.profiles != [] ==> t == s)
  {
    if s.profiles != [] then Ok((s, s.profiles[0].id))
    else if "name" !in s.profileColumns then Err(OperationalError("table profile has no column named name"))
    else Ok((s.(profiles := Insert(s.profiles, s.profileDefaults["name" := VStr("User")])), NextId(s.profiles)))
  }

  /**
   * `set_password`: refuses a non-string or empty password, makes sure the row
   * exists (that insert is committed on its own), then writes the stored hash.
   */
  function PasswordSet(s: Snapshot, c: Crypto, password: Value, salt: Bytes): (o: Outcome<()>)
    requires ValidSnapshot(s)
    ensures ValidSnapshot(o.state) && o.state == s.(profiles := o.state.profiles)
    ensures !password.VStr? || password.s == "" ==> o == Outcome(s, Err(ValueError("Password must be a non-empty string.")))
    ensures o.result.Ok? ==> o.state.profiles != [] && |o.state.profiles| == if s.profiles == [] then 1 else |s.profiles|
  {
    if !password.VStr? || password.s == "" then Outcome(s, Err(ValueError("Password must be a non-empty string.")))
    else match RowEnsured(s)
      case Err(e) => Outcome(s, Err(e))
      case Ok((t, id)) =>
        if "password_hash" !in t.profileColumns then Outcome(t, Err(OperationalError("no such column: password_hash")))
        else
          var d := t.profiles[0].data["password_hash" := VStr(StoredHash(c, password.s, salt))];
          UpdateKeepsValid(t.profiles, id, d);
          Outcome(t.(profiles := Update(t.profiles, id, d)), Ok(()))
  }

  /** After a successful set the first row holds the stored hash. */
  lemma PasswordSetStores(s: Snapshot, c: Crypto, p: string, salt: Bytes)
    requires ValidSnapshot(s) && PasswordSet(s, c, VStr(p), salt).result.Ok?
    ensures var t := PasswordSet(s, c, VStr(p), salt).state;
      "password_hash" in t.profileColumns && Column(t.profiles[0].data, "password_hash") == VStr(StoredHash(c, p, salt))
  {
  }

  /** The text of a positive iteration count has no `$` and parses back to the count. */
  lemma IterationsText(n: int)
    requires n >= 1
    ensures '$' !in IntToString(n) && ParseInt(Strip(IntToString(n))) == Some(n)
  {
    var it := IntToString(n);
    assert forall i :: 0 <= i < |it| ==> IsDigit(it[i]);
    StripOfStripped(it);
    ParseIntToString(n);
  }

  /** A hash laid out as `alg$n$salt$key` verifies `q` exactly when `q` derives `key` from the salt. */
  lemma HashMatchesLayout(c: Crypto, alg: string, n: int, salt: Bytes, dk: Bytes, q: string)
    requires Base64Laws(c) && alg == Algorithm && n >= 1 && '$' !in alg
    ensures HashMatches(c, alg + "$" + IntToString(n) + "$" + c.encode64(salt) + "$" + c.encode64(dk), q)
      == (c.derive(q, salt, n) == dk)
  {
    var it := IntToString(n);
    IterationsText(n);
    SplitFour(alg, it, c.encode64(salt), c.encode64(dk));
  }

  /** The stored hash verifies a password exactly when it derives the same key. */
  lemma StoredHashMatches(c: Crypto, p: string, q: string, salt: Bytes)
    requires Base64Laws(c)
    ensures HashMatches(c, StoredHash(c, p, salt), q) == (c.derive(q, salt, Iterations) == c.derive(p, salt, Iterations))
  {
    assert '$' !in Algorithm;
    HashMatchesLayout(c, Algorithm, Iterations, salt, c.derive(p, salt, Iterations), q);
  }

  /** After `set_password(p)`, `verify_password(q)` holds exactly when q derives p's key; p itself verifies. */
  lemma VerifyAfterSet(s: Snapshot, c: Crypto, p: string, q: string, salt: Bytes)
    requires ValidSnapshot(s) && Base64Laws(c) && PasswordSet(s, c, VStr(p), salt).result.Ok?
    ensures PasswordVerified(PasswordSet(s, c, VStr(p), salt).state, c, VStr(q))
      == Ok(c.derive(q, salt, Iterations) == c.derive(p, salt, Iterations))
    ensures PasswordVerified(PasswordSet(s, c, VStr(p), salt).state, c, VStr(p)) == Ok(true)
    ensures PasswordIsSet(PasswordSet(s, c, VStr(p), salt).state) == Ok(true)
  {
    PasswordSetStores(s, c, p, salt);
    StoredHashMatches(c, p, q, salt);
    StoredHashMatches(c, p, p, salt);
  }

  /** `change_password`: sets the new password only after the old one verifies. */
  function PasswordChanged(s: Snapshot, c: Crypto, oldPassword: Value, newPassword: Value, salt: Bytes): (o: Outcome<bool>)
    requires ValidSnapshot(s)
    ensures ValidSnapshot(o.state) && o.state == s.(profiles := o.state.profiles)
    ensures o.result != Ok(true) && o.result.Ok? ==> o.state == s
    ensures o.result == Ok(true) ==> PasswordVerified(s, c, oldPassword) == Ok(true) && Truthy(newPassword)
  {
    if !Truthy(newPassword) then Outcome(s, Ok(false))
    else match PasswordVerified(s, c, oldPassword)
      case Err(e) => Outcome(s, Err(e))
      case Ok(ok) =>
        if !ok then Outcome(s, Ok(false))
        else
          var o := PasswordSet(s, c, newPassword, salt);
          Outcome(o.state, if o.result.Err? then Err(o.result.error) else Ok(true))
  }

  /** A successful change makes the new password the one that verifies. */
  lemma ChangeThenVerify(s: Snapshot, c: Crypto, oldPassword: Value, newPassword: string, salt: Bytes)
    requires ValidSnapshot(s) && Base64Laws(c)
    requires PasswordChanged(s, c, oldPassword, VStr(newPassword), salt).result == Ok(true)
    ensures PasswordVerified(PasswordChanged(s, c, oldPassword, VStr(newPassword), salt).state, c, VStr(newPassword)) == Ok(true)
  {
    VerifyAfterSet(s, c, newPassword, newPassword, salt);
  }

  method SetPassword(db: Database, c: Crypto, password: Value, salt: Bytes) returns (r: Result<()>)
    requires db.Valid()
    modifies db
    ensures db.Valid()
    ensures Outcome(db.Snap(), r) == PasswordSet(old(db.Snap()), c, password, salt)
  {
    var o := PasswordSet(db.Snap(), c, password, salt);
    db.profiles := o.state.profiles;
    r := o.result;
  }

  method ChangePassword(db: Database, c: Crypto, oldPassword: Value, newPassword: Value, salt: Bytes) returns (r: Result<bool>)
    requires db.Valid()
    modifies db
    ensures db.Valid()
    ensures Outcome(db.Snap(), r) == PasswordChanged(old(db.Snap()), c, oldPassword, newPassword, salt)
  {
    var o := PasswordChanged(db.Snap(), c, oldPassword, newPassword, salt);
    db.profiles := o.state.profiles;
    r := o.result;
  }
}
