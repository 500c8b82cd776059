/**
 * The settings page: the skipped-months text field and its parser, the User
 * page save (name and photo), the photo copy into the photo vault, the
 * Security page save, and the section navigation.
 */
module Settings {
  import opened Wrappers
  import opened Text
  import opened Values
  import Store
  import Profiles

  // ---------------------------------------------------------------------
  // Tokenising: `re.split(r"[,\s]+", txt)`

  /** A character of the separator class `[,\s]`. */
  predicate IsSep(c: char) {
    c == ',' || IsSpace(c)
  }

  predicate NoSep(s: string) {
    forall i :: 0 <= i < |s| ==> !IsSep(s[i])
  }

  /** The text up to the first separator. */
  function Word(s: string): (w: string)
    ensures |w| <= |s| && w == s[..|w|] && NoSep(w)
    ensures |w| < |s| ==> IsSep(s[|w|])
  {
    if s == [] || IsSep(s[0]) then [] else [s[0]] + Word(s[1..])
  }

  /** The text after a leading run of separators. */
  function DropSeps(s: string): (r: string)
    ensures |r| <= |s| && r == s[|s| - |r|..]
    ensures r == [] || !IsSep(r[0])
    ensures forall i :: 0 <= i < |s| - |r| ==> IsSep(s[i])
  {
    if s != [] && IsSep(s[0]) then DropSeps(s[1..]) else s
  }

  /** The pieces between maximal runs of separators, with an empty piece at a leading or trailing run. */
  function Split(s: string): (parts: seq<string>)
    ensures |parts| >= 1
    ensures forall i :: 0 <= i < |parts| ==> NoSep(parts[i])
    decreases |s|
  {
    var w := Word(s);
    if |w| == |s| then [w] else [w] + Split(DropSeps(s[|w|..]))
  }

  lemma {:induction false} WordOf(a: string, b: string)
    requires NoSep(a) && (b == [] || IsSep(b[0]))
    ensures Word(a + b) == a
  {
    if a != [] {
      assert (a + b)[1..] == a[1..] + b;
      WordOf(a[1..], b);
    } else {
      assert a + b == b;
    }
  }

  lemma {:induction false} DropSepsOf(a: string, b: string)
    requires forall i :: 0 <= i < |a| ==> IsSep(a[i])
    requires b == [] || !IsSep(b[0])
    ensures DropSeps(a + b) == b
  {
    if a != [] {
      assert (a + b)[1..] == a[1..] + b;
      DropSepsOf(a[1..], b);
    } else {
      assert a + b == b;
    }
  }

  // ---------------------------------------------------------------------
  // Month tokens: `re.fullmatch(r"\d{4}-(0[1-9]|1[0-2])", t)`

  predicate IsMonthToken(t: string) {
    |t| == 7 && IsDigit(t[0]) && IsDigit(t[1]) && IsDigit(t[2]) && IsDigit(t[3]) && t[4] == '-'
    && ((t[5] == '0' && '1' <= t[6] <= '9') || (t[5] == '1' && '0' <= t[6] <= '2'))
  }

  /** The pattern accepts exactly four digits, a dash, and a two-digit month from 1 to 12. */
  lemma MonthTokenMeaning(t: string)
    ensures IsMonthToken(t) <==>
      |t| == 7 && AllDigits(t[..4]) && t[4] == '-' && AllDigits(t[5..]) && 1 <= DigitsValue(t[5..]) <= 12
  {
    if |t| == 7 && AllDigits(t[5..]) {
      var m := t[5..];
      assert m[..1] == [t[5]] && m[..1][..0] == [];
      assert DigitsValue(m[..1]) == DigitValue(t[5]);
      assert DigitsValue(m) == DigitValue(t[5]) * 10 + DigitValue(t[6]);
    }
    if |t| == 7 {
      assert forall i :: 0 <= i < 4 ==> t[..4][i] == t[i];
    }
  }

  /** A month token is never empty, has no separator, and starts and ends with a digit. */
  lemma MonthTokenShape(t: string)
    requires IsMonthToken(t)
    ensures NoSep(t) && t != [] && !IsSpace(t[0]) && !IsSpace(t[|t| - 1])
  {
  }

  /** The tokens kept by the first loop, in order. */
  function Months(tokens: seq<string>): (out: seq<string>)
    ensures |out| <= |tokens|
  {
    if tokens == [] then []
    else
      var n := |tokens| - 1;
      Months(tokens[..n]) + (if IsMonthToken(tokens[n]) then [tokens[n]] else [])
  }

  /** The first loop keeps exactly the tokens matching the month pattern. */
  lemma {:induction false} MonthsKept(tokens: seq<string>)
    ensures forall m :: m in Months(tokens) <==> m in tokens && IsMonthToken(m)
  {
    if tokens != [] {
      var n := |tokens| - 1;
      MonthsKept(tokens[..n]);
      assert tokens == tokens[..n] + [tokens[n]];
    }
  }

  /** The tokens kept by the second loop: each the first time it is seen. */
  function Dedup(xs: seq<string>): (r: seq<string>)
    ensures Distinct(r)
    ensures forall x :: x in r <==> x in xs
  {
    if xs == [] then []
    else
      var n := |xs| - 1;
      var prev := Dedup(xs[..n]);
      assert xs == xs[..n] + [xs[n]];
      if xs[n] in prev then prev else prev + [xs[n]]
  }

  /** The position where `x` first occurs. */
  function FirstIndex(xs: seq<string>, x: string): (k: nat)
    requires x in xs
    ensures k < |xs| && xs[k] == x && x !in xs[..k]
  {
    if xs[0] == x then 0
    else
      assert xs[1..][FirstIndex(xs[1..], x)] == x;
      assert xs[..FirstIndex(xs[1..], x) + 1] == [xs[0]] + xs[1..][..FirstIndex(xs[1..], x)];
      FirstIndex(xs[1..], x) + 1
  }

  lemma FirstIndexPrefix(xs: seq<string>, ys: seq<string>, x: string)
    requires x in xs
    ensures FirstIndex(xs + ys, x) == FirstIndex(xs, x)
  {
    var k := FirstIndex(xs, x);
    var j := FirstIndex(xs + ys, x);
    assert (xs + ys)[..k] == xs[..k];
    assert (xs + ys)[k] == x;
  }

  /** The kept tokens follow the order in which each first occurs. */
  lemma {:induction false} DedupFirstOccurrence(xs: seq<string>, i: nat, j: nat)
    requires i < j < |Dedup(xs)|
    ensures FirstIndex(xs, Dedup(xs)[i]) < FirstIndex(xs, Dedup(xs)[j])
  {
    var n := |xs| - 1;
    var init := xs[..n];
    var prev := Dedup(init);
    assert xs == init + [xs[n]];
    var r := Dedup(xs);
    FirstIndexPrefix(init, [xs[n]], r[i]);
    if j < |prev| {
      FirstIndexPrefix(init, [xs[n]], r[j]);
      DedupFirstOccurrence(init, i, j);
    } else {
      assert r[j] == xs[n] && xs[n] !in prev && xs[n] !in init;
      assert FirstIndex(xs, r[j]) == n;
    }
  }

  /** Tokens already distinct are kept whole. */
  lemma {:induction false} DedupOfDistinct(xs: seq<string>)
    requires Distinct(xs)
    ensures Dedup(xs) == xs
  {
    if xs != [] {
      DistinctLast(xs);
      DedupOfDistinct(xs[..|xs| - 1]);
      assert xs == xs[..|xs| - 1] + [xs[|xs| - 1]];
    }
  }

  lemma {:induction false} MonthsOfMonths(ts: seq<string>)
    requires forall i :: 0 <= i < |ts| ==> IsMonthToken(ts[i])
    ensures Months(ts) == ts
  {
    if ts != [] {
      var n := |ts| - 1;
      var init := ts[..n];
      forall i | 0 <= i < |init| ensures IsMonthToken(init[i]) {
        assert init[i] == ts[i];
      }
      MonthsOfMonths(init);
      assert IsMonthToken(ts[n]);
      assert Months(ts) == Months(init) + [ts[n]];
      assert ts == init + [ts[n]];
    }
  }

  // ---------------------------------------------------------------------
  // `_parse_skip_months_text`

  /** What `_parse_skip_months_text` returns for the field's text. */
  function SkipMonths(text: string): (months: seq<string>)
    ensures Strip(text) == "" ==> months == []
    ensures Distinct(months)
    ensures forall m :: m in months ==> IsMonthToken(m)
  {
    var txt := Strip(text);
    if txt == "" then []
    else
      MonthsKept(Split(txt));
      Dedup(Months(Split(txt)))
  }

  /** The first loop of `_parse_skip_months_text`: keep the tokens that match the month pattern. */
  method KeepMonths(tokens: seq<string>) returns (out: seq<string>)
    ensures out == Months(tokens)
  {
    out := [];
    var k := 0;
    while k < |tokens|
      invariant 0 <= k <= |tokens|
      invariant out == Months(tokens[..k])
    {
      assert tokens[..k + 1] == tokens[..k] + [tokens[k]];
      if IsMonthToken(tokens[k]) {
        out := out + [tokens[k]];
      }
      k := k + 1;
    }
    assert tokens[..k] == tokens;
  }

  /** The second loop: keep each token the first time it is seen. */
  method DropRepeats(out: seq<string>) returns (uniq: seq<string>)
    ensures uniq == Dedup(out)
  {
    var seen: set<string> := {};
    uniq := [];
    var n := 0;
    while n < |out|
      invariant 0 <= n <= |out|
      invariant uniq == Dedup(out[..n])
      invariant forall m :: m in seen <==> m in uniq
    {
      assert out[..n + 1] == out[..n] + [out[n]];
      if out[n] !in seen {
        seen := seen + {out[n]};
        uniq := uniq + [out[n]];
      }
      n := n + 1;
    }
    assert out[..n] == out;
  }

  /** `_parse_skip_months_text`: split, keep the month tokens, then drop repeats. */
  method ParseSkipMonthsText(text: string) returns (uniq: seq<string>)
    ensures uniq == SkipMonths(text)
  {
    var txt := Strip(text);
    if txt == "" {
      return [];
    }
    var out := KeepMonths(Split(txt));
    uniq := DropRepeats(out);
  }

  /** The field's text as `_load_profile_into_ui` fills it from a stored list. */
  function SkipMonthsText(months: seq<string>): string {
    Join(months, ", ")
  }

  lemma {:induction false} JoinEnds(ms: seq<string>)
    requires ms != [] && forall i :: 0 <= i < |ms| ==> IsMonthToken(ms[i])
    ensures var s := SkipMonthsText(ms);
      s != [] && IsMonthToken(ms[0]) && IsMonthToken(ms[|ms| - 1]) && s[0] == ms[0][0] && s[|s| - 1] == ms[|ms| - 1][6]
  {
    if |ms| > 1 {
      JoinEnds(ms[1..]);
    }
  }

  /** Splitting `a + ", " + rest` gives `a`, then the pieces of `rest`. */
  lemma SplitCons(a: string, rest: string)
    requires NoSep(a) && a != [] && rest != [] && !IsSep(rest[0])
    ensures Split(a + ", " + rest) == [a] + Split(rest)
  {
    var s := a + ", " + rest;
    assert s == a + (", " + rest);
    WordOf(a, ", " + rest);
    assert s[|a|..] == ", " + rest;
    DropSepsOf(", ", rest);
  }

  lemma {:induction false} SplitJoin(ms: seq<string>)
    requires ms != [] && forall i :: 0 <= i < |ms| ==> IsMonthToken(ms[i])
    ensures Split(SkipMonthsText(ms)) == ms
  {
    MonthTokenShape(ms[0]);
    if |ms| > 1 {
      JoinEnds(ms[1..]);
      MonthTokenShape(ms[1]);
      SplitCons(ms[0], SkipMonthsText(ms[1..]));
      SplitJoin(ms[1..]);
      assert ms == [ms[0]] + ms[1..];
    } else {
      WordOf(ms[0], []);
      assert ms[0] + [] == ms[0];
    }
  }

  /** Parsing the text of a parsed list gives the list back: loading and then saving the field changes nothing. */
  lemma SkipMonthsStable(ms: seq<string>)
    requires Distinct(ms) && forall m :: m in ms ==> IsMonthToken(m)
    ensures SkipMonths(SkipMonthsText(ms)) == ms
  {
    if ms != [] {
      JoinEnds(ms);
      var s := SkipMonthsText(ms);
      MonthTokenShape(ms[0]);
      MonthTokenShape(ms[|ms| - 1]);
      StripOfStripped(s);
      SplitJoin(ms);
      MonthsOfMonths(ms);
      DedupOfDistinct(ms);
    }
  }

  /** `parse(", ".join(parse(t))) == parse(t)` */
  lemma SkipMonthsRoundTrip(text: string)
    ensures SkipMonths(SkipMonthsText(SkipMonths(text))) == SkipMonths(text)
  {
    SkipMonthsStable(SkipMonths(text));
  }

  // ---------------------------------------------------------------------
  // The photo vault: `_normalize_photo_for_db`

  /** `vault / f"{stem}_{i}{suffix.lower()}"` */
  function Candidate(vault: string, stem: string, suffix: string, i: nat): string {
    vault + "/" + stem + "_" + NatToString(i) + Lower(suffix)
  }

  /** Distinct counters give distinct names. */
  lemma CandidatesDiffer(vault: string, stem: string, suffix: string, i: nat, j: nat)
    requires i != j
    ensures Candidate(vault, stem, suffix, i) != Candidate(vault, stem, suffix, j)
  {
    ParseIntToString(i);
    ParseIntToString(j);
    var p := vault + "/" + stem + "_";
    var a, b := NatToString(i), NatToString(j);
    var ci, cj := Candidate(vault, stem, suffix, i), Candidate(vault, stem, suffix, j);
    assert ci == p + a + Lower(suffix) && cj == p + b + Lower(suffix);
    if |a| == |b| {
      assert ci[|p|..|p| + |a|] == a && cj[|p|..|p| + |b|] == b;
    }
  }

  lemma SubsetSize<T>(a: set<T>, b: set<T>)
    requires a <= b
    ensures |a| <= |b|
  {
    if a != {} {
      var x :| x in a;
      SubsetSize(a - {x}, b - {x});
    }
  }

  /** The candidates tried before the `n`-th. */
  function Tried(vault: string, stem: string, suffix: string, n: nat): set<string> {
    if n <= 1 then {} else Tried(vault, stem, suffix, n - 1) + {Candidate(vault, stem, suffix, n - 1)}
  }

  lemma {:induction false} TriedSize(vault: string, stem: string, suffix: string, n: nat)
    requires n >= 1
    ensures |Tried(vault, stem, suffix, n)| == n - 1
    ensures forall k: nat :: 1 <= k < n <==> Candidate(vault, stem, suffix, k) in Tried(vault, stem, suffix, n)
  {
    if n > 1 {
      TriedSize(vault, stem, suffix, n - 1);
      var c := Candidate(vault, stem, suffix, n - 1);
      forall k: nat ensures Candidate(vault, stem, suffix, k) == c <==> k == n - 1 {
        if k != n - 1 {
          CandidatesDiffer(vault, stem, suffix, k, n - 1);
        }
      }
    }
  }

  /**
   * The name a picked photo is stored under: the original when it is free,
   * otherwise the first `stem_i` (i = 1, 2, ...) with the lower-cased suffix
   * that no file has.
   */
  ghost predicate FirstFreeName(taken: set<string>, vault: string, stem: string, suffix: string, dest: string) {
    var first := vault + "/" + stem + suffix;
    && dest !in taken
    && (|| dest == first
        || (&& first in taken
            && exists i: nat :: 1 <= i && dest == Candidate(vault, stem, suffix, i) && UpTo(taken, vault, stem, suffix, i)))
  }

  /** Every candidate before the `i`-th names an existing file. */
  ghost predicate UpTo(taken: set<string>, vault: string, stem: string, suffix: string, i: nat) {
    forall k :: 1 <= k < i ==> Candidate(vault, stem, suffix, k) in taken
  }

  /** The `while dest.exists()` loop of `_normalize_photo_for_db`. */
  method FreeName(taken: set<string>, dir: string, stem: string, suffix: string) returns (dest: string)
    ensures FirstFreeName(taken, dir, stem, suffix, dest)
  {
    var first := dir + "/" + stem + suffix;
    dest := first;
    var i: nat := 1;
    while dest in taken
      invariant i >= 1
      invariant dest == if i == 1 then first else Candidate(dir, stem, suffix, i - 1)
      invariant i > 1 ==> first in taken
      invariant Tried(dir, stem, suffix, i) - {dest} <= taken
      decreases |taken| + 2 - i
    {
      TriedSize(dir, stem, suffix, i);
      assert Tried(dir, stem, suffix, i) <= taken;
      SubsetSize(Tried(dir, stem, suffix, i), taken);
      dest := Candidate(dir, stem, suffix, i);
      i := i + 1;
    }
    if i > 1 {
      TriedSize(dir, stem, suffix, i - 1);
      assert Tried(dir, stem, suffix, i - 1) <= taken;
      assert UpTo(taken, dir, stem, suffix, i - 1);
      assert 1 <= i - 1 && dest == Candidate(dir, stem, suffix, i - 1);
    }
  }

  /** The photo vault directory and the files in it. */
  class PhotoVault {
    const dir: string
    var files: set<string>

    constructor (dir: string, files: set<string>)
      ensures this.dir == dir && this.files == files
    {
      this.dir := dir;
      this.files := files;
    }

    /**
     * `_normalize_photo_for_db`: an unsupported file gives None; a file already
     * inside the vault keeps its path; otherwise it is copied in under the first
     * free name. `stem + suffix` is the file's name, `src` its full path;
     * `copyOk` says whether the copy succeeds, and a failed copy gives None.
     */
    method NormalizePhoto(src: string, stem: string, suffix: string, supported: bool, insideVault: bool, copyOk: bool)
      returns (stored: Option<string>)
      modifies this
      ensures !supported ==> stored == None && files == old(files)
      ensures supported && insideVault ==> stored == Some(src) && files == old(files)
      ensures supported && !insideVault && !copyOk ==> stored == None && files == old(files)
      ensures supported && !insideVault && copyOk ==>
        stored.Some? && FirstFreeName(old(files), dir, stem, suffix, stored.value)
        && files == old(files) + {stored.value}
    {
      if !supported {
        return None;
      }
      if insideVault {
        return Some(src);
      }
      if !copyOk {
        return None;
      }
      var dest := FreeName(files, dir, stem, suffix);
      files := files + {dest};
      stored := Some(dest);
    }
  }

  // ---------------------------------------------------------------------
  // The User page

  /** A message the page flashes. */
  datatype Flash = Saved(message: string) | Failed(message: string)

  /**
   * The photo marker: None leaves the photo unchanged, "" asks to remove it,
   * a path asks to store that file.
   */
  type Marker = Option<string>

  /** What `_save_user_page` does: refuse, or call `upsert_profile` with these arguments. */
  datatype UserSave = Refused(flash: Flash) | Upsert(args: Profiles.ProfileArgs)

  /** The decision of `_save_user_page`; `normalized` is what `_normalize_photo_for_db` gave for the marker's path. */
  function UserPageSave(nameText: string, marker: Marker, normalized: Option<string>): (r: UserSave)
    ensures Strip(nameText) == "" && marker.None? ==> r == Refused(Failed("Nothing to save on User tab."))
    ensures r.Upsert? ==> (r.args.name.Some? <==> Strip(nameText) != "")
    ensures r.Upsert? && r.args.name.Some? ==> r.args.name.value == Strip(nameText)
    ensures r.Upsert? ==>
      r.args.monthlyBudget.None? && r.args.mainWalletId.None? && r.args.skipMonths.None?
      && r.args.passwordHash.None? && r.args.theme.None?
  {
    var name := Strip(nameText);
    if name == "" && marker.None? then Refused(Failed("Nothing to save on User tab."))
    else
      var nameArg := if name != "" then Some(name) else None;
      match marker
      case None => Upsert(Profiles.ProfileArgs(nameArg, None, None, None, None, None, None))
      case Some(m) =>
        if m == "" then Upsert(Profiles.ProfileArgs(nameArg, None, None, None, None, None, None))
        else match normalized
          case None => Refused(Failed("Could not validate/copy the selected image."))
          case Some(p) => Upsert(Profiles.ProfileArgs(nameArg, Some(p), None, None, None, None, None))
  }

  /**
   * The marker `_load_profile_into_ui` leaves: the stored `photo_path` when
   * `get_current_profile` gives a row whose photo is non-empty text, None
   * otherwise (a failed read is caught and counts as no profile).
   */
  function LoadedPhoto(s: Store.Snapshot): (m: Marker)
    ensures m.Some? ==>
      m.value != "" && Profiles.CurrentProfile(s).Ok? && s.profiles != []
      && Profiles.Column(s.profiles[0].data, "photo_path") == VStr(m.value)
    ensures (Profiles.CurrentProfile(s).Ok? && s.profiles != []
             && Profiles.Column(s.profiles[0].data, "photo_path").VStr?
             && Profiles.Column(s.profiles[0].data, "photo_path").s != "") ==>
      m == Some(Profiles.Column(s.profiles[0].data, "photo_path").s)
    ensures Profiles.CurrentProfile(s).Err? || s.profiles == [] ==> m.None?
  {
    match Profiles.CurrentProfile(s)
    case Err(_) => None
    case Ok(p) =>
      if p.None? then None
      else
        Profiles.ProfileDictPhoto(s.profiles[0]);
        match Get(p.value, "photo_path")
        case Some(VStr(t)) => if t != "" then Some(t) else None
        case _ => None
  }

  /** A photo saved by the User page is the marker the page reloads. */
  lemma SavedPhotoReloaded(s: Store.Snapshot, a: Profiles.ProfileArgs, now: string, p: string)
    requires Store.ValidSnapshot(s) && Profiles.Upserted(s, a, now).Ok?
    requires a.photoPath == Some(p) && p != ""
    requires forall c :: c in Profiles.SelectedColumns ==> c in s.profileColumns
    ensures LoadedPhoto(Profiles.Upserted(s, a, now).value) == Some(p)
  {
    assert "photo_path" in Profiles.SelectedColumns;
    if s.profiles == [] {
      Profiles.UpsertCreates(s, a, now, "photo_path");
    } else {
      Profiles.UpsertUpdates(s, a, now, "photo_path");
    }
  }

  /**
   * A page loaded from a profile with a photo always has something to save:
   * with an empty name it re-sends the photo rather than refusing.
   */
  lemma LoadedPhotoResent(s: Store.Snapshot, nameText: string, normalized: Option<string>)
    requires LoadedPhoto(s).Some?
    ensures UserPageSave(nameText, LoadedPhoto(s), normalized) != Refused(Failed("Nothing to save on User tab."))
    ensures normalized.Some? ==>
      UserPageSave(nameText, LoadedPhoto(s), normalized).Upsert?
      && UserPageSave(nameText, LoadedPhoto(s), normalized).args.photoPath == normalized
  {
    NewPhotoSent(nameText, LoadedPhoto(s).value, normalized);
  }

  /** A new photo is sent with the stored path; a failed copy refuses the save. */
  lemma NewPhotoSent(nameText: string, m: string, normalized: Option<string>)
    requires m != ""
    ensures normalized.None? ==> UserPageSave(nameText, Some(m), normalized) == Refused(Failed("Could not validate/copy the selected image."))
    ensures normalized.Some? ==>
      UserPageSave(nameText, Some(m), normalized).Upsert?
      && UserPageSave(nameText, Some(m), normalized).args.photoPath == normalized
  {
  }

  /**
   * "Remove" sends `photo_path=None`, which `upsert_profile` leaves out: the
   * stored photo survives the save.
   */
  lemma RemoveKeepsPhoto(s: Store.Snapshot, nameText: string, normalized: Option<string>, now: string)
    requires Store.ValidSnapshot(s) && s.profiles != []
    requires UserPageSave(nameText, Some(""), normalized).Upsert?
    requires Profiles.Upserted(s, UserPageSave(nameText, Some(""), normalized).args, now).Ok?
    ensures var after := Profiles.Upserted(s, UserPageSave(nameText, Some(""), normalized).args, now).value;
      Profiles.Column(after.profiles[0].data, "photo_path") == Profiles.Column(s.profiles[0].data, "photo_path")
  {
    var a := UserPageSave(nameText, Some(""), normalized).args;
    assert Profiles.Requested(a, "photo_path").None?;
    Profiles.UpsertKeepsOmitted(s, a, now, "photo_path");
  }

  /**
   * A User page save goes through `upsert_profile` without a main wallet or a
   * theme, whose guards always write: it clears both.
   */
  lemma UserSaveClearsWalletAndTheme(s: Store.Snapshot, nameText: string, marker: Marker, normalized: Option<string>, now: string)
    requires Store.ValidSnapshot(s) && s.profiles != []
    requires UserPageSave(nameText, marker, normalized).Upsert?
    requires Profiles.Upserted(s, UserPageSave(nameText, marker, normalized).args, now).Ok?
    requires "main_wallet_id" in s.profileColumns && "theme" in s.profileColumns
    ensures var after := Profiles.Upserted(s, UserPageSave(nameText, marker, normalized).args, now).value;
      Profiles.Column(after.profiles[0].data, "main_wallet_id") == VNone
      && Profiles.Column(after.profiles[0].data, "theme") == VNone
  {
    Profiles.UpsertClearsWalletAndTheme(s, UserPageSave(nameText, marker, normalized).args, now);
  }

  // ---------------------------------------------------------------------
  // The Security page

  /** The message `_save_security_page` refuses with, or None when it calls `set_password`. */
  function PasswordProblem(password: string, confirm: string): (r: Option<string>)
    ensures r.None? <==> password != "" && confirm != "" && password == confirm && |password| >= 6
  {
    if password == "" || confirm == "" then Some("Enter password and confirmation.")
    else if password != confirm then Some("Passwords do not match.")
    else if |password| < 6 then Some("Password must be at least 6 characters.")
    else None
  }

  /** The navigation rail and the pending photo of the settings page. */
  class SettingsPage {
    var section: nat
    var pendingPhoto: Marker

    /** `__init__`: the first section is open and `_load_profile_into_ui` loads the stored photo. */
    constructor (db: Store.Database)
      ensures section == 0 && pendingPhoto == LoadedPhoto(db.Snap())
    {
      section := 0;
      pendingPhoto := LoadedPhoto(db.Snap());
    }

    /** `_on_choose_photo`: a cancelled dialog (empty path) does nothing; a supported file becomes the pending photo. */
    method PickPhoto(path: string, supported: bool) returns (flash: Option<Flash>)
      modifies this
      ensures section == old(section)
      ensures path == "" ==> pendingPhoto == old(pendingPhoto) && flash.None?
      ensures path != "" && supported ==> pendingPhoto == Some(path) && flash.None?
      ensures path != "" && !supported ==>
        pendingPhoto == old(pendingPhoto)
        && flash == Some(Failed("Unsupported image file. Please pick PNG/JPG/BMP/GIF/WebP."))
    {
      if path == "" {
        return None;
      }
      if !supported {
        return Some(Failed("Unsupported image file. Please pick PNG/JPG/BMP/GIF/WebP."));
      }
      pendingPhoto := Some(path);
      flash := None;
    }

    /** `_on_remove_photo`: mark the photo for removal. */
    method RemovePhoto()
      modifies this
      ensures pendingPhoto == Some("") && section == old(section)
    {
      pendingPhoto := Some("");
    }

    /** `_nav_click`: a click on the open section saves it, on another one opens it. */
    method NavClick(idx: nat) returns (saves: bool)
      modifies this
      ensures saves <==> old(section) == idx
      ensures section == idx && pendingPhoto == old(pendingPhoto)
    {
      saves := section == idx;
      if !saves {
        section := idx;
      }
    }

    /**
     * `_save_user_page`, with `normalized` the vault path the marked photo was
     * stored under; a successful save reloads the pending photo from the
     * profile it wrote.
     */
    method SaveUserPage(db: Store.Database, nameText: string, normalized: Option<string>, now: string)
      returns (flash: Flash)
      requires db.Valid()
      modifies this, db
      ensures db.Valid() && section == old(section)
      ensures var d := UserPageSave(nameText, old(pendingPhoto), normalized);
        (d.Refused? ==> flash == d.flash && db.Snap() == old(db.Snap()) && pendingPhoto == old(pendingPhoto))
        && (d.Upsert? && Profiles.Upserted(old(db.Snap()), d.args, now).Ok? ==>
              flash == Saved("Saved") && db.Snap() == Profiles.Upserted(old(db.Snap()), d.args, now).value
              && pendingPhoto == LoadedPhoto(db.Snap()))
        && (d.Upsert? && Profiles.Upserted(old(db.Snap()), d.args, now).Err? ==>
              flash == Failed("Save failed.") && db.Snap() == old(db.Snap()) && pendingPhoto == old(pendingPhoto))
    {
      var d := UserPageSave(nameText, pendingPhoto, normalized);
      if d.Refused? {
        return d.flash;
      }
      flash := UpsertAndReload(db, d.args, now);
    }

    /** The `upsert_profile` call of `_save_user_page`, and the reload after a success. */
    method UpsertAndReload(db: Store.Database, args: Profiles.ProfileArgs, now: string) returns (flash: Flash)
      requires db.Valid()
      modifies this, db
      ensures db.Valid() && section == old(section)
      ensures Profiles.Upserted(old(db.Snap()), args, now).Ok? ==>
        flash == Saved("Saved") && db.Snap() == Profiles.Upserted(old(db.Snap()), args, now).value
        && pendingPhoto == LoadedPhoto(db.Snap())
      ensures Profiles.Upserted(old(db.Snap()), args, now).Err? ==>
        flash == Failed("Save failed.") && db.Snap() == old(db.Snap()) && pendingPhoto == old(pendingPhoto)
    {
      var ok := Profiles.UpsertProfile(db, args, now);
      if ok.Ok? {
        flash := Saved("Saved");
        pendingPhoto := LoadedPhoto(db.Snap());
      } else {
        flash := Failed("Save failed.");
      }
    }

    /** `_save_security_page`: `set_password` is called only for a valid, confirmed password. */
    method SaveSecurityPage(db: Store.Database, c: Profiles.Crypto, password: string, confirm: string, salt: Profiles.Bytes)
      returns (flash: Flash)
      requires db.Valid()
      modifies db
      ensures db.Valid()
      ensures PasswordProblem(password, confirm).Some? ==>
        flash == Failed(PasswordProblem(password, confirm).value) && db.Snap() == old(db.Snap())
      ensures PasswordProblem(password, confirm).None? ==>
        var o := Profiles.PasswordSet(old(db.Snap()), c, VStr(password), salt);
        db.Snap() == o.state
        && flash == (if o.result.Ok? then Saved("Password updated") else Failed("Failed to update password."))
    {
      var problem := PasswordProblem(password, confirm);
      if problem.Some? {
        return Failed(problem.value);
      }
      var r := Profiles.SetPassword(db, c, VStr(password), salt);
      flash := if r.Ok? then Saved("Password updated") else Failed("Failed to update password.");
    }
  }
}
