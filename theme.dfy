/**
 * The theme registry: twelve built-in themes by id and by key, the option list
 * for the settings combobox, the lookups with their fallback to the default
 * theme, and the runtime selection with its change callbacks.
 */
module Themes {
  import opened Wrappers
  import opened Values
  import Text
  import Store
  import Profiles

  /** Whether a theme paints light or dark base surfaces. */
  datatype Variant = Dark | Light

  /** A theme's identity; its palette and glow strengths are not modelled. */
  datatype Theme = Theme(id: int, key: string, title: string, variant: Variant)

  const MidnightGlass := Theme(0, "midnight_glass", "Midnight Glass", Dark)

  /**
   * The built-in themes in registration order: the eight of the original
   * comprehension, then the four assigned after it. Every id and every key
   * occurs once, so the registry dicts hold exactly these.
   */
  function Registered(): seq<Theme> { [
    MidnightGlass,
    Theme(1, "light_mist", "Light Mist", Light),
    Theme(2, "autumn", "Autumn", Dark),
    Theme(3, "nord", "Nord", Dark),
    Theme(4, "desert", "Desert", Dark),
    Theme(5, "forest", "Forest", Dark),
    Theme(6, "oled_black", "OLED Black", Dark),
    Theme(7, "monochrome_slate", "Monochrome Slate", Dark),
    Theme(8, "sunset", "Sunset", Dark),
    Theme(9, "icy_light_blue", "Icy Light Blue", Light),
    Theme(10, "black_white", "Black & White", Dark),
    Theme(11, "winter_lights", "Winter Lights", Dark)] }

  /** `_DEFAULT_THEME_ID` */
  const DefaultThemeId: int := 0

  /** The `i`-th registered theme has id `i`. */
  lemma RegisteredIds()
    ensures |Registered()| == 12
    ensures forall i :: 0 <= i < |Registered()| ==> Registered()[i].id == i
  {
  }

  /** No two registered themes share a key. */
  lemma RegisteredKeysDistinct()
    ensures forall i, j :: 0 <= i < j < |Registered()| ==> Registered()[i].key != Registered()[j].key
  {
    forall i, j | 0 <= i < j < |Registered()| ensures Registered()[i].key != Registered()[j].key {
      assert Registered()[i].key[..2] != Registered()[j].key[..2] || Registered()[i].key[2..] != Registered()[j].key[2..];
    }
  }

  // ---------------------------------------------------------------------
  // The two registry dicts

  /** `{t.id: t for t in ts}`, later entries overwriting earlier ones. */
  function ById(ts: seq<Theme>): (m: map<int, Theme>)
    ensures forall t :: t in ts ==> t.id in m
    ensures forall id :: id in m ==> m[id] in ts && m[id].id == id
  {
    if ts == [] then map[]
    else
      var n := |ts| - 1;
      assert ts == ts[..n] + [ts[n]];
      ById(ts[..n])[ts[n].id := ts[n]]
  }

  /** `{t.key: t for t in ts}`, later entries overwriting earlier ones. */
  function ByKey(ts: seq<Theme>): (m: map<string, Theme>)
    ensures forall t :: t in ts ==> t.key in m
    ensures forall k :: k in m ==> m[k] in ts && m[k].key == k
  {
    if ts == [] then map[]
    else
      var n := |ts| - 1;
      assert ts == ts[..n] + [ts[n]];
      ByKey(ts[..n])[ts[n].key := ts[n]]
  }

  /** With distinct ids every theme is found under its own id. */
  lemma {:induction false} ByIdAt(ts: seq<Theme>, i: nat)
    requires i < |ts| && forall a, b :: 0 <= a < b < |ts| ==> ts[a].id != ts[b].id
    ensures ById(ts)[ts[i].id] == ts[i]
  {
    var n := |ts| - 1;
    if i < n {
      ByIdAt(ts[..n], i);
    }
  }

  /** With distinct keys every theme is found under its own key. */
  lemma {:induction false} ByKeyAt(ts: seq<Theme>, i: nat)
    requires i < |ts| && forall a, b :: 0 <= a < b < |ts| ==> ts[a].key != ts[b].key
    ensures ByKey(ts)[ts[i].key] == ts[i]
  {
    var n := |ts| - 1;
    if i < n {
      ByKeyAt(ts[..n], i);
    }
  }

  /** `_THEMES_BY_ID` */
  function ThemesById(): map<int, Theme> {
    ById(Registered())
  }

  /** `_THEMES_BY_KEY` */
  function ThemesByKey(): map<string, Theme> {
    ByKey(Registered())
  }

  /** The registered ids are exactly 0 to 11, each holding the theme with that id. */
  lemma ThemesByIdContents(id: int)
    ensures id in ThemesById() <==> 0 <= id < 12
    ensures 0 <= id < 12 ==> ThemesById()[id] == Registered()[id]
  {
    RegisteredIds();
    if 0 <= id < 12 {
      ByIdAt(Registered(), id);
    }
  }

  /** Every registered theme is found under its key. */
  lemma ThemesByKeyContents(t: Theme)
    requires t in Registered()
    ensures t.key in ThemesByKey() && ThemesByKey()[t.key] == t
  {
    RegisteredKeysDistinct();
    var i :| 0 <= i < |Registered()| && Registered()[i] == t;
    ByKeyAt(Registered(), i);
  }

  // ---------------------------------------------------------------------
  // Lookups

  /** `theme_from_id`: the registered theme, or the default one. */
  function ThemeFromId(id: int): (t: Theme)
    ensures t in Registered()
    ensures 0 <= id < 12 ==> t.id == id
    ensures !(0 <= id < 12) ==> t == MidnightGlass
  {
    ThemesByIdContents(id);
    ThemesByIdContents(DefaultThemeId);
    if id in ThemesById() then ThemesById()[id] else ThemesById()[DefaultThemeId]
  }

  /** `theme_from_key`: the registered theme, or the default one. */
  function ThemeFromKey(key: string): (t: Theme)
    ensures t in Registered()
    ensures key in ThemesByKey() ==> t.key == key
    ensures key !in ThemesByKey() ==> t == MidnightGlass
  {
    ThemesByIdContents(DefaultThemeId);
    if key in ThemesByKey() then ThemesByKey()[key] else ThemesById()[DefaultThemeId]
  }

  /** Looking a theme up by the key of the theme an id resolves to gives that theme back. */
  lemma KeyOfIdRoundTrip(id: int)
    ensures ThemeFromKey(ThemeFromId(id).key) == ThemeFromId(id)
  {
    ThemesByKeyContents(ThemeFromId(id));
  }

  // ---------------------------------------------------------------------
  // `list_theme_options`

  predicate SortedById(ts: seq<Theme>) {
    forall i, j :: 0 <= i < j < |ts| ==> ts[i].id <= ts[j].id
  }

  /** One step of a stable sort by id: `t` goes after every theme whose id is not larger. */
  function InsertById(t: Theme, ts: seq<Theme>): (r: seq<Theme>)
    ensures multiset(r) == multiset(ts) + multiset{t}
  {
    if ts == [] || t.id < ts[0].id then [t] + ts
    else
      assert ts == [ts[0]] + ts[1..];
      [ts[0]] + InsertById(t, ts[1..])
  }

  /** Inserting into themes sorted by id keeps them sorted. */
  lemma {:induction false} InsertSorted(t: Theme, ts: seq<Theme>)
    requires SortedById(ts)
    ensures SortedById(InsertById(t, ts))
  {
    if ts != [] && t.id >= ts[0].id {
      InsertSorted(t, ts[1..]);
      var rest := InsertById(t, ts[1..]);
      forall x | x in rest ensures ts[0].id <= x.id {
        assert x in multiset(rest);
        if x != t {
          assert x in ts[1..];
        }
      }
    }
  }

  /** `sorted(ts, key=lambda x: x.id)`: a permutation of `ts`. */
  function SortById(ts: seq<Theme>): (r: seq<Theme>)
    ensures multiset(r) == multiset(ts)
  {
    if ts == [] then []
    else
      var n := |ts| - 1;
      assert ts == ts[..n] + [ts[n]];
      InsertById(ts[n], SortById(ts[..n]))
  }

  /** The sort's result is in increasing id order. */
  lemma {:induction false} SortByIdSorted(ts: seq<Theme>)
    ensures SortedById(SortById(ts))
  {
    if ts != [] {
      var n := |ts| - 1;
      SortByIdSorted(ts[..n]);
      InsertSorted(ts[n], SortById(ts[..n]));
    }
  }

  lemma {:induction false} InsertLast(t: Theme, ts: seq<Theme>)
    requires forall x :: x in ts ==> x.id <= t.id
    ensures InsertById(t, ts) == ts + [t]
  {
    if ts != [] {
      assert ts[0] in ts;
      assert forall x :: x in ts[1..] ==> x in ts;
      InsertLast(t, ts[1..]);
      assert ts == [ts[0]] + ts[1..];
    }
  }

  /** Ids strictly increase along the list. */
  predicate StrictById(ts: seq<Theme>) {
    forall i, j :: 0 <= i < j < |ts| ==> ts[i].id < ts[j].id
  }

  /** Dropping the last theme keeps ids strictly increasing, and the last id is above all the others. */
  lemma StrictInit(ts: seq<Theme>)
    requires StrictById(ts) && ts != []
    ensures StrictById(ts[..|ts| - 1])
    ensures forall x :: x in ts[..|ts| - 1] ==> x.id <= ts[|ts| - 1].id
  {
    var n := |ts| - 1;
    var init := ts[..n];
    forall i, j | 0 <= i < j < |init| ensures init[i].id < init[j].id {
      assert init[i] == ts[i] && init[j] == ts[j];
    }
    forall x | x in init ensures x.id <= ts[n].id {
      var i :| 0 <= i < n && init[i] == x;
      assert ts[i].id < ts[n].id;
    }
  }

  lemma SortByIdStep(ts: seq<Theme>)
    requires ts != []
    ensures SortById(ts) == InsertById(ts[|ts| - 1], SortById(ts[..|ts| - 1]))
  {
  }

  lemma Snoc(ts: seq<Theme>)
    requires ts != []
    ensures ts == ts[..|ts| - 1] + [ts[|ts| - 1]]
  {
  }

  /** Sorting themes already in increasing id order changes nothing. */
  lemma {:induction false} SortSorted(ts: seq<Theme>)
    requires StrictById(ts)
    ensures SortById(ts) == ts
  {
    if ts != [] {
      var n := |ts| - 1;
      var init, last := ts[..n], ts[n];
      StrictInit(ts);
      SortSorted(init);
      InsertLast(last, init);
      SortByIdStep(ts);
      Snoc(ts);
    }
  }

  /** `(id, label)` of each theme, by increasing id. */
  function Options(ts: seq<Theme>): (opts: seq<(int, string)>)
    ensures |opts| == |ts|
    ensures forall i, j :: 0 <= i < j < |opts| ==> opts[i].0 <= opts[j].0
  {
    SortByIdSorted(ts);
    var sorted := SortById(ts);
    assert |sorted| == |multiset(sorted)| == |ts|;
    seq(|sorted|, i requires 0 <= i < |sorted| => (sorted[i].id, sorted[i].title))
  }

  /** `list_theme_options` */
  function ListThemeOptions(): seq<(int, string)> {
    Options(Registered())
  }

  /** Themes already in increasing id order are listed as they are. */
  lemma OptionsOfAscending(ts: seq<Theme>)
    requires forall i, j :: 0 <= i < j < |ts| ==> ts[i].id < ts[j].id
    ensures forall i :: 0 <= i < |ts| ==> Options(ts)[i] == (ts[i].id, ts[i].title)
  {
    SortSorted(ts);
  }

  /** The options are the twelve registered themes, one per id from 0 to 11, in that order. */
  lemma ThemeOptionsListed()
    ensures |ListThemeOptions()| == 12
    ensures forall i :: 0 <= i < 12 ==> ListThemeOptions()[i] == (i, ThemeFromId(i).title)
  {
    RegisteredIds();
    OptionsOfAscending(Registered());
    forall i | 0 <= i < 12 ensures ListThemeOptions()[i] == (i, ThemeFromId(i).title) {
      ThemeFromIdAt(i);
    }
  }

  /** A registered id gives the theme at that position. */
  lemma ThemeFromIdAt(id: int)
    requires 0 <= id < 12
    ensures ThemeFromId(id) == Registered()[id]
  {
    ThemesByIdContents(id);
  }

  // ---------------------------------------------------------------------
  // `apply_app_theme`

  /** Python's `isinstance(v, int)`, which a bool also passes. */
  function AsInt(v: Value): (r: Option<int>)
    ensures r.Some? <==> v.VInt? || v.VBool?
    ensures v.VInt? ==> r == Some(v.i)
  {
    match v
    case VInt(i) => Some(i)
    case VBool(b) => Some(if b then 1 else 0)
    case _ => None
  }

  /** `profile.get("theme_id", profile.get("themes", profile.get("theme")))` */
  function ProfileThemeValue(profile: Record): Value {
    match Get(profile, "theme_id")
    case Some(v) => v
    case None =>
      match Get(profile, "themes")
      case Some(v) => v
      case None => Get(profile, "theme").GetOr(VNone)
  }

  /**
   * The id `apply_app_theme` selects: the explicit id; else the profile's value
   * when it is an int (`profile` is what `get_current_profile` gave, an error
   * counting as no value); else the default.
   */
  function ResolveThemeId(explicit: Option<int>, profile: Result<Option<Record>>): (id: int)
    ensures explicit.Some? ==> id == explicit.value
    ensures explicit.None? && profile.Ok? && profile.value.Some? && AsInt(ProfileThemeValue(profile.value.value)).Some?
      ==> id == AsInt(ProfileThemeValue(profile.value.value)).value
    ensures explicit.None? && !(profile.Ok? && profile.value.Some? && AsInt(ProfileThemeValue(profile.value.value)).Some?)
      ==> id == DefaultThemeId
  {
    match explicit
    case Some(i) => i
    case None =>
      match profile
      case Ok(Some(p)) => AsInt(ProfileThemeValue(p)).GetOr(DefaultThemeId)
      case _ => DefaultThemeId
  }

  /**
   * With the profile the store returns, the `theme_id` alias is always present,
   * so the legacy `themes` and `theme` fallbacks never apply: the stored theme
   * is used when it is an int, else the default.
   */
  lemma StoredThemeResolved(s: Store.Snapshot)
    requires Profiles.CurrentProfile(s).Ok? && s.profiles != []
    ensures var stored := Profiles.Column(s.profiles[0].data, "theme");
      ResolveThemeId(None, Profiles.CurrentProfile(s)) == AsInt(stored).GetOr(DefaultThemeId)
  {
    Profiles.ProfileDictThemeId(s.profiles[0]);
  }

  /** A subscriber to theme changes, by identity. */
  type Callback = nat

  /** The notifications a change to `t` sends, one per callback, in registration order. */
  function Notices(cbs: seq<Callback>, t: Theme): (r: seq<(Callback, Theme)>)
    ensures |r| == |cbs| && forall i :: 0 <= i < |cbs| ==> r[i] == (cbs[i], t)
  {
    seq(|cbs|, i requires 0 <= i < |cbs| => (cbs[i], t))
  }

  /**
   * The module's runtime state: `_current_theme_id`, `_theme_changed_callbacks`,
   * and the calls made to the callbacks so far.
   */
  class ThemeState {
    var currentId: int
    var callbacks: seq<Callback>
    var notified: seq<(Callback, Theme)>

    constructor ()
      ensures currentId == DefaultThemeId && callbacks == [] && notified == []
    {
      currentId := DefaultThemeId;
      callbacks := [];
      notified := [];
    }

    /** `current_theme` */
    function CurrentTheme(): (t: Theme)
      reads this
      ensures t in Registered()
    {
      ThemeFromId(currentId)
    }

    /** `current_theme_key` */
    function CurrentThemeKey(): string
      reads this
    {
      CurrentTheme().key
    }

    /** `on_theme_changed`: append a subscriber. */
    method OnThemeChanged(cb: Callback)
      modifies this
      ensures callbacks == old(callbacks) + [cb]
      ensures currentId == old(currentId) && notified == old(notified)
    {
      callbacks := callbacks + [cb];
    }

    /**
     * `apply_app_theme`: select the resolved id, then call every subscriber once,
     * in registration order, with the theme it resolves to; a subscriber's
     * exception is swallowed, so none is skipped.
     */
    method ApplyAppTheme(explicit: Option<int>, profile: Result<Option<Record>>)
      modifies this
      ensures currentId == ResolveThemeId(explicit, profile)
      ensures callbacks == old(callbacks)
      ensures notified == old(notified) + Notices(old(callbacks), ThemeFromId(currentId))
    {
      currentId := ResolveThemeId(explicit, profile);
      Notify(ThemeFromId(currentId));
    }

    /** Call every subscriber, in registration order, over a copy of the list. */
    method Notify(theme: Theme)
      modifies this
      ensures currentId == old(currentId) && callbacks == old(callbacks)
      ensures notified == old(notified) + Notices(callbacks, theme)
    {
      var cbs := callbacks;
      var k := 0;
      while k < |cbs|
        invariant 0 <= k <= |cbs| && callbacks == cbs && currentId == old(currentId)
        invariant notified == old(notified) + Notices(cbs[..k], theme)
      {
        notified := notified + [(cbs[k], theme)];
        k := k + 1;
      }
      assert cbs[..k] == cbs;
    }
  }

  /** After an unregistered id is applied, the runtime id is kept while the theme falls back to the default. */
  lemma UnregisteredIdKept(explicit: int)
    requires !(0 <= explicit < 12)
    ensures ResolveThemeId(Some(explicit), Err(OperationalError(""))) == explicit
    ensures ThemeFromId(ResolveThemeId(Some(explicit), Err(OperationalError("")))) == MidnightGlass
  {
  }

  // ---------------------------------------------------------------------
  // The background painter

  /** `BackgroundCanvas.paintEvent` as written: `_THEMES_BY_ID[_current_theme_id]`. */
  function CanvasThemeAsWritten(currentId: int): (r: Result<Theme>)
    ensures r.Ok? <==> 0 <= currentId < 12
    ensures r.Ok? ==> r.value == ThemeFromId(currentId)
  {
    ThemesByIdContents(currentId);
    if currentId in ThemesById() then Ok(ThemesById()[currentId])
    else Err(KeyError(Text.IntToString(currentId)))
  }

  /** An unregistered id, accepted by `apply_app_theme`, makes the painter raise `KeyError`. */
  lemma CanvasFailsAfterUnregistered(explicit: int)
    requires !(0 <= explicit < 12)
    ensures CanvasThemeAsWritten(ResolveThemeId(Some(explicit), Ok(None))).Err?
  {
  }

  /** The painter looking its theme up as `current_theme` does. */
  function CanvasTheme(currentId: int): (t: Theme)
    ensures t in Registered() && t == ThemeFromId(currentId)
  {
    ThemeFromId(currentId)
  }

  /** The corrected painter always has a theme, the one the rest of the app shows. */
  lemma CanvasThemeAlwaysRegistered(st: ThemeState)
    ensures CanvasTheme(st.currentId) == st.CurrentTheme()
    ensures CanvasThemeAsWritten(st.currentId).Ok? ==> CanvasThemeAsWritten(st.currentId).value == CanvasTheme(st.currentId)
  {
  }
}
