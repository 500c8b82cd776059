/**
 * The insights page: how the timeframe chosen in its combobox maps onto the
 * chart builders' parameters, the state key that decides whether a chart tile
 * rebuilds, and the non-blocking refresh queue that rebuilds the tiles a few
 * at a time on a timer.
 */
module Insights {
  import opened Wrappers
  import opened Text

  // ---------------------------------------------------------------------
  // Timeframe maps

  /** The items of the timeframe combobox, the first one selected at start. */
  const TimeframeItems: seq<string> := ["This month", "6 months", "This year"]

  /** The three spans the mappers tell apart. */
  datatype Span = Year | SixMonths | OneMonth

  /** The classification every mapper makes: "year" anywhere wins, then a "6" anywhere. */
  function SpanOf(tf: string): (s: Span)
    ensures s == Year <==> Contains(Lower(tf), "year")
    ensures s == SixMonths <==> !Contains(Lower(tf), "year") && Contains(Lower(tf), "6")
  {
    var t := Lower(tf);
    if Contains(t, "year") then Year
    else if Contains(t, "6") then SixMonths
    else OneMonth
  }

  /** `_weeks_for_timeframe` */
  function WeeksForTimeframe(tf: string): int {
    var t := Lower(tf);
    if Contains(t, "year") then 52
    else if Contains(t, "6") then 26
    else 12
  }

  /** `_months_for_timeframe` */
  function MonthsForTimeframe(tf: string): int {
    var t := Lower(tf);
    if Contains(t, "year") then 12
    else if Contains(t, "6") then 6
    else 3
  }

  /** `_map_timeframe_for_budgetflow` */
  function BudgetFlowTimeframe(tf: string): string {
    var t := Lower(tf);
    if Contains(t, "year") then "year"
    else if Contains(t, "6") then "6m"
    else "month"
  }

  /** `_map_timeframe_for_distribution` */
  function DistributionTimeframe(tf: string): string {
    var t := Lower(tf);
    if Contains(t, "year") then "year"
    else if Contains(t, "6") then "6m"
    else "month"
  }

  /** `_map_timeframe_for_cumulative` */
  function CumulativeTimeframe(tf: string): string {
    var t := Lower(tf);
    if Contains(t, "year") then "this_year"
    else if Contains(t, "6") then "six_months"
    else "this_month"
  }

  /**
   * Every mapper is a function of the span alone, and the maps agree: a year is
   * 52 weeks and 12 months, six months are 26 weeks and 6 months, anything else
   * is 12 weeks and 3 months.
   */
  lemma MappersAgree(tf: string)
    ensures SpanOf(tf) == Year ==>
      WeeksForTimeframe(tf) == 52 && MonthsForTimeframe(tf) == 12 && BudgetFlowTimeframe(tf) == "year"
      && DistributionTimeframe(tf) == "year" && CumulativeTimeframe(tf) == "this_year"
    ensures SpanOf(tf) == SixMonths ==>
      WeeksForTimeframe(tf) == 26 && MonthsForTimeframe(tf) == 6 && BudgetFlowTimeframe(tf) == "6m"
      && DistributionTimeframe(tf) == "6m" && CumulativeTimeframe(tf) == "six_months"
    ensures SpanOf(tf) == OneMonth ==>
      WeeksForTimeframe(tf) == 12 && MonthsForTimeframe(tf) == 3 && BudgetFlowTimeframe(tf) == "month"
      && DistributionTimeframe(tf) == "month" && CumulativeTimeframe(tf) == "this_month"
  {
  }

  /** The text of the combobox is matched without regard to case. */
  lemma SpanIgnoresCase(tf: string)
    ensures SpanOf(Lower(tf)) == SpanOf(tf)
  {
    LowerIdempotent(tf);
  }

  /** `needle` occurs in `s` at position `k`. */
  lemma ContainsAt(s: string, needle: string, k: nat)
    requires k + |needle| <= |s| && s[k..k + |needle|] == needle
    ensures Contains(s, needle)
    decreases k
  {
    if k > 0 {
      ContainsAt(s[1..], needle, k - 1);
      assert s[1..][k - 1..k - 1 + |needle|] == s[k..k + |needle|];
    }
  }

  /** A string without the character `c` does not contain it. */
  lemma {:induction false} NotContainsChar(s: string, c: char)
    requires forall i :: 0 <= i < |s| ==> s[i] != c
    ensures !Contains(s, [c])
  {
    if |s| > 0 {
      assert s[..1][0] == s[0];
      NotContainsChar(s[1..], c);
    }
  }

  /** A string without a 'y' does not contain "year". */
  lemma {:induction false} NoYear(s: string)
    requires forall i :: 0 <= i < |s| ==> s[i] != 'y'
    ensures !Contains(s, "year")
  {
    if |s| > 0 {
      assert |s| >= 4 ==> s[..4][0] == s[0];
      NoYear(s[1..]);
    }
  }

  /** Text with neither a "y" nor a "6", in either case, is a one-month span. */
  lemma MonthSpan(tf: string)
    requires forall i :: 0 <= i < |tf| ==> tf[i] != 'y' && tf[i] != 'Y' && tf[i] != '6'
    ensures SpanOf(tf) == OneMonth
  {
    NoYear(Lower(tf));
    NotContainsChar(Lower(tf), '6');
  }

  /** Text starting with "6" and without a "y", in either case, is a six-month span. */
  lemma SixMonthSpan(tf: string)
    requires |tf| > 0 && tf[0] == '6'
    requires forall i :: 0 <= i < |tf| ==> tf[i] != 'y' && tf[i] != 'Y'
    ensures SpanOf(tf) == SixMonths
  {
    NoYear(Lower(tf));
    assert Lower(tf)[0..1] == "6";
    ContainsAt(Lower(tf), "6", 0);
  }

  /** Text holding "year" at position `k` is a year. */
  lemma YearSpan(tf: string, k: nat)
    requires k + 4 <= |tf| && tf[k..k + 4] == "year"
    ensures SpanOf(tf) == Year
  {
    var t := Lower(tf);
    assert t[k..k + 4] == "year";
    ContainsAt(t, "year", k);
  }

  /** The first combobox item, "This month", is a one-month span. */
  lemma FirstItemSpan(tf: string)
    requires tf == TimeframeItems[0]
    ensures SpanOf(tf) == OneMonth
  {
    MonthSpan(tf);
  }

  /** The second combobox item, "6 months", is a six-month span. */
  lemma SecondItemSpan(tf: string)
    requires tf == TimeframeItems[1]
    ensures SpanOf(tf) == SixMonths
  {
    SixMonthSpan(tf);
  }

  /** The third combobox item, "This year", is a year. */
  lemma ThirdItemSpan(tf: string)
    requires tf == TimeframeItems[2]
    ensures SpanOf(tf) == Year
  {
    YearSpan(tf, 5);
  }

  // ---------------------------------------------------------------------
  // The state key

  lemma {:induction false} JoinSnoc(parts: seq<string>, sep: string, last: string)
    requires parts != []
    ensures Join(parts + [last], sep) == Join(parts, sep) + sep + last
  {
    if |parts| > 1 {
      JoinSnoc(parts[1..], sep, last);
      assert (parts + [last])[1..] == parts[1..] + [last];
    }
  }

  /**
   * `_state_key`: the toggle, the timeframe text, the monthly budget as
   * formatted to two decimals, the number of skipped months, the current
   * month as `MM-YYYY` and the refresh nonce, joined by `|`. The budget text
   * and the month text come from the profile and the clock.
   */
  function StateKey(toggle: int, timeframe: string, budgetText: string, skipCount: nat, monthText: string, nonce: nat): string {
    Join([IntToString(toggle), timeframe, budgetText, NatToString(skipCount), monthText, NatToString(nonce)], "|")
  }

  /** Two refresh nonces give two state keys, whatever else the key holds. */
  lemma NonceChangesKey(toggle: int, timeframe: string, budgetText: string, skipCount: nat, monthText: string, n1: nat, n2: nat)
    requires n1 != n2
    ensures StateKey(toggle, timeframe, budgetText, skipCount, monthText, n1)
         != StateKey(toggle, timeframe, budgetText, skipCount, monthText, n2)
  {
    var front := [IntToString(toggle), timeframe, budgetText, NatToString(skipCount), monthText];
    JoinSnoc(front, "|", NatToString(n1));
    JoinSnoc(front, "|", NatToString(n2));
    assert [IntToString(toggle), timeframe, budgetText, NatToString(skipCount), monthText, NatToString(n1)] == front + [NatToString(n1)];
    assert [IntToString(toggle), timeframe, budgetText, NatToString(skipCount), monthText, NatToString(n2)] == front + [NatToString(n2)];
    var p := Join(front, "|") + "|";
    if p + NatToString(n1) == p + NatToString(n2) {
      assert NatToString(n1) == (p + NatToString(n1))[|p|..];
      assert NatToString(n2) == (p + NatToString(n2))[|p|..];
      NatToStringValue(n1);
      NatToStringValue(n2);
    }
  }

  // ---------------------------------------------------------------------
  // Chart tiles

  /** What a tile remembers: the key it was last built for, whether it shows a body, and how many it built. */
  datatype TileState = TileState(lastKey: Option<string>, hasBody: bool, builds: nat)

  /**
   * `ChartTile.refresh`: nothing when the key is given, equals the last one and
   * a body is shown; otherwise a new body is built (or a failure label, which
   * also counts as a body) and the key is remembered unless it is missing or
   * empty (`state_key or self._last_key`).
   */
  function TileRefresh(t: TileState, key: Option<string>): (r: TileState)
    ensures key.Some? && t.lastKey == key && t.hasBody ==> r == t
    ensures !(key.Some? && t.lastKey == key && t.hasBody) ==>
      r.hasBody && r.builds == t.builds + 1
      && r.lastKey == (if key.Some? && key.value != "" then key else t.lastKey)
  {
    if key.Some? && t.lastKey == key && t.hasBody then t
    else TileState(if key.Some? && key.value != "" then key else t.lastKey, true, t.builds + 1)
  }

  /** Refreshing twice with the same non-empty key builds once. */
  lemma RefreshIdempotent(t: TileState, key: string)
    requires key != ""
    ensures TileRefresh(TileRefresh(t, Some(key)), Some(key)) == TileRefresh(t, Some(key))
    ensures TileRefresh(t, Some(key)).builds <= t.builds + 1
  {
  }

  /** A key the tile has not seen always rebuilds it. */
  lemma NewKeyRebuilds(t: TileState, key: string)
    requires t.lastKey != Some(key)
    ensures TileRefresh(t, Some(key)).builds == t.builds + 1
  {
  }

  class ChartTile {
    var lastKey: Option<string>
    var hasBody: bool
    var builds: nat

    /** A new tile shows a lightweight skeleton body and remembers no key. */
    constructor ()
      ensures State() == TileState(None, true, 0)
    {
      lastKey := None;
      hasBody := true;
      builds := 0;
    }

    function State(): TileState
      reads this
    {
      TileState(lastKey, hasBody, builds)
    }

    method Refresh(key: Option<string>)
      modifies this
      ensures State() == TileRefresh(old(State()), key)
    {
      if key.Some? && lastKey == key && hasBody {
        return;
      }
      builds := builds + 1;
      hasBody := true;
      if key.Some? && key.value != "" {
        lastKey := key;
      }
    }
  }

  /** The states of the given tiles. */
  function States(tiles: seq<ChartTile>): (r: seq<TileState>)
    reads set t | t in tiles
    ensures |r| == |tiles| && forall i :: 0 <= i < |tiles| ==> r[i] == tiles[i].State()
  {
    if tiles == [] then [] else [tiles[0].State()] + States(tiles[1..])
  }

  // ---------------------------------------------------------------------
  // Grid placement

  /** Tile `i` goes to row 0, column `i` for the first five, else row 1, column `i - 5`. */
  function GridPos(i: nat): (rc: (nat, nat))
    ensures i < 10 ==> rc.0 < 2 && rc.1 < 5
    ensures 5 * rc.0 + rc.1 == i || i >= 10
  {
    if i < 5 then (0, i) else (1, i - 5)
  }

  /** The ten tiles fill the two rows of five, each cell once. */
  lemma GridPosInjective(i: nat, j: nat)
    requires i < 10 && j < 10 && i != j
    ensures GridPos(i) != GridPos(j)
  {
  }

  // ---------------------------------------------------------------------
  // The refresh queue

  /** `_refresh_batch_size` */
  const BatchSize: nat := 3

  /** The bump reasons that force every tile to rebuild. */
  predicate Bumps(reason: string) {
    reason == "data" || reason == "theme" || reason == "show"
  }

  /**
   * The queue's state: the refresh nonce, whether a start is pending, the
   * number of starts scheduled so far, the next tile index, and whether the
   * tick timer runs.
   */
  datatype Queue = Queue(nonce: nat, pending: bool, scheduled: nat, idx: nat, running: bool)

  /** `request_refresh` */
  function Request(q: Queue, reason: string): (r: Queue)
    ensures r.pending && r.idx == q.idx && r.running == q.running
    ensures r.nonce == q.nonce + (if Bumps(reason) then 1 else 0)
    ensures r.scheduled == q.scheduled + (if q.pending then 0 else 1)
  {
    var nonce := if Bumps(reason) then q.nonce + 1 else q.nonce;
    if q.pending then q.(nonce := nonce)
    else q.(nonce := nonce, pending := true, scheduled := q.scheduled + 1)
  }

  /** Several requests in a row, the last reason last. */
  function Requests(q: Queue, reasons: seq<string>): Queue
  {
    if reasons == [] then q else Request(Requests(q, reasons[..|reasons| - 1]), reasons[|reasons| - 1])
  }

  /** How many of the reasons bump the nonce. */
  function BumpCount(reasons: seq<string>): nat
  {
    if reasons == [] then 0
    else BumpCount(reasons[..|reasons| - 1]) + (if Bumps(reasons[|reasons| - 1]) then 1 else 0)
  }

  /** A burst of requests schedules at most one start, and the nonce counts the bumping ones. */
  lemma {:induction false} RequestsCoalesce(q: Queue, reasons: seq<string>)
    requires reasons != []
    ensures Requests(q, reasons).pending
    ensures Requests(q, reasons).scheduled == q.scheduled + (if q.pending then 0 else 1)
    ensures Requests(q, reasons).nonce == q.nonce + BumpCount(reasons)
  {
    var n := |reasons| - 1;
    if n > 0 {
      RequestsCoalesce(q, reasons[..n]);
    }
  }

  /** `_start_refresh_queue`: clears the pending flag; when visible, rewinds and starts the timer. */
  function Start(q: Queue, visible: bool): (r: Queue)
    ensures !r.pending && r.nonce == q.nonce && r.scheduled == q.scheduled
    ensures visible ==> r.idx == 0 && r.running
    ensures !visible ==> r.idx == q.idx && r.running == q.running
  {
    if visible then q.(pending := false, idx := 0, running := true)
    else q.(pending := false)
  }

  /** The end of the batch a tick starting at `idx` refreshes among `n` tiles. */
  function BatchEnd(idx: nat, n: nat): (e: nat)
    ensures idx < n ==> idx < e <= n && e - idx <= BatchSize
  {
    if idx + BatchSize < n then idx + BatchSize else n
  }

  /** `_refresh_tick` on the queue: stop at the end, else advance past one batch. */
  function Tick(q: Queue, n: nat): (r: Queue)
    ensures q.idx >= n ==> r == q.(running := false)
    ensures q.idx < n ==> r == q.(idx := BatchEnd(q.idx, n))
  {
    if q.idx >= n then q.(running := false) else q.(idx := BatchEnd(q.idx, n))
  }

  /** The indices `lo` to `hi - 1`, in order. */
  function Range(lo: nat, hi: nat): (r: seq<nat>)
    ensures |r| == if lo <= hi then hi - lo else 0
    ensures forall i :: 0 <= i < |r| ==> r[i] == lo + i
    decreases hi - lo
  {
    if lo >= hi then [] else [lo] + Range(lo + 1, hi)
  }

  /** The tiles a tick at `idx` refreshes. */
  function Batch(idx: nat, n: nat): seq<nat> {
    if idx >= n then [] else Range(idx, BatchEnd(idx, n))
  }

  /** The tiles refreshed, in order, by ticking from `idx` until the timer stops. */
  function RunLog(idx: nat, n: nat): seq<nat>
    decreases n - idx
  {
    if idx >= n then [] else Batch(idx, n) + RunLog(BatchEnd(idx, n), n)
  }

  lemma RangeSplit(lo: nat, mid: nat, hi: nat)
    requires lo <= mid <= hi
    ensures Range(lo, mid) + Range(mid, hi) == Range(lo, hi)
  {
  }

  /** One run refreshes every tile from `idx` on exactly once, in increasing order. */
  lemma {:induction false} RunRefreshesEachOnce(idx: nat, n: nat)
    requires idx <= n
    ensures RunLog(idx, n) == Range(idx, n)
    decreases n - idx
  {
    if idx < n {
      RunRefreshesEachOnce(BatchEnd(idx, n), n);
      RangeSplit(idx, BatchEnd(idx, n), n);
    }
  }

  /** The state after `k` ticks. */
  function Ticks(q: Queue, n: nat, k: nat): Queue {
    if k == 0 then q else Tick(Ticks(q, n, k - 1), n)
  }

  /** The number of ticks a run from `idx` takes, the one that stops the timer included. */
  function TickCount(idx: nat, n: nat): nat
    decreases n - idx
  {
    if idx >= n then 1 else 1 + TickCount(BatchEnd(idx, n), n)
  }

  lemma {:induction false} TicksAdvance(q: Queue, n: nat, k: nat)
    requires q.idx < n
    ensures Ticks(q, n, k + 1) == Ticks(Tick(q, n), n, k)
  {
    if k > 0 {
      TicksAdvance(q, n, k - 1);
    }
  }

  /** From a start, the timer runs until its last tick, which stops it with every tile done. */
  lemma {:induction false} RunStops(q: Queue, n: nat)
    requires q.running && q.idx <= n
    ensures var r := Ticks(q, n, TickCount(q.idx, n));
      !r.running && r.idx == n && r.nonce == q.nonce && r.pending == q.pending
    ensures forall k :: 0 <= k < TickCount(q.idx, n) ==> Ticks(q, n, k).running
    decreases n - q.idx
  {
    if q.idx < n {
      var q' := Tick(q, n);
      RunStops(q', n);
      TicksAdvance(q, n, TickCount(q'.idx, n));
      forall k | 0 <= k < TickCount(q.idx, n) ensures Ticks(q, n, k).running {
        if k > 0 {
          TicksAdvance(q, n, k - 1);
        }
      }
    }
  }

  /** With ten tiles a run refreshes three, three, three and one, then stops: five ticks. */
  lemma TenTilesTakeFiveTicks()
    ensures TickCount(0, 10) == 5
    ensures Batch(0, 10) == [0, 1, 2] && Batch(9, 10) == [9]
  {
  }

  /** The page's queue and its tiles. */
  class InsightsPage {
    var toggleKey: int
    var timeframe: string
    var visible: bool
    var nonce: nat
    var pending: bool
    var scheduled: nat
    var idx: nat
    var running: bool
    const tiles: seq<ChartTile>
    /** The indices of the tiles refreshed so far, in call order. */
    var refreshLog: seq<nat>

    /** No tile appears twice. */
    ghost predicate Valid()
      reads this
    {
      forall i, j :: 0 <= i < j < |tiles| ==> tiles[i] != tiles[j]
    }

    function Q(): Queue
      reads this
    {
      Queue(nonce, pending, scheduled, idx, running)
    }

    /** The page as built: ten skeleton tiles, nothing pending, the first timeframe item selected. */
    constructor (initialToggle: int)
      ensures Valid() && |tiles| == 10 && forall i :: 0 <= i < 10 ==> tiles[i].State() == TileState(None, true, 0)
      ensures toggleKey == initialToggle && timeframe == TimeframeItems[0] && !visible
      ensures Q() == Queue(0, false, 0, 0, false) && refreshLog == []
    {
      var ts: seq<ChartTile> := [];
      while |ts| < 10
        invariant |ts| <= 10 && forall i :: 0 <= i < |ts| ==> fresh(ts[i]) && ts[i].State() == TileState(None, true, 0)
        invariant forall i, j :: 0 <= i < j < |ts| ==> ts[i] != ts[j]
      {
        var t := new ChartTile();
        ts := ts + [t];
      }
      toggleKey := initialToggle;
      timeframe := TimeframeItems[0];
      visible := false;
      nonce := 0;
      pending := false;
      scheduled := 0;
      idx := 0;
      running := false;
      tiles := ts;
      refreshLog := [];
    }

    /** `request_refresh`; the delayed start is counted in `scheduled`. */
    method RequestRefresh(reason: string)
      modifies this
      ensures Q() == Request(old(Q()), reason)
      ensures toggleKey == old(toggleKey) && timeframe == old(timeframe) && visible == old(visible)
      ensures refreshLog == old(refreshLog)
    {
      if Bumps(reason) {
        nonce := nonce + 1;
      }
      if !pending {
        pending := true;
        scheduled := scheduled + 1;
      }
    }

    /** `_start_refresh_queue`, run when a scheduled start fires. */
    method StartRefreshQueue()
      modifies this
      ensures Q() == Start(old(Q()), visible)
      ensures toggleKey == old(toggleKey) && timeframe == old(timeframe) && visible == old(visible)
      ensures refreshLog == old(refreshLog)
    {
      pending := false;
      if !visible {
        return;
      }
      idx := 0;
      running := true;
    }

    /** `_refresh_tick`; the budget text, skipped-month count and month text are read from the profile and the clock. */
    method RefreshTick(budgetText: string, skipCount: nat, monthText: string)
      requires Valid()
      modifies this, tiles
      ensures Q() == Tick(old(Q()), |tiles|)
      ensures refreshLog == old(refreshLog) + Batch(old(idx), |tiles|)
      ensures var key := StateKey(toggleKey, timeframe, budgetText, skipCount, monthText, nonce);
        forall i :: 0 <= i < |tiles| ==>
          tiles[i].State() == if old(idx) <= i < idx then TileRefresh(old(tiles[i].State()), Some(key)) else old(tiles[i].State())
      ensures toggleKey == old(toggleKey) && timeframe == old(timeframe) && visible == old(visible)
    {
      var n := |tiles|;
      if idx >= n {
        running := false;
        return;
      }
      var key := StateKey(toggleKey, timeframe, budgetText, skipCount, monthText, nonce);
      var end := BatchEnd(idx, n);
      RefreshRange(idx, end, key);
      idx := end;
    }

    /** One batch: `tiles[lo..hi]` refreshed in order with `key`. */
    method RefreshRange(lo: nat, hi: nat, key: string)
      requires Valid() && lo <= hi <= |tiles|
      modifies this`refreshLog, tiles
      ensures refreshLog == old(refreshLog) + Range(lo, hi)
      ensures forall j :: 0 <= j < |tiles| ==>
        tiles[j].State() == if lo <= j < hi then TileRefresh(old(tiles[j].State()), Some(key)) else old(tiles[j].State())
    {
      var i := lo;
      while i < hi
        invariant lo <= i <= hi
        invariant refreshLog == old(refreshLog) + Range(lo, i)
        invariant forall j :: 0 <= j < |tiles| ==>
          tiles[j].State() == if lo <= j < i then TileRefresh(old(tiles[j].State()), Some(key)) else old(tiles[j].State())
      {
        tiles[i].Refresh(Some(key));
        RangeSplit(lo, i, i + 1);
        refreshLog := refreshLog + [i];
        i := i + 1;
      }
    }
  }
}
