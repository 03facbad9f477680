/** Date windows of the `/changes` endpoint: cutting a range into windows, halving a window
    that is over the page cap, and planning what to request since the last covered day.
    A date is its proleptic ordinal, as in `date.toordinal()`. */
module ChangeWindows {
  import opened Common

  const MAX_DISCOVER_PAGES: nat := 500

  const MAX_CHANGES_WINDOW_DAYS: nat := 14

  /** A closed range of days. The label of a window is its two dates, so the window names itself. */
  datatype DateWindow = DateWindow(start: int, end: int, splittable: bool) {
    predicate Has(day: int) { start <= day <= end }

    function Span(): int { end - start + 1 }
  }

  function ChangeWindow(start: int, end: int): DateWindow {
    DateWindow(start, end, end > start)
  }

  /** `ws` covers `start .. end` window after window: no day twice, none skipped. */
  ghost predicate Tiles(ws: seq<DateWindow>, start: int, end: int) {
    if ws == [] then start == end + 1
    else ws[0].start == start <= ws[0].end <= end && Tiles(ws[1..], ws[0].end + 1, end)
  }

  lemma {:induction false} TilesConcat(a: seq<DateWindow>, b: seq<DateWindow>, start: int, mid: int, end: int)
    requires Tiles(a, start, mid) && Tiles(b, mid + 1, end) && mid <= end
    ensures Tiles(a + b, start, end)
  {
    if a == [] {
      assert a + b == b;
    } else {
      assert (a + b)[1..] == a[1..] + b;
      TilesConcat(a[1..], b, a[0].end + 1, mid, end);
    }
  }

  ghost predicate InSome(ws: seq<DateWindow>, day: int) {
    exists i | 0 <= i < |ws| :: ws[i].Has(day)
  }

  /** What tiling means for the days and for the windows of a tiling. */
  lemma {:induction false} TilesCoverOnce(ws: seq<DateWindow>, start: int, end: int)
    requires Tiles(ws, start, end)
    ensures forall i | 0 <= i < |ws| :: start <= ws[i].start <= ws[i].end <= end
    ensures forall i, j | 0 <= i < j < |ws| :: ws[i].end < ws[j].start
    ensures forall i | 0 <= i < |ws| - 1 :: ws[i].end + 1 == ws[i + 1].start
    ensures forall day :: InSome(ws, day) <==> start <= day <= end
  {
    if ws != [] {
      TilesCoverOnce(ws[1..], ws[0].end + 1, end);
      assert forall i | 0 < i < |ws| :: ws[i] == ws[1..][i - 1];
      forall day
        ensures InSome(ws, day) <==> start <= day <= end
      {
        if start <= day <= end {
          if day <= ws[0].end {
            assert ws[0].Has(day);
          } else {
            assert InSome(ws[1..], day);
            var i :| 0 <= i < |ws[1..]| && ws[1..][i].Has(day);
            assert ws[i + 1].Has(day);
          }
        }
      }
    }
  }

  // ---- cutting a range into windows of at most maxSpan days

  function WindowTiling(start: int, end: int, maxSpan: int): seq<DateWindow>
    requires maxSpan >= 1
    decreases end - start
  {
    if start > end then []
    else
      var last := Min(start + maxSpan - 1, end);
      [ChangeWindow(start, last)] + WindowTiling(last + 1, end, maxSpan)
  }

  method ChangeWindowsOf(start: int, end: int, maxSpan: int) returns (r: Result<seq<DateWindow>>)
    ensures r.Err? <==> end < start || maxSpan < 1
    ensures r.Ok? ==> r.value == WindowTiling(start, end, maxSpan)
  {
    if end < start {
      return Err("change_windows: end is before start");
    }
    if maxSpan < 1 {
      return Err("change_windows: max_span_days must be >= 1");
    }
    var windows := [];
    var cursor := start;
    while cursor <= end
      invariant windows + WindowTiling(cursor, end, maxSpan) == WindowTiling(start, end, maxSpan)
      decreases end - cursor
    {
      var windowEnd := Min(cursor + maxSpan - 1, end);
      windows := windows + [ChangeWindow(cursor, windowEnd)];
      cursor := windowEnd + 1;
    }
    return Ok(windows);
  }

  /** The cut tiles the range, no window is longer than asked, and only the last may be shorter. */
  lemma {:induction false} WindowTilingTiles(start: int, end: int, maxSpan: int)
    requires maxSpan >= 1 && start <= end + 1
    ensures var ws := WindowTiling(start, end, maxSpan);
      && Tiles(ws, start, end)
      && (forall i | 0 <= i < |ws| :: ws[i].Span() <= maxSpan)
      && (forall i | 0 <= i < |ws| - 1 :: ws[i].Span() == maxSpan)
      && (forall i | 0 <= i < |ws| :: ws[i].splittable <==> ws[i].start < ws[i].end)
    decreases end - start
  {
    if start <= end {
      var ws := WindowTiling(start, end, maxSpan);
      var last := Min(start + maxSpan - 1, end);
      WindowTilingTiles(last + 1, end, maxSpan);
      assert ws[1..] == WindowTiling(last + 1, end, maxSpan);
      assert forall i | 0 < i < |ws| :: ws[i] == ws[1..][i - 1];
    }
  }

  // ---- halving

  function SplitChangeWindow(w: DateWindow): (halves: seq<DateWindow>)
    ensures halves == [] <==> w.start >= w.end
    ensures halves != [] ==> |halves| == 2
    ensures forall h | h in halves :: w.start <= h.start <= h.end <= w.end && h.end - h.start < w.end - w.start
  {
    if w.Span() < 2 then []
    else
      var midpoint := w.start + w.Span() / 2 - 1;
      [ChangeWindow(w.start, midpoint), ChangeWindow(midpoint + 1, w.end)]
  }

  /** The halves tile the window, differ by at most one day, and there are none for a single day. */
  lemma SplitTiles(w: DateWindow)
    requires w.start <= w.end
    ensures var halves := SplitChangeWindow(w);
      if w.start == w.end then halves == []
      else |halves| == 2 && Tiles(halves, w.start, w.end)
           && 0 <= halves[1].Span() - halves[0].Span() <= 1
           && (forall h | h in halves :: h.splittable <==> h.start < h.end)
  {
    if w.start < w.end {
      var halves := SplitChangeWindow(w);
      var midpoint := w.start + w.Span() / 2 - 1;
      assert halves[1..] == [ChangeWindow(midpoint + 1, w.end)];
      assert halves[1..][1..] == [];
      assert Tiles(halves[1..], midpoint + 1, w.end);
    }
  }

  // ---- planning

  datatype ChangesPlan = ChangesPlan(windows: seq<DateWindow>, uncovered: Option<(int, int)>) {
    predicate HasUncoveredRange() { uncovered.Some? }

    function UncoveredDays(): int {
      if uncovered.None? then 0 else uncovered.value.1 - uncovered.value.0 + 1
    }

    predicate ReportsUncovered(day: int) {
      uncovered.Some? && uncovered.value.0 <= day <= uncovered.value.1
    }
  }

  /** The oldest day the endpoint still answers for. */
  function Earliest(until: int, retention: int): int { until - (retention - 1) }

  function TilingOrError(start: int, end: int, maxSpan: int): Result<seq<DateWindow>> {
    if end < start || maxSpan < 1 then Err("change_windows") else Ok(WindowTiling(start, end, maxSpan))
  }

  function PlanChangeWindows(since: Option<int>, until: int, maxSpan: int, retention: int): (r: Result<ChangesPlan>)
    ensures r.Err? <==> retention < 1 || (maxSpan < 1 && (since.None? || since.value <= until))
  {
    if retention < 1 then Err("plan_change_windows: retention_days must be >= 1")
    else
      var earliest := Earliest(until, retention);
      if since.None? then
        var ws := TilingOrError(earliest, until, maxSpan);
        if ws.Err? then Err(ws.error) else Ok(ChangesPlan(ws.value, None))
      else if since.value > until then Ok(ChangesPlan([], None))
      else
        var ws := TilingOrError(Max(since.value, earliest), until, maxSpan);
        var firstUncovered := since.value + 1;
        if ws.Err? then Err(ws.error)
        else if firstUncovered < earliest then Ok(ChangesPlan(ws.value, Some((firstUncovered, earliest - 1))))
        else Ok(ChangesPlan(ws.value, None))
  }

  ghost predicate Requested(plan: ChangesPlan, day: int) {
    InSome(plan.windows, day)
  }

  /** Main planning result. The windows are adjacent, at most `maxSpan` days each, and inside the
      retention; a day after `since` up to `until` is either requested, in exactly one window, or
      reported as uncovered, never both; the watermark day is asked again while it is retained and
      is never reported as uncovered. */
  lemma PlanIsHonest(since: Option<int>, until: int, maxSpan: int, retention: int)
    requires maxSpan >= 1 && retention >= 1
    ensures var r := PlanChangeWindows(since, until, maxSpan, retention);
      && r.Ok?
      && var plan := r.value;
      var earliest := Earliest(until, retention);
      var first := if since.None? then earliest else Max(since.value, earliest);
      && (if since.Some? && since.value > until then plan == ChangesPlan([], None)
          else Tiles(plan.windows, first, until))
      && (forall i | 0 <= i < |plan.windows| ::
            && plan.windows[i].Span() <= maxSpan
            && earliest <= plan.windows[i].start <= plan.windows[i].end <= until
            && (plan.windows[i].splittable <==> plan.windows[i].start < plan.windows[i].end))
      && (since.Some? ==>
            && (forall day | since.value < day <= until :: Requested(plan, day) <==> !plan.ReportsUncovered(day))
            && (forall day | plan.ReportsUncovered(day) :: since.value < day < earliest)
            && (since.value <= until ==> (Requested(plan, since.value) <==> earliest <= since.value)))
      && (since.None? ==> forall day | earliest <= day <= until :: Requested(plan, day))
      && (plan.HasUncoveredRange() <==> since.Some? && since.value <= until && since.value + 1 < earliest)
      && plan.UncoveredDays() == (if plan.HasUncoveredRange() then earliest - since.value - 1 else 0)
  {
    var plan := PlanChangeWindows(since, until, maxSpan, retention).value;
    var earliest := Earliest(until, retention);
    var first := if since.None? then earliest else Max(since.value, earliest);
    if since.None? || since.value <= until {
      WindowTilingTiles(first, until, maxSpan);
      TilesCoverOnce(plan.windows, first, until);
      assert forall day :: Requested(plan, day) <==> first <= day <= until;
    }
  }
}
