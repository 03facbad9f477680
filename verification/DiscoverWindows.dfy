/** The `/discover` enumeration: one window per calendar year, its twelve months when the year is
    over the page cap, and the record of what could not be reached. A date is its proleptic ordinal, and the
    calendar, with its leap years and its last year, is spelled out, because splitting a window needs the
    first day of the next month. Pages are read one after the other, in the order in which `enumerate_windows`
    hands them to its sink. */
module DiscoverWindows {
  import opened Common
  import opened ChangeWindows
  import opened ChangeWalk

  // ---- the proleptic Gregorian calendar, as `datetime.date` counts it

  const MAX_YEAR: int := 9999

  type Year = y: int | y >= 1 witness 1

  type Month = m: int | 1 <= m <= 12 witness 1

  /** A month, or the end of the year. */
  type MonthOrEnd = m: int | 1 <= m <= 13 witness 1

  predicate IsLeap(y: int) { y % 4 == 0 && (y % 100 != 0 || y % 400 == 0) }

  function DaysBeforeYear(y: Year): int
  {
    (y - 1) * 365 + (y - 1) / 4 - (y - 1) / 100 + (y - 1) / 400
  }

  function DaysBeforeMonth(y: int, m: Month): int
  {
    [0, 31, 59, 90, 120, 151, 181, 212, 243, 273, 304, 334][m - 1] + if m > 2 && IsLeap(y) then 1 else 0
  }

  function Ordinal(y: Year, m: Month, d: int): int
  {
    DaysBeforeYear(y) + DaysBeforeMonth(y, m) + d
  }

  lemma MultiplesOf4(y: int)
    ensures y / 4 - (y - 1) / 4 == if y % 4 == 0 then 1 else 0
  {
  }

  lemma MultiplesOf100(y: int)
    ensures y / 100 - (y - 1) / 100 == if y % 100 == 0 then 1 else 0
  {
  }

  lemma MultiplesOf400(y: int)
    ensures y / 400 - (y - 1) / 400 == if y % 400 == 0 then 1 else 0
    ensures y % 400 == 0 ==> y % 100 == 0
    ensures y % 100 == 0 ==> y % 4 == 0
  {
  }

  lemma YearLength(y: Year)
    ensures DaysBeforeYear(y + 1) == DaysBeforeYear(y) + 365 + if IsLeap(y) then 1 else 0
  {
    MultiplesOf4(y);
    MultiplesOf100(y);
    MultiplesOf400(y);
  }

  lemma YearsAreAdjacent(y: Year)
    ensures Ordinal(y + 1, 1, 1) == Ordinal(y, 12, 31) + 1
    ensures Ordinal(y, 1, 1) < Ordinal(y, 12, 31)
  {
    hide DaysBeforeYear, IsLeap;
    YearLength(y);
  }

  // ---- windows

  function YearWindow(y: Year): DateWindow
  {
    DateWindow(Ordinal(y, 1, 1), Ordinal(y, 12, 31), true)
  }

  /** The first day of the month after month `m`. */
  function NextMonth(y: Year, m: Month): int
  {
    if m == 12 then Ordinal(y + 1, 1, 1) else Ordinal(y, m + 1, 1)
  }

  function MonthWindow(y: Year, m: Month): DateWindow
  {
    DateWindow(Ordinal(y, m, 1), NextMonth(y, m) - 1, false)
  }

  /** The windows of months `m .. 12`. */
  function MonthsFrom(y: Year, m: MonthOrEnd): seq<DateWindow>
    decreases 13 - m
  {
    if m == 13 then [] else [MonthWindow(y, m)] + MonthsFrom(y, m + 1)
  }

  lemma MonthsStep(y: Year, m: MonthOrEnd)
    ensures MonthsFrom(y, m) == if m == 13 then [] else [MonthWindow(y, m)] + MonthsFrom(y, m + 1)
  {
  }

  /** The year after the last one the calendar knows cannot be built, so its December fails. */
  method MonthWindows(year: int) returns (r: Result<seq<DateWindow>>)
    ensures r.Ok? <==> 1 <= year < MAX_YEAR
    ensures r.Ok? ==> r.value == MonthsFrom(year, 1)
  {
    hide MonthWindow, MonthsFrom;
    if year < 1 || year >= MAX_YEAR {
      return Err("year is out of range");
    }
    var windows := [];
    var month := 1;
    while month < 13
      invariant 1 <= month <= 13
      invariant windows + MonthsFrom(year, month) == MonthsFrom(year, 1)
    {
      MonthsStep(year, month);
      windows := windows + [MonthWindow(year, month)];
      month := month + 1;
    }
    MonthsStep(year, month);
    return Ok(windows);
  }

  /** The days of a month: thirty in April, June, September and November, 28 or 29 in February. */
  function DaysOf(y: Year, m: Month): (days: int)
    ensures 28 <= days <= 31
  {
    if m in {4, 6, 9, 11} then 30
    else if m != 2 then 31
    else if (y % 4 == 0 && y % 100 != 0) || y % 400 == 0 then 29 else 28
  }

  lemma MonthLength(y: Year, m: Month)
    ensures MonthWindow(y, m).Span() == DaysOf(y, m)
  {
    hide DaysBeforeYear, DaysBeforeMonth, DaysOf;
    YearsAreAdjacent(y);
    MonthStep(y, m);
  }

  lemma MonthStep(y: Year, m: Month)
    ensures m < 12 ==> DaysBeforeMonth(y, m + 1) == DaysBeforeMonth(y, m) + DaysOf(y, m)
    ensures m == 12 ==> DaysOf(y, m) == 31
  {
    match m
    case 1 =>
    case 2 =>
    case 3 =>
    case 4 =>
    case 5 =>
    case 6 =>
    case 7 =>
    case 8 =>
    case 9 =>
    case 10 =>
    case _ =>
  }

  lemma MonthEndsInside(y: Year, m: Month)
    ensures MonthWindow(y, m).end <= Ordinal(y, 12, 31)
  {
    hide DaysBeforeYear, IsLeap;
    YearsAreAdjacent(y);
  }

  lemma {:induction false} MonthsAreMonths(y: Year, m: MonthOrEnd)
    ensures |MonthsFrom(y, m)| == 13 - m
    ensures forall i | 0 <= i < 13 - m ::
      MonthsFrom(y, m)[i].Span() == DaysOf(y, m + i) && !MonthsFrom(y, m)[i].splittable
    decreases 13 - m
  {
    hide Ordinal, NextMonth, DaysOf;
    if m < 13 {
      MonthLength(y, m);
      MonthsAreMonths(y, m + 1);
    }
  }

  /** The first day of month `m`; "month 13" starts with the next year. */
  function MonthStart(y: Year, m: MonthOrEnd): int
  {
    if m == 13 then Ordinal(y + 1, 1, 1) else Ordinal(y, m, 1)
  }

  lemma MonthBounds(y: Year, m: Month)
    ensures MonthWindow(y, m).start == MonthStart(y, m) <= MonthWindow(y, m).end <= Ordinal(y, 12, 31)
    ensures MonthWindow(y, m).end + 1 == MonthStart(y, m + 1)
  {
    MonthEndsInside(y, m);
    MonthLength(y, m);
  }

  /** The months from `m` on tile the rest of the year, leap years included. */
  lemma {:induction false} MonthsTile(y: Year, m: MonthOrEnd)
    ensures Tiles(MonthsFrom(y, m), MonthStart(y, m), Ordinal(y, 12, 31))
    decreases 13 - m
  {
    YearsAreAdjacent(y);
    if m < 13 {
      hide Ordinal, MonthStart, MonthWindow;
      MonthBounds(y, m);
      MonthsTile(y, m + 1);
      assert MonthsFrom(y, m)[1..] == MonthsFrom(y, m + 1);
    }
  }

  /** The twelve months tile the year exactly, each with its own days. */
  lemma MonthsTileTheYear(y: Year)
    ensures Tiles(MonthsFrom(y, 1), Ordinal(y, 1, 1), Ordinal(y, 12, 31))
    ensures |MonthsFrom(y, 1)| == 12
    ensures forall m: Month :: MonthsFrom(y, 1)[m - 1].Span() == DaysOf(y, m)
    ensures forall w | w in MonthsFrom(y, 1) :: !w.splittable
  {
    hide MonthsFrom;
    MonthsTile(y, 1);
    MonthsAreMonths(y, 1);
  }

  function YearsFrom(first: Year, last: int): seq<DateWindow>
    decreases last - first
  {
    if first > last then [] else [YearWindow(first)] + YearsFrom(first + 1, last)
  }

  function YearWindows(first: int, last: int): (r: Result<seq<DateWindow>>)
    ensures r.Ok? <==> 1 <= first <= last <= MAX_YEAR
  {
    if last < first then Err("year_windows: end_year is before start_year")
    else if first < 1 || last > MAX_YEAR then Err("year is out of range")
    else Ok(YearsFrom(first, last))
  }

  /** The years tile the range from 1 January of the first to 31 December of the last. */
  lemma {:induction false} YearsTile(first: int, last: int)
    requires 1 <= first <= last + 1
    ensures Tiles(YearsFrom(first, last), Ordinal(first, 1, 1), Ordinal(last + 1, 1, 1) - 1)
    decreases last - first
  {
    if first <= last {
      YearsAreAdjacent(first);
      YearsTile(first + 1, last);
      YearsInOrder(first + 1, last + 1);
      assert YearsFrom(first, last)[1..] == YearsFrom(first + 1, last);
    }
  }

  lemma {:induction false} YearsInOrder(a: int, b: int)
    requires 1 <= a <= b
    ensures Ordinal(a, 1, 1) <= Ordinal(b, 1, 1)
    decreases b - a
  {
    if a < b {
      YearsAreAdjacent(a);
      YearsInOrder(a + 1, b);
    }
  }

  // ---- the year of a day

  function YearFrom(y: Year, day: int): (r: Year)
    requires Ordinal(y, 1, 1) <= day
    ensures r >= y && Ordinal(r, 1, 1) <= day <= Ordinal(r, 12, 31)
    decreases day - Ordinal(y, 1, 1)
  {
    YearsAreAdjacent(y);
    if day <= Ordinal(y, 12, 31) then y else YearFrom(y + 1, day)
  }

  function YearOf(day: int): (y: Year)
    requires day >= 1
    ensures Ordinal(y, 1, 1) <= day <= Ordinal(y, 12, 31)
  {
    YearFrom(1, day)
  }

  lemma YearIsUnique(y: Year, day: int)
    requires day >= 1 && Ordinal(y, 1, 1) <= day <= Ordinal(y, 12, 31)
    ensures YearOf(day) == y
  {
    hide Ordinal;
    var z := YearOf(day);
    YearsAreAdjacent(y);
    YearsAreAdjacent(z);
    if z < y {
      YearsInOrder(z + 1, y);
    } else if y < z {
      YearsInOrder(y + 1, z);
    }
  }

  // ---- enumeration

  ghost predicate Dated(ws: seq<DateWindow>) {
    forall i | 0 <= i < |ws| :: ws[i].start >= 1
  }

  predicate Splits(server: ChangeServer, w: DateWindow) {
    Saturated(server, w) && w.splittable
  }

  /** Splitting fails when it needs the months of the calendar's last year. */
  predicate Fails(server: ChangeServer, w: DateWindow)
    requires w.start >= 1
  {
    Splits(server, w) && YearOf(w.start) >= MAX_YEAR
  }

  /** The windows that are read for one that was asked for: itself, or the months of the year it starts
      in when it is over the cap and may be split. */
  function ReadFor(server: ChangeServer, w: DateWindow): seq<DateWindow>
    requires w.start >= 1
  {
    if Splits(server, w) then MonthsFrom(YearOf(w.start), 1) else [w]
  }

  ghost function ReadForAll(server: ChangeServer, ws: seq<DateWindow>): seq<DateWindow>
    requires Dated(ws)
  {
    if ws == [] then [] else ReadForAll(server, ws[..|ws| - 1]) + ReadFor(server, ws[|ws| - 1])
  }

  function SplitsOf(server: ChangeServer, ws: seq<DateWindow>): nat {
    if ws == [] then 0 else SplitsOf(server, ws[..|ws| - 1]) + if Splits(server, ws[|ws| - 1]) then 1 else 0
  }

  function PagesOf(server: ChangeServer, read: seq<DateWindow>): nat {
    if read == [] then 0 else PagesOf(server, read[..|read| - 1]) + PagesRead(server, read[|read| - 1])
  }

  lemma PagesOfNext(server: ChangeServer, read: seq<DateWindow>, w: DateWindow)
    ensures PagesOf(server, read + [w]) == PagesOf(server, read) + PagesRead(server, w)
  {
    assert (read + [w])[..|read|] == read;
  }

  /** The statistics of one enumeration and everything handed to the sink. */
  class Enumeration {
    var windows: nat
    var splitWindows: nat
    var pages: nat
    var targets: nat
    var truncated: seq<DateWindow>
    var emitted: seq<Id>
    ghost var read: seq<DateWindow>

    ghost predicate Valid(server: ChangeServer)
      reads this
    {
      && windows == |read|
      && pages == PagesOf(server, read)
      && targets == |emitted|
      && truncated == SaturatedOf(server, read)
      && emitted == LeafIds(server, read)
    }

    constructor (server: ChangeServer)
      ensures Valid(server) && read == [] && splitWindows == 0
    {
      windows, splitWindows, pages, targets, truncated := 0, 0, 0, 0, [];
      read, emitted := [], [];
    }

    method EmitPage(rows: seq<Option<Id>>)
      modifies this`pages, this`targets, this`emitted
      ensures pages == old(pages) + 1 && emitted == old(emitted) + ChangeIds(rows)
      ensures targets == old(targets) + |ChangeIds(rows)|
    {
      var ids := ChangeIds(rows);
      pages, targets, emitted := pages + 1, targets + |ids|, emitted + ids;
    }

    /** A window that is not split: up to the cap, page by page. */
    method EmitWindow(server: ChangeServer, window: DateWindow)
      requires Valid(server)
      modifies this
      ensures Valid(server) && read == old(read) + [window] && splitWindows == old(splitWindows)
    {
      hide ChangeIds, Page, PagesOf, LeafIds, SaturatedOf;
      LeavesConcat(server, read, [window]);
      OneLeaf(server, window);
      PagesOfNext(server, read, window);
      var totalPages := TotalPages(server, window);
      windows := windows + 1;
      if totalPages > MAX_DISCOVER_PAGES {
        truncated := truncated + [window];
        totalPages := MAX_DISCOVER_PAGES;
      }
      var page := 1;
      while page <= totalPages
        invariant 1 <= page <= totalPages + 1
        invariant emitted == old(emitted) + IdsOfPages(server, window, page - 1)
        invariant pages == old(pages) + page - 1 && targets == |emitted|
        invariant windows == old(windows) + 1 && splitWindows == old(splitWindows) && read == old(read)
        invariant truncated == SaturatedOf(server, old(read) + [window])
      {
        EmitPage(Page(server, window, page));
        page := page + 1;
      }
      read := read + [window];
    }

    method EnumerateWindow(server: ChangeServer, window: DateWindow) returns (ok: bool)
      requires Valid(server) && window.start >= 1
      modifies this
      ensures Valid(server) && (ok <==> !Fails(server, window))
      ensures read == old(read) + if ok then ReadFor(server, window) else []
      ensures splitWindows == old(splitWindows) + if Splits(server, window) then 1 else 0
    {
      hide PagesOf, MonthsFrom, Ordinal;
      if TotalPages(server, window) > MAX_DISCOVER_PAGES && window.splittable {
        splitWindows := splitWindows + 1;
        var months := MonthWindows(YearOf(window.start));
        if months.Err? {
          return false;
        }
        var i := 0;
        while i < |months.value|
          invariant 0 <= i <= |months.value|
          invariant Valid(server) && read == old(read) + months.value[..i]
          invariant splitWindows == old(splitWindows) + 1
        {
          EmitWindow(server, months.value[i]);
          i := i + 1;
        }
        assert months.value[..i] == months.value;
      } else {
        EmitWindow(server, window);
      }
      ok := true;
    }

    /** Window after window, until one fails: `done` of them have been read, and what they gave has
        reached the sink. */
    method EnumerateWindows(server: ChangeServer, list: seq<DateWindow>) returns (done: nat)
      requires Valid(server) && Dated(list)
      modifies this
      ensures Valid(server) && done <= |list|
      ensures forall i | 0 <= i < done :: !Fails(server, list[i])
      ensures done < |list| ==> Fails(server, list[done])
      ensures read == old(read) + ReadForAll(server, list[..done])
      ensures splitWindows == old(splitWindows) + SplitsOf(server, list[..Min(done + 1, |list|)])
    {
      hide PagesOf, ReadFor, Fails, Splits, LeafIds, SaturatedOf;
      done := 0;
      assert old(read) + [] == old(read);
      while done < |list|
        invariant Valid(server) && done <= |list|
        invariant forall i | 0 <= i < done :: !Fails(server, list[i])
        invariant read == old(read) + ReadForAll(server, list[..done])
        invariant splitWindows == old(splitWindows) + SplitsOf(server, list[..done])
      {
        assert list[..done + 1][..done] == list[..done];
        var ok := EnumerateWindow(server, list[done]);
        if !ok {
          return;
        }
        done := done + 1;
      }
    }
  }

  // ---- what an enumeration reaches

  /** A window that is split into exactly its own days, if it is split: a whole year. */
  predicate Yearly(w: DateWindow)
    requires w.start >= 1
  {
    w.splittable ==> w == YearWindow(YearOf(w.start))
  }

  ghost predicate AllYearly(ws: seq<DateWindow>) {
    Dated(ws) && forall i | 0 <= i < |ws| :: Yearly(ws[i])
  }

  /** The windows of a range of years are such windows, and tile it. */
  lemma YearWindowsTile(first: int, last: int)
    requires YearWindows(first, last).Ok?
    ensures var ws := YearWindows(first, last).value;
      AllYearly(ws) && Tiles(ws, Ordinal(first, 1, 1), Ordinal(last, 12, 31)) && forall w | w in ws :: w.splittable
  {
    hide Ordinal, YearsFrom;
    YearsTile(first, last);
    YearsAreAdjacent(last);
    YearsAreYearly(first, last);
  }

  lemma {:induction false} YearsAreYearly(first: Year, last: int)
    ensures AllYearly(YearsFrom(first, last)) && forall w | w in YearsFrom(first, last) :: w.splittable
    decreases last - first
  {
    hide Ordinal;
    if first <= last {
      YearsInOrder(1, first);
      assert Ordinal(1, 1, 1) == 1 by {
        FirstDay();
      }
      YearsAreAdjacent(first);
      YearIsUnique(first, Ordinal(first, 1, 1));
      YearsAreYearly(first + 1, last);
    }
  }

  lemma FirstDay()
    ensures Ordinal(1, 1, 1) == 1
  {
  }

  /** The windows read for one that was asked for hold its days, and only those. */
  lemma ReadForIsTheWindow(server: ChangeServer, w: DateWindow, day: int)
    requires w.start >= 1 && Yearly(w)
    ensures InSome(ReadFor(server, w), day) <==> w.Has(day)
    ensures forall r | r in ReadFor(server, w) :: r.start <= r.end ==> w.start <= r.start && r.end <= w.end
  {
    hide Ordinal, MonthsFrom;
    if Splits(server, w) {
      var y := YearOf(w.start);
      MonthsTileTheYear(y);
      TilesCoverOnce(MonthsFrom(y, 1), Ordinal(y, 1, 1), Ordinal(y, 12, 31));
    } else {
      assert [w][0].Has(day) == w.Has(day);
    }
  }

  lemma {:induction false} ReadForAllMember(server: ChangeServer, ws: seq<DateWindow>, r: DateWindow)
    requires Dated(ws)
    ensures r in ReadForAll(server, ws) <==> exists i :: 0 <= i < |ws| && r in ReadFor(server, ws[i])
  {
    hide ReadFor;
    if ws != [] {
      var last := |ws| - 1;
      ReadForAllMember(server, ws[..last], r);
      assert forall i | 0 <= i < last :: ws[..last][i] == ws[i];
    }
  }

  /** Main result. Over any list of windows of which those that may be split are years: an item the
      source dates inside one of them is emitted, unless its day is in a window named as truncated; and
      only items dated inside them are emitted. */
  lemma EnumerationIsComplete(server: ChangeServer, ws: seq<DateWindow>, day: int, id: Id)
    requires Honest(server) && AllYearly(ws)
    ensures var read := ReadForAll(server, ws);
      && (InSome(ws, day) && id in server.held(day) ==>
            id in LeafIds(server, read) || InSome(SaturatedOf(server, read), day))
      && (id in LeafIds(server, read) ==> exists i | 0 <= i < |ws| :: Holds(server, ws[i].start, ws[i].end, id))
  {
    hide ReadFor, Yearly, YearOf, Saturated, LeafIds, SaturatedOf, ReadForAll, Honest;
    var read := ReadForAll(server, ws);
    if InSome(ws, day) && id in server.held(day) {
      var i :| 0 <= i < |ws| && ws[i].Has(day);
      ReadForIsTheWindow(server, ws[i], day);
      var own := ReadFor(server, ws[i]);
      var j :| 0 <= j < |own| && own[j].Has(day);
      ReadForAllMember(server, ws, own[j]);
      ReadWindowGives(server, read, own[j], day, id);
    }
    LeafIdsMember(server, read, id);
    if id in LeafIds(server, read) {
      var k :| 0 <= k < |read| && id in IdsOfPages(server, read[k], PagesRead(server, read[k]));
      LeafIsComplete(server, read[k], id);
      ReadForAllMember(server, ws, read[k]);
      var i :| 0 <= i < |ws| && read[k] in ReadFor(server, ws[i]);
      ReadForIsTheWindow(server, ws[i], day);
      assert Holds(server, ws[i].start, ws[i].end, id);
    }
  }

  /** A window that is read gives the ids of its days, or is named as truncated. */
  lemma ReadWindowGives(server: ChangeServer, read: seq<DateWindow>, w: DateWindow, day: int, id: Id)
    requires Honest(server) && w in read && w.Has(day) && id in server.held(day)
    ensures id in LeafIds(server, read) || InSome(SaturatedOf(server, read), day)
  {
    hide Saturated, LeafIds, SaturatedOf, Honest;
    assert Holds(server, w.start, w.end, id);
    LeafIsComplete(server, w, id);
    LeafIdsMember(server, read, id);
    SaturatedOfMember(server, read, w);
    if Saturated(server, w) {
      var saturated := SaturatedOf(server, read);
      var k :| 0 <= k < |saturated| && saturated[k] == w;
      assert saturated[k].Has(day);
    }
  }

  // ---- the windows a split may lose days of

  /** What an enumeration of one window promises, for one server, day and id. */
  ghost predicate Reaches(server: ChangeServer, w: DateWindow, day: int, id: Id)
    requires w.start >= 1
  {
    var read := ReadFor(server, w);
    Honest(server) && w.Has(day) && id in server.held(day) ==>
      id in LeafIds(server, read) || InSome(SaturatedOf(server, read), day)
  }

  /** The exact condition: a window reaches all of its days on every server precisely when it may not be
      split or ends in the year it starts in. Days of a later year would be dropped in silence. */
  lemma SplitLosesNothingExactly(w: DateWindow)
    requires 1 <= w.start <= w.end
    ensures !w.splittable || w.end <= Ordinal(YearOf(w.start), 12, 31) <==>
      forall server, day, id :: Reaches(server, w, day, id)
  {
    hide Ordinal, YearOf, Reaches;
    if !w.splittable || w.end <= Ordinal(YearOf(w.start), 12, 31) {
      forall server, day, id
        ensures Reaches(server, w, day, id)
      {
        WindowInItsYear(server, w, day, id);
      }
    } else {
      LaterYearIsLost(w, "");
    }
  }

  lemma WindowInItsYear(server: ChangeServer, w: DateWindow, day: int, id: Id)
    requires w.start >= 1 && (!w.splittable || w.end <= Ordinal(YearOf(w.start), 12, 31))
    ensures Reaches(server, w, day, id)
  {
    hide Ordinal, MonthsFrom, LeafIds, SaturatedOf, Saturated, Honest;
    var read := ReadFor(server, w);
    if Honest(server) && w.Has(day) && id in server.held(day) {
      if Splits(server, w) {
        var y := YearOf(w.start);
        MonthsTileTheYear(y);
        TilesCoverOnce(MonthsFrom(y, 1), Ordinal(y, 1, 1), Ordinal(y, 12, 31));
        assert InSome(read, day);
      } else {
        assert read[0].Has(day);
      }
      var j :| 0 <= j < |read| && read[j].Has(day);
      ReadWindowGives(server, read, read[j], day, id);
    }
  }

  lemma LaterYearIsLost(w: DateWindow, id: Id)
    requires 1 <= w.start <= w.end && w.splittable && Ordinal(YearOf(w.start), 12, 31) < w.end
    ensures !Reaches(CrowdedServer(w.end, id), w, w.end, id)
  {
    hide Ordinal, MonthsFrom, LeafIds, SaturatedOf, Saturated, Honest, YearOf, IdsOfPages;
    var server := CrowdedServer(w.end, id);
    var y := YearOf(w.start);
    var months := MonthsFrom(y, 1);
    CrowdedIsHonest(w.end, id);
    assert Splits(server, w);
    MonthsTileTheYear(y);
    TilesCoverOnce(months, Ordinal(y, 1, 1), Ordinal(y, 12, 31));
    LeafIdsMember(server, months, id);
    if id in LeafIds(server, months) {
      var i :| 0 <= i < |months| && id in IdsOfPages(server, months[i], PagesRead(server, months[i]));
      LeafIsComplete(server, months[i], id);
    }
    var saturated := SaturatedOf(server, months);
    if InSome(saturated, w.end) {
      var k :| 0 <= k < |saturated| && saturated[k].Has(w.end);
      SaturatedOfMember(server, months, saturated[k]);
    }
  }

  // ---- what is named as truncated

  /** A whole month of one of the years. */
  ghost predicate IsMonth(t: DateWindow, first: int, last: int) {
    exists y: Year, m: Month ::
      first <= y <= last && t == DateWindow(Ordinal(y, m, 1), Ordinal(y, m, 1) + DaysOf(y, m) - 1, false)
  }

  lemma {:induction false} YearsFromAre(first: Year, last: int, w: DateWindow)
    requires w in YearsFrom(first, last)
    ensures exists y: Year :: first <= y <= last && w == YearWindow(y)
    decreases last - first
  {
    hide YearWindow;
    if w != YearWindow(first) {
      YearsFromAre(first + 1, last, w);
    }
  }

  lemma {:induction false} MonthsFromAre(y: Year, m: MonthOrEnd, w: DateWindow)
    requires w in MonthsFrom(y, m)
    ensures exists k: Month :: w == MonthWindow(y, k)
    decreases 13 - m
  {
    hide MonthWindow;
    if w != MonthWindow(y, m) {
      MonthsFromAre(y, m + 1, w);
    }
  }

  /** Main result: an enumeration of years names nothing as truncated but months of theirs with more pages than
      the cap; a year over the cap never is, because its months are read instead. */
  lemma OnlyMonthsAreTruncated(server: ChangeServer, first: int, last: int, t: DateWindow)
    requires YearWindows(first, last).Ok? && AllYearly(YearWindows(first, last).value)
    requires t in SaturatedOf(server, ReadForAll(server, YearWindows(first, last).value))
    ensures IsMonth(t, first, last) && |server.pages(t.start, t.end)| > MAX_DISCOVER_PAGES
  {
    hide Ordinal, YearsFrom, MonthsFrom, ReadFor, ReadForAll, SaturatedOf, DaysOf, MonthWindow, YearOf, YearWindow;
    var ws := YearWindows(first, last).value;
    SaturatedOfMember(server, ReadForAll(server, ws), t);
    ReadForAllMember(server, ws, t);
    var i :| 0 <= i < |ws| && t in ReadFor(server, ws[i]);
    YearsFromAre(first, last, ws[i]);
    var y: Year :| first <= y <= last && ws[i] == YearWindow(y);
    YearIsRead(server, y);
    MonthsFromAre(y, 1, t);
    var m: Month :| t == MonthWindow(y, m);
    MonthIs(y, m);
  }

  /** A year that is over the cap is read by its months. */
  lemma YearIsRead(server: ChangeServer, y: Year)
    ensures YearWindow(y).start >= 1
    ensures forall t | t in ReadFor(server, YearWindow(y)) && Saturated(server, t) :: t in MonthsFrom(y, 1)
  {
    hide Ordinal, MonthsFrom, Saturated, YearOf;
    YearsInOrder(1, y);
    assert Ordinal(1, 1, 1) == 1 by {
      FirstDay();
    }
    YearsAreAdjacent(y);
    YearIsUnique(y, Ordinal(y, 1, 1));
  }

  lemma MonthIs(y: Year, m: Month)
    ensures MonthWindow(y, m) == DateWindow(Ordinal(y, m, 1), Ordinal(y, m, 1) + DaysOf(y, m) - 1, false)
  {
    hide Ordinal, NextMonth, DaysOf;
    MonthLength(y, m);
  }
}
