/** The `/changes` lane over time: every run plans from the stored watermark, walks the planned
    windows in order, and advances the watermark to exactly what was covered. */
module ChangeWatermark {
  import opened Common
  import opened ChangeWindows
  import opened ChangeWalk

  /** What becomes of one id that is fetched again: written, gone from the source, not fetched, or
      fetched and rejected by the writer. */
  datatype Hydration = Written | Gone | FetchError | WriteError

  /** One run. Everything may differ from run to run: the day, the answers of the server, the planned
      window whose pages cannot be fetched (if the run gets that far), the ids the catalog holds, and
      what becomes of each of them. */
  datatype Run = Run(today: int, server: ChangeServer, failAt: nat, catalog: set<Id>, hydrate: Id -> Hydration)

  /** What walking the planned windows leaves: the watermark, the ids that were reported as changed, the
      ones that were written, and how many could not be. */
  datatype Progress = Progress(mark: Option<int>, read: seq<Id>, written: seq<Id>, writeErrors: nat)

  function Catalogued(run: Run, ids: seq<Id>): seq<Id> {
    Filter(ids, id => id in run.catalog)
  }

  function Outcomes(run: Run, ids: seq<Id>, outcome: Hydration): seq<Id> {
    Filter(ids, id => run.hydrate(id) == outcome)
  }

  /** Walking the planned windows from number `i` on. A window of which some item cannot be fetched is
      not marked as covered; an item that cannot be written is only counted. */
  function WalkPlanned(run: Run, ws: seq<DateWindow>, i: nat, mark: Option<int>): Progress
    decreases |ws| - i
  {
    if i >= |ws| || i == run.failAt then Progress(mark, [], [], 0)
    else
      var feed := FeedOf(run.server, ws[i]);
      if Outcomes(run, Catalogued(run, feed.ids), FetchError) != [] || feed.coveredThrough.None? then
        Done(run, feed.ids, Progress(mark, [], [], 0))
      else if feed.coveredThrough.value < ws[i].end then
        Done(run, feed.ids, Progress(feed.coveredThrough, [], [], 0))
      else Done(run, feed.ids, WalkPlanned(run, ws, i + 1, feed.coveredThrough))
  }

  /** What is left to do, after one window that reported `ids`. */
  function Done(run: Run, ids: seq<Id>, rest: Progress): Progress {
    var refresh := Catalogued(run, ids);
    Progress(rest.mark, ids + rest.read, Outcomes(run, refresh, Written) + rest.written,
             |Outcomes(run, refresh, WriteError)| + rest.writeErrors)
  }

  function PlanOf(since: Option<int>, run: Run): ChangesPlan {
    PlanChangeWindows(since, run.today, MAX_CHANGES_WINDOW_DAYS, MAX_CHANGES_WINDOW_DAYS).value
  }

  function RunLane(since: Option<int>, run: Run): Progress {
    WalkPlanned(run, PlanOf(since, run).windows, 0, since)
  }

  /** Fetching and writing a list of ids: what was written, and how many were not fetched or not written. */
  method HydrateIds(run: Run, ids: seq<Id>) returns (written: seq<Id>, fetchErrors: nat, writeErrors: nat)
    ensures written == Outcomes(run, ids, Written)
    ensures fetchErrors == |Outcomes(run, ids, FetchError)| && writeErrors == |Outcomes(run, ids, WriteError)|
  {
    hide Outcomes;
    written, fetchErrors, writeErrors := [], 0, 0;
    NoOutcomes(run);
    assert ids[..0] == [];
    for i := 0 to |ids|
      invariant written == Outcomes(run, ids[..i], Written)
      invariant fetchErrors == |Outcomes(run, ids[..i], FetchError)|
        && writeErrors == |Outcomes(run, ids[..i], WriteError)|
    {
      assert ids[..i + 1] == ids[..i] + [ids[i]];
      OneMoreOutcome(run, ids[..i], ids[i]);
      match run.hydrate(ids[i])
      case Written => written := written + [ids[i]];
      case Gone =>
      case FetchError => fetchErrors := fetchErrors + 1;
      case WriteError => writeErrors := writeErrors + 1;
    }
    assert ids[..|ids|] == ids;
  }

  lemma NoOutcomes(run: Run)
    ensures forall outcome :: Outcomes(run, [], outcome) == []
  {
  }

  lemma OneMoreOutcome(run: Run, ids: seq<Id>, id: Id)
    ensures forall outcome ::
      Outcomes(run, ids + [id], outcome)
        == Outcomes(run, ids, outcome) + if run.hydrate(id) == outcome then [id] else []
  {
    hide Filter;
    forall outcome
      ensures Outcomes(run, ids + [id], outcome)
        == Outcomes(run, ids, outcome) + if run.hydrate(id) == outcome then [id] else []
    {
      var p := (x: Id) => run.hydrate(x) == outcome;
      FilterConcat(ids, [id], p);
      FilterStep([id], p);
      assert [id][1..] == [];
      NothingFiltered(p);
    }
  }

  lemma NothingFiltered(p: Id -> bool)
    ensures Filter([], p) == []
  {
  }

  /** The lane as it runs: the windows in order, a commit of the watermark after each one, and a stop
      at the first window that fails or is not covered to its end. */
  class Watermark {
    var mark: Option<int>

    constructor (first: Option<int>)
      ensures mark == first
    {
      mark := first;
    }

    method IncrementalChanges(run: Run) returns (read: seq<Id>, written: seq<Id>, writeErrors: nat)
      modifies this
      ensures Progress(mark, read, written, writeErrors) == RunLane(old(mark), run)
    {
      read, written, writeErrors := WalkWindows(run, PlanOf(mark, run).windows);
    }

    method WalkWindows(run: Run, ws: seq<DateWindow>) returns (read: seq<Id>, written: seq<Id>, writeErrors: nat)
      modifies this
      ensures Progress(mark, read, written, writeErrors) == WalkPlanned(run, ws, 0, old(mark))
    {
      hide *;
      read, written, writeErrors := [], [], 0;
      var i := 0;
      ghost var whole := WalkPlanned(run, ws, 0, mark);
      ResumeNothing(whole);
      while i < |ws| && i != run.failAt
        invariant 0 <= i <= |ws|
        invariant whole == Resume(read, written, writeErrors, WalkPlanned(run, ws, i, mark))
      {
        WalkPlannedStep(run, ws, i, mark);
        var feed, _ := FetchChangeIds(run.server, ws[i]);
        var fetched, fetchErrors, rejected := HydrateIds(run, Catalogued(run, feed.ids));
        ResumeDone(run, feed.ids, read, written, writeErrors, AfterWindow(run, ws, i, mark));
        read, written, writeErrors := read + feed.ids, written + fetched, writeErrors + rejected;
        if fetchErrors > 0 || feed.coveredThrough.None? {
          ResumeEnd(read, written, writeErrors, mark);
          return;
        }
        mark := feed.coveredThrough;
        if feed.coveredThrough.value < ws[i].end {
          ResumeEnd(read, written, writeErrors, mark);
          return;
        }
        i := i + 1;
      }
      WalkPlannedEnd(run, ws, i, mark);
      ResumeEnd(read, written, writeErrors, mark);
    }
  }

  /** What follows window number `i` of the walk. */
  function AfterWindow(run: Run, ws: seq<DateWindow>, i: nat, mark: Option<int>): Progress
    requires i < |ws|
  {
    var feed := FeedOf(run.server, ws[i]);
    if Outcomes(run, Catalogued(run, feed.ids), FetchError) != [] || feed.coveredThrough.None? then
      Progress(mark, [], [], 0)
    else if feed.coveredThrough.value < ws[i].end then Progress(feed.coveredThrough, [], [], 0)
    else WalkPlanned(run, ws, i + 1, feed.coveredThrough)
  }

  lemma WalkPlannedStep(run: Run, ws: seq<DateWindow>, i: nat, mark: Option<int>)
    requires i < |ws| && i != run.failAt
    ensures var feed := FeedOf(run.server, ws[i]);
      var fetchErrors := Outcomes(run, Catalogued(run, feed.ids), FetchError);
      && WalkPlanned(run, ws, i, mark) == Done(run, feed.ids, AfterWindow(run, ws, i, mark))
      && (|fetchErrors| > 0 || feed.coveredThrough.None? ==> AfterWindow(run, ws, i, mark) == Progress(mark, [], [], 0))
      && (|fetchErrors| == 0 && feed.coveredThrough.Some? ==>
        AfterWindow(run, ws, i, mark) ==
          if feed.coveredThrough.value < ws[i].end then Progress(feed.coveredThrough, [], [], 0)
          else WalkPlanned(run, ws, i + 1, feed.coveredThrough))
  {
    hide FeedOf, Outcomes, Catalogued, Done;
  }

  lemma WalkPlannedEnd(run: Run, ws: seq<DateWindow>, i: nat, mark: Option<int>)
    requires i >= |ws| || i == run.failAt
    ensures WalkPlanned(run, ws, i, mark) == Progress(mark, [], [], 0)
  {
  }

  lemma ResumeNothing(rest: Progress)
    ensures Resume([], [], 0, rest) == rest
  {
  }

  lemma ResumeEnd(read: seq<Id>, written: seq<Id>, writeErrors: nat, mark: Option<int>)
    ensures Resume(read, written, writeErrors, Progress(mark, [], [], 0)) == Progress(mark, read, written, writeErrors)
  {
  }

  /** The progress of a walk that has already got this far. */
  function Resume(read: seq<Id>, written: seq<Id>, writeErrors: nat, rest: Progress): Progress {
    Progress(rest.mark, read + rest.read, written + rest.written, writeErrors + rest.writeErrors)
  }

  lemma ResumeDone(run: Run, ids: seq<Id>, read: seq<Id>, written: seq<Id>, writeErrors: nat, rest: Progress)
    ensures var refresh := Catalogued(run, ids);
      Resume(read, written, writeErrors, Done(run, ids, rest)) ==
        Resume(read + ids, written + Outcomes(run, refresh, Written),
               writeErrors + |Outcomes(run, refresh, WriteError)|, rest)
  {
    hide Catalogued, Outcomes;
    var more := Outcomes(run, Catalogued(run, ids), Written);
    assert read + (ids + rest.read) == read + ids + rest.read;
    assert written + (more + rest.written) == written + more + rest.written;
  }

  // ---- what a claimed day means

  /** Everything the server holds for the day was read, and of it everything the catalog holds was
      fetched, and written unless it was gone or the writer rejected it. */
  ghost predicate ReadWhole(run: Run, day: int, r: Progress) {
    forall id | id in run.server.held(day) :: IsSettled(run, id, r)
  }

  ghost predicate IsSettled(run: Run, id: Id, r: Progress) {
    && id in r.read
    && (id in run.catalog ==> run.hydrate(id) != FetchError && (run.hydrate(id) == Written ==> id in r.written))
  }

  lemma SettledByWindow(run: Run, ids: seq<Id>, rest: Progress, id: Id)
    ensures id in ids && Outcomes(run, Catalogued(run, ids), FetchError) == [] ==>
      IsSettled(run, id, Done(run, ids, rest))
    ensures IsSettled(run, id, rest) ==> IsSettled(run, id, Done(run, ids, rest))
  {
    hide Filter;
    var refresh := Catalogued(run, ids);
    FilterMembers(ids, id => id in run.catalog);
    FilterMembers(refresh, id => run.hydrate(id) == FetchError);
    FilterMembers(refresh, id => run.hydrate(id) == Written);
  }

  /** Walking adjacent windows: the mark never goes back, stays inside, and every day the walk claims
      was read whole. */
  lemma {:induction false} WalkPlannedCovers(run: Run, ws: seq<DateWindow>, i: nat, mark: Option<int>,
                                             start: int, end: int, day: int)
    requires i <= |ws| && Honest(run.server) && Tiles(ws[i..], start, end) && forall w | w in ws :: Regular(w)
    requires start <= end + 1
    ensures var r := WalkPlanned(run, ws, i, mark);
      && (r.mark == mark || (r.mark.Some? && start <= r.mark.value <= end))
      && (r.mark != mark && start <= day <= r.mark.value ==> ReadWhole(run, day, r))
    decreases |ws| - i
  {
    hide Catalogued, Outcomes, FeedOf, IsSettled, Done, Regular, Honest;
    if i < |ws| && i != run.failAt {
      var w, feed := ws[i], FeedOf(run.server, ws[i]);
      assert ws[i..][0] == w && ws[i..][1..] == ws[i + 1..];
      CoveredIsInside(run.server, w);
      if feed.coveredThrough.Some? && Outcomes(run, Catalogued(run, feed.ids), FetchError) == [] {
        var rest := if feed.coveredThrough.value < w.end then Progress(feed.coveredThrough, [], [], 0)
          else WalkPlanned(run, ws, i + 1, feed.coveredThrough);
        DoneMark(run, feed.ids, rest);
        if w.start <= day <= feed.coveredThrough.value {
          WindowSettles(run, w, rest, day);
        }
        if feed.coveredThrough.value == w.end {
          WalkPlannedCovers(run, ws, i + 1, feed.coveredThrough, w.end + 1, end, day);
          SettledLater(run, feed.ids, rest, day);
        }
      } else {
        DoneMark(run, feed.ids, Progress(mark, [], [], 0));
      }
    }
  }

  lemma DoneMark(run: Run, ids: seq<Id>, rest: Progress)
    ensures Done(run, ids, rest).mark == rest.mark
  {
  }

  lemma WindowSettles(run: Run, w: DateWindow, rest: Progress, day: int)
    requires Honest(run.server) && Regular(w)
    requires var feed := FeedOf(run.server, w);
      && Outcomes(run, Catalogued(run, feed.ids), FetchError) == []
      && feed.coveredThrough.Some? && w.start <= day <= feed.coveredThrough.value
    ensures ReadWhole(run, day, Done(run, FeedOf(run.server, w).ids, rest))
  {
    hide Catalogued, Outcomes, FeedOf, IsSettled, Done, Honest;
    forall id | id in run.server.held(day)
      ensures IsSettled(run, id, Done(run, FeedOf(run.server, w).ids, rest))
    {
      CoveredThroughIsSound(run.server, w, day, id);
      SettledByWindow(run, FeedOf(run.server, w).ids, rest, id);
    }
  }

  lemma SettledLater(run: Run, ids: seq<Id>, rest: Progress, day: int)
    ensures ReadWhole(run, day, rest) ==> ReadWhole(run, day, Done(run, ids, rest))
  {
    hide Catalogued, Outcomes, IsSettled, Done;
    forall id | id in run.server.held(day) && IsSettled(run, id, rest)
      ensures IsSettled(run, id, Done(run, ids, rest))
    {
      SettledByWindow(run, ids, rest, id);
    }
  }

  lemma CoveredIsInside(server: ChangeServer, w: DateWindow)
    requires Regular(w)
    ensures var covered := FeedOf(server, w).coveredThrough;
      covered.Some? ==> w.start <= covered.value <= w.end
  {
    if SaturatedOf(server, Leaves(server, w)) != [] {
      FirstSaturatedIsInside(server, w);
    }
  }

  ghost predicate Reported(since: Option<int>, run: Run, day: int) {
    PlanOf(since, run).ReportsUncovered(day)
  }

  /** One run: the watermark never moves back nor past today, and a day it newly claims was read
      whole, or is reported as uncovered. The old watermark day is read again while it is retained. */
  lemma RunLaneCovers(since: Option<int>, run: Run, day: int)
    requires Honest(run.server)
    requires since.Some? ==> since.value <= day
    requires since.None? ==> Earliest(run.today, MAX_CHANGES_WINDOW_DAYS) <= day
    ensures var r := RunLane(since, run);
      && (since.Some? ==> r.mark.Some? && since.value <= r.mark.value)
      && (r.mark != since ==> r.mark.Some? && r.mark.value <= run.today)
      && (r.mark != since && day <= r.mark.value
            && (since == Some(day) ==> Earliest(run.today, MAX_CHANGES_WINDOW_DAYS) <= day) ==>
            Reported(since, run, day) || ReadWhole(run, day, r))
  {
    hide PlanOf, Honest, Tiles, ReadWhole, Reported, WalkPlanned, Regular;
    var plan := PlanOf(since, run);
    var earliest := Earliest(run.today, MAX_CHANGES_WINDOW_DAYS);
    var first := if since.None? then earliest else Max(since.value, earliest);
    if plan.windows == [] {
      WalkPlannedEnd(run, plan.windows, 0, since);
    } else {
      PlannedWindows(since, run, day);
      assert plan.windows[0..] == plan.windows;
      WalkPlannedCovers(run, plan.windows, 0, since, first, run.today, day);
    }
  }

  /** The windows of a plan: they tile the days from the first retained one on, and a day between the
      watermark and them is reported. */
  lemma PlannedWindows(since: Option<int>, run: Run, day: int)
    requires PlanOf(since, run).windows != []
    ensures var plan, earliest := PlanOf(since, run), Earliest(run.today, MAX_CHANGES_WINDOW_DAYS);
      var first := if since.None? then earliest else Max(since.value, earliest);
      && Tiles(plan.windows, first, run.today) && first <= run.today + 1
      && (forall w | w in plan.windows :: Regular(w))
      && (since.Some? && since.value < day < first && day <= run.today ==> Reported(since, run, day))
  {
    hide PlanChangeWindows;
    PlanIsHonest(since, run.today, MAX_CHANGES_WINDOW_DAYS, MAX_CHANGES_WINDOW_DAYS);
    var plan, earliest := PlanOf(since, run), Earliest(run.today, MAX_CHANGES_WINDOW_DAYS);
    var first := if since.None? then earliest else Max(since.value, earliest);
    forall w | w in plan.windows
      ensures Regular(w)
    {
      var i :| 0 <= i < |plan.windows| && plan.windows[i] == w;
    }
    TilesCoverOnce(plan.windows, first, run.today);
  }

  // ---- histories of runs

  /** The watermark before run `n` of a history. */
  function MarkBefore(first: Option<int>, runs: seq<Run>, n: nat): Option<int>
    requires n <= |runs|
  {
    if n == 0 then first else RunLane(MarkBefore(first, runs, n - 1), runs[n - 1]).mark
  }

  /** Run `n` read every id its server held for `day`, and fetched those the catalog holds. */
  ghost predicate ReadBy(first: Option<int>, runs: seq<Run>, n: nat, day: int)
    requires n < |runs|
  {
    ReadWhole(runs[n], day, RunLane(MarkBefore(first, runs, n), runs[n]))
  }

  ghost predicate ReportedBy(first: Option<int>, runs: seq<Run>, n: nat, day: int)
    requires n < |runs|
  {
    Reported(MarkBefore(first, runs, n), runs[n], day)
  }

  /** Run `n` moved the watermark off `day` at a time when `day` was no longer retained. */
  ghost predicate LeftBehind(first: Option<int>, runs: seq<Run>, n: nat, day: int)
    requires n < |runs|
  {
    && MarkBefore(first, runs, n) == Some(day)
    && MarkBefore(first, runs, n + 1) != Some(day)
    && day < Earliest(runs[n].today, MAX_CHANGES_WINDOW_DAYS)
  }

  /** A day is in scope of a history if it is after the first watermark, or, where there was none, not
      before the retention of the run that set one. */
  ghost predicate InScope(first: Option<int>, runs: seq<Run>, n: nat, day: int)
    requires n <= |runs|
  {
    if first.Some? then first.value < day
    else exists k | 0 <= k < n :: SetsFirst(first, runs, k, day)
  }

  ghost predicate SetsFirst(first: Option<int>, runs: seq<Run>, k: nat, day: int)
    requires k < |runs|
  {
    && MarkBefore(first, runs, k).None? && MarkBefore(first, runs, k + 1).Some?
    && Earliest(runs[k].today, MAX_CHANGES_WINDOW_DAYS) <= day
  }

  /** Main result, safety over every history, with or without a watermark to begin with: each day in
      scope and up to the current watermark was read whole by some run, or some run reported it as
      uncovered. */
  lemma {:induction false} EveryDayIsReadOrReported(first: Option<int>, runs: seq<Run>, n: nat, day: int)
    requires n <= |runs| && forall run | run in runs :: Honest(run.server)
    ensures var mark := MarkBefore(first, runs, n);
      && (first.Some? ==> mark.Some? && first.value <= mark.value)
      && (mark.Some? && InScope(first, runs, n, day) && day <= mark.value ==>
            exists i | 0 <= i < n :: ReadBy(first, runs, i, day) || ReportedBy(first, runs, i, day))
  {
    hide RunLane, PlanOf, Reported, ReadWhole;
    if n > 0 {
      EveryDayIsReadOrReported(first, runs, n - 1, day);
      var before, after := MarkBefore(first, runs, n - 1), MarkBefore(first, runs, n);
      assert runs[n - 1] in runs;
      if before.Some? {
        RunLaneCovers(before, runs[n - 1], Max(day, before.value));
        if InScope(first, runs, n, day) && before.value < day <= after.value {
          assert ReadBy(first, runs, n - 1, day) || ReportedBy(first, runs, n - 1, day);
        }
        if InScope(first, runs, n, day) && day <= before.value {
          assert first.None? ==> !SetsFirst(first, runs, n - 1, day);
          assert InScope(first, runs, n - 1, day);
        }
      } else if InScope(first, runs, n, day) && after.Some? && day <= after.value {
        NoMarkYet(first, runs, n - 1, day);
        RunLaneCovers(before, runs[n - 1], day);
        assert ReadBy(first, runs, n - 1, day) || ReportedBy(first, runs, n - 1, day);
      }
    }
  }

  /** Where there is no watermark, none was set before. */
  lemma {:induction false} NoMarkYet(first: Option<int>, runs: seq<Run>, n: nat, day: int)
    requires n <= |runs| && (forall run | run in runs :: Honest(run.server)) && MarkBefore(first, runs, n).None?
    ensures forall k | 0 <= k <= n :: MarkBefore(first, runs, k).None?
  {
    hide RunLane;
    if n > 0 {
      var before := MarkBefore(first, runs, n - 1);
      assert runs[n - 1] in runs;
      if before.Some? {
        RunLaneCovers(before, runs[n - 1], before.value);
      }
      NoMarkYet(first, runs, n - 1, day);
    }
  }

  /** Run `i` moved the watermark past a day. */
  ghost predicate Passes(first: int, runs: seq<Run>, i: nat, day: int)
    requires i < |runs|
  {
    var before, after := MarkBefore(Some(first), runs, i), MarkBefore(Some(first), runs, i + 1);
    before.Some? && after.Some? && before.value <= day < after.value
  }

  lemma {:induction false} MarksGrow(first: int, runs: seq<Run>, i: nat, n: nat)
    requires i <= n <= |runs| && forall run | run in runs :: Honest(run.server)
    ensures var before, after := MarkBefore(Some(first), runs, i), MarkBefore(Some(first), runs, n);
      before.Some? && after.Some? && first <= before.value <= after.value
    decreases n
  {
    hide RunLane;
    if n > 0 {
      var last := MarkBefore(Some(first), runs, n - 1);
      assert runs[n - 1] in runs;
      MarksGrow(first, runs, if i < n then i else n - 1, n - 1);
      RunLaneCovers(last, runs[n - 1], last.value);
    }
  }

  /** Main result on late changes, exactly: each day from the first watermark on and strictly before the
      current one was passed by one run and no other. That run came on a later day, when the changes of
      the day were complete, and it read the day whole or reported it, unless the day was its own old
      watermark and no longer retained; if and only if so, it neither asked for it nor reported it. */
  lemma {:induction false} EveryPastDayIsSettled(first: int, runs: seq<Run>, n: nat, day: int) returns (i: nat)
    requires n <= |runs| && (forall run | run in runs :: Honest(run.server))
    requires first <= day && MarkBefore(Some(first), runs, n).Some? && day < MarkBefore(Some(first), runs, n).value
    ensures i < n && Passes(first, runs, i, day) && day < runs[i].today
    ensures forall j | 0 <= j < n && Passes(first, runs, j, day) :: j == i
    ensures LeftBehind(Some(first), runs, i, day) <==>
      !ReportedBy(Some(first), runs, i, day) && !Requested(PlanOf(MarkBefore(Some(first), runs, i), runs[i]), day)
    ensures !LeftBehind(Some(first), runs, i, day) ==>
      ReadBy(Some(first), runs, i, day) || ReportedBy(Some(first), runs, i, day)
  {
    hide RunLane, PlanOf, ReadWhole, Reported, Requested;
    assert MarkBefore(Some(first), runs, 0) == Some(first);
    var before, after := MarkBefore(Some(first), runs, n - 1), MarkBefore(Some(first), runs, n);
    MarksGrow(first, runs, n - 1, n);
    if before.value <= day {
      i := n - 1;
      assert runs[i] in runs;
      RunLaneCovers(before, runs[i], day);
      PassingAsks(before.value, runs[i], day);
      forall j | 0 <= j < n && Passes(first, runs, j, day)
        ensures j == i
      {
        MarksGrow(first, runs, j + 1, if j < i then i else n);
      }
    } else {
      i := EveryPastDayIsSettled(first, runs, n - 1, day);
      MarksGrow(first, runs, n - 1, n - 1);
    }
  }

  /** What a run plans for a day it passes. */
  lemma PassingAsks(since: int, run: Run, day: int)
    requires since <= day < run.today
    ensures since == day && day < Earliest(run.today, MAX_CHANGES_WINDOW_DAYS) <==>
      !Reported(Some(since), run, day) && !Requested(PlanOf(Some(since), run), day)
  {
    PlanIsHonest(Some(since), run.today, MAX_CHANGES_WINDOW_DAYS, MAX_CHANGES_WINDOW_DAYS);
  }

  /** A day left behind is silent: the run that leaves it neither asks for it nor reports it. */
  lemma LeftBehindIsSilent(first: Option<int>, runs: seq<Run>, n: nat, day: int)
    requires n < |runs| && LeftBehind(first, runs, n, day)
    ensures !ReportedBy(first, runs, n, day)
    ensures !Requested(PlanOf(MarkBefore(first, runs, n), runs[n]), day)
  {
    PlanIsHonest(Some(day), runs[n].today, MAX_CHANGES_WINDOW_DAYS, MAX_CHANGES_WINDOW_DAYS);
  }

  /** The exact condition, run by run: a run that moves the watermark off a day asks for that day again
      if and only if the day is still retained, and then reads it whole; it never reports it. */
  lemma AskedAgainExactlyWhenRetained(since: int, run: Run)
    requires Honest(run.server) && RunLane(Some(since), run).mark != Some(since)
    ensures Requested(PlanOf(Some(since), run), since) <==> Earliest(run.today, MAX_CHANGES_WINDOW_DAYS) <= since
    ensures Earliest(run.today, MAX_CHANGES_WINDOW_DAYS) <= since ==> ReadWhole(run, since, RunLane(Some(since), run))
    ensures !Reported(Some(since), run, since)
  {
    hide WalkPlanned, ReadWhole;
    PlanIsHonest(Some(since), run.today, MAX_CHANGES_WINDOW_DAYS, MAX_CHANGES_WINDOW_DAYS);
    WalkPlannedNowhere(run, Some(since));
    RunLaneCovers(Some(since), run, since);
  }

  lemma WalkPlannedNowhere(run: Run, mark: Option<int>)
    ensures WalkPlanned(run, [], 0, mark).mark == mark
  {
  }

  // ---- a change that is lost

  /** A server that holds one id, for one day. */
  function OneIdServer(day: int, id: Id): ChangeServer {
    ChangeServer(d => if d == day then {id} else {}, (start, end) => if start <= day <= end then [[Some(id)]] else [])
  }

  function QuietServer(): ChangeServer {
    ChangeServer(d => {}, (start, end) => [])
  }

  lemma OneIdIsHonest(day: int, id: Id)
    ensures Honest(OneIdServer(day, id)) && Honest(QuietServer())
  {
    var server := OneIdServer(day, id);
    var page: seq<Option<Id>> := [Some(id)];
    forall start, end, x
      ensures Some(x) in Flatten(server.pages(start, end)) <==> Holds(server, start, end, x)
    {
      FlattenMembers(server.pages(start, end));
      if start <= day <= end {
        assert server.pages(start, end)[0] == page;
        assert x == id ==> x in server.held(day) && Some(x) in server.pages(start, end)[0];
      }
    }
  }

  /** A server with at most one page per window covers every window, and reports only what it holds. */
  lemma SmallServerCovers(server: ChangeServer, w: DateWindow)
    requires !Saturated(server, w)
    ensures FeedOf(server, w).coveredThrough == Some(w.end)
  {
    assert Leaves(server, w) == [w];
    OneLeaf(server, w);
  }

  /** A run over one planned window of a server that is never over the cap. */
  lemma OneWindowRun(run: Run, w: DateWindow, mark: Option<int>)
    requires !Saturated(run.server, w) && run.failAt > 0 && forall id :: run.hydrate(id) == Written
    ensures WalkPlanned(run, [w], 0, mark).mark == Some(w.end)
    ensures WalkPlanned(run, [w], 0, mark).read == FeedOf(run.server, w).ids
  {
    hide FeedOf, Saturated, Catalogued;
    SmallServerCovers(run.server, w);
    WalkPlannedStep(run, [w], 0, mark);
    WalkPlannedEnd(run, [w], 1, Some(w.end));
    var ids := FeedOf(run.server, w).ids;
    FilterMembers(Catalogued(run, ids), id => run.hydrate(id) == FetchError);
    NonEmptyHas(Outcomes(run, Catalogued(run, ids), FetchError));
    assert ids + [] == ids;
  }

  lemma OneWindowPlan(since: int, today: int)
    requires today - 13 <= Max(since, today - 13) <= today && since <= today
    ensures PlanChangeWindows(Some(since), today, MAX_CHANGES_WINDOW_DAYS, MAX_CHANGES_WINDOW_DAYS).Ok?
    ensures PlanChangeWindows(Some(since), today, MAX_CHANGES_WINDOW_DAYS, MAX_CHANGES_WINDOW_DAYS).value.windows
         == [ChangeWindow(Max(since, today - 13), today)]
  {
    var first := Max(since, today - 13);
    assert WindowTiling(today + 1, today, MAX_CHANGES_WINDOW_DAYS) == [];
    assert WindowTiling(first, today, MAX_CHANGES_WINDOW_DAYS) == [ChangeWindow(first, today)];
  }

  /** A day left behind can lose a change for good: the id changes on the afternoon of the day the first
      run covers, the next run comes twenty days later, and although the watermark passes the day, no
      run reads the id and none reports the day. */
  lemma LateChangesAreLost(day: int, id: Id) returns (runs: seq<Run>)
    ensures |runs| == 2 && (forall run | run in runs :: Honest(run.server))
    ensures MarkBefore(Some(day - 1), runs, 1) == Some(day) && LeftBehind(Some(day - 1), runs, 1, day)
    ensures MarkBefore(Some(day - 1), runs, 2) == Some(day + 20)
    ensures id in runs[1].server.held(day) && id in runs[1].catalog
    ensures forall i | 0 <= i < 2 ::
      id !in RunLane(MarkBefore(Some(day - 1), runs, i), runs[i]).read && !ReportedBy(Some(day - 1), runs, i, day)
  {
    hide RunLane, Honest, Reported;
    var morning := Run(day, QuietServer(), 1, {id}, x => Written);
    var later := Run(day + 20, OneIdServer(day, id), 1, {id}, x => Written);
    runs := [morning, later];
    OneIdIsHonest(day, id);
    MorningRun(morning, day, id);
    LaterRun(later, day, id);
    assert MarkBefore(Some(day - 1), runs, 0) == Some(day - 1);
    assert MarkBefore(Some(day - 1), runs, 1) == RunLane(Some(day - 1), morning).mark;
    assert MarkBefore(Some(day - 1), runs, 2) == RunLane(Some(day), later).mark;
  }

  lemma MorningRun(run: Run, day: int, id: Id)
    requires run.today == day && run.server == QuietServer() && run.failAt > 0 && forall x :: run.hydrate(x) == Written
    ensures RunLane(Some(day - 1), run).mark == Some(day) && id !in RunLane(Some(day - 1), run).read
    ensures !Reported(Some(day - 1), run, day)
  {
    hide FeedOf, WalkPlanned;
    OneWindowPlan(day - 1, day);
    PlanIsHonest(Some(day - 1), day, MAX_CHANGES_WINDOW_DAYS, MAX_CHANGES_WINDOW_DAYS);
    var w := ChangeWindow(day - 1, day);
    OneWindowRun(run, w, Some(day - 1));
    OneIdIsHonest(day, id);
    if id in FeedOf(run.server, w).ids {
      FeedIdsAreHeld(run.server, w, id);
    }
  }

  lemma LaterRun(run: Run, day: int, id: Id)
    requires run.today == day + 20 && run.server == OneIdServer(day, id) && run.failAt > 0
    requires forall x :: run.hydrate(x) == Written
    ensures RunLane(Some(day), run).mark == Some(day + 20) && id !in RunLane(Some(day), run).read
    ensures !Reported(Some(day), run, day)
  {
    hide FeedOf, WalkPlanned;
    OneWindowPlan(day, day + 20);
    PlanIsHonest(Some(day), day + 20, MAX_CHANGES_WINDOW_DAYS, MAX_CHANGES_WINDOW_DAYS);
    var w := ChangeWindow(day + 7, day + 20);
    OneWindowRun(run, w, Some(day));
    OneIdIsHonest(day, id);
    if id in FeedOf(run.server, w).ids {
      FeedIdsAreHeld(run.server, w, id);
    }
  }

  // ---- what is written of a claimed day

  lemma {:induction false} WrittenExactly(run: Run, ws: seq<DateWindow>, i: nat, mark: Option<int>, id: Id)
    ensures var r := WalkPlanned(run, ws, i, mark);
      && (id in r.written ==> id in run.catalog && run.hydrate(id) == Written)
      && (id in r.read && id in run.catalog && run.hydrate(id) == Written ==> id in r.written)
      && (id in r.read && id in run.catalog && run.hydrate(id) == WriteError ==> r.writeErrors > 0)
    decreases |ws| - i
  {
    hide FeedOf, Catalogued, Outcomes, Done;
    if i < |ws| && i != run.failAt {
      WalkPlannedStep(run, ws, i, mark);
      var feed, rest := FeedOf(run.server, ws[i]), AfterWindow(run, ws, i, mark);
      DoneWrites(run, feed.ids, rest, id);
      if feed.coveredThrough.Some? {
        WrittenExactly(run, ws, i + 1, feed.coveredThrough, id);
      }
    }
  }

  lemma DoneWrites(run: Run, ids: seq<Id>, rest: Progress, id: Id)
    ensures var r := Done(run, ids, rest);
      && (id in r.written ==> id in rest.written || (id in run.catalog && run.hydrate(id) == Written))
      && (id in r.read && id in run.catalog && run.hydrate(id) == Written ==> id in rest.read || id in r.written)
      && (id in rest.written ==> id in r.written)
      && (id in r.read && id in run.catalog && run.hydrate(id) == WriteError ==> id in rest.read || r.writeErrors > 0)
      && r.writeErrors >= rest.writeErrors
  {
    hide Filter;
    var refresh := Catalogued(run, ids);
    FilterMembers(ids, x => x in run.catalog);
    FilterMembers(refresh, x => run.hydrate(x) == Written);
    FilterMembers(refresh, x => run.hydrate(x) == WriteError);
  }

  /** A run that counts a write error read an item that the writer rejected. */
  lemma {:induction false} ErrorsHaveItems(run: Run, ws: seq<DateWindow>, i: nat, mark: Option<int>)
    ensures var r := WalkPlanned(run, ws, i, mark);
      r.writeErrors > 0 ==> exists id | id in r.read :: id in run.catalog && run.hydrate(id) == WriteError
    decreases |ws| - i
  {
    hide FeedOf, Catalogued, Outcomes, Done;
    if i < |ws| && i != run.failAt {
      WalkPlannedStep(run, ws, i, mark);
      var feed, rest := FeedOf(run.server, ws[i]), AfterWindow(run, ws, i, mark);
      if feed.coveredThrough.Some? {
        ErrorsHaveItems(run, ws, i + 1, feed.coveredThrough);
      }
      DoneErrors(run, feed.ids, rest);
    }
  }

  lemma DoneErrors(run: Run, ids: seq<Id>, rest: Progress)
    ensures var r := Done(run, ids, rest);
      && (forall id | id in rest.read :: id in r.read)
      && (r.writeErrors > 0 ==>
            || rest.writeErrors > 0
            || exists id | id in r.read :: id in run.catalog && run.hydrate(id) == WriteError)
  {
    hide Filter;
    var refresh := Catalogued(run, ids);
    var rejected := Outcomes(run, refresh, WriteError);
    if rejected != [] {
      var id := rejected[0];
      FilterMembers(ids, x => x in run.catalog);
      FilterMembers(refresh, x => run.hydrate(x) == WriteError);
      assert id in rejected;
      assert id in Done(run, ids, rest).read;
    }
  }

  /** What the error count of a run tells: it is zero if and only if everything the run read that the
      catalog holds, and that could be fetched, was written or is gone from the source. */
  lemma WriteErrorsTellExactly(since: Option<int>, run: Run)
    ensures var r := RunLane(since, run);
      r.writeErrors == 0 <==>
        forall id | id in r.read && id in run.catalog && run.hydrate(id) != FetchError ::
          id in r.written || run.hydrate(id) == Gone
  {
    hide WalkPlanned;
    var r, windows := RunLane(since, run), PlanOf(since, run).windows;
    forall id: Id
      ensures id in r.written ==> run.hydrate(id) == Written
      ensures id in r.read && id in run.catalog && run.hydrate(id) == Written ==> id in r.written
      ensures id in r.read && id in run.catalog && run.hydrate(id) == WriteError ==> r.writeErrors > 0
    {
      WrittenExactly(run, windows, 0, since, id);
    }
    ErrorsHaveItems(run, windows, 0, since);
  }

  /** Main result on the items themselves. Of a day a run newly claims and does not report, everything
      the catalog holds is written or gone from the source if the error count of the run is zero; where
      the run read no other day, only if. The watermark moves over rejected items, which only that count
      shows. */
  lemma ClaimedItemsAreWrittenExactly(since: Option<int>, run: Run, day: int)
    requires Honest(run.server) && since.Some? && since.value < day
    requires var mark := RunLane(since, run).mark; mark != since && mark.Some? && day <= mark.value
    requires !Reported(since, run, day)
    ensures var r := RunLane(since, run);
      && (r.writeErrors == 0 ==> AllWritten(run, day, r))
      && ((forall id | id in r.read :: id in run.server.held(day)) ==>
            (r.writeErrors == 0 <==> AllWritten(run, day, r)))
      && (AllWritten(run, day, r) <==>
            forall id | id in run.server.held(day) && id in run.catalog :: run.hydrate(id) != WriteError)
  {
    hide WalkPlanned, Reported;
    RunLaneCovers(since, run, day);
    WriteErrorsTellExactly(since, run);
    var r := RunLane(since, run);
    forall id | id in run.server.held(day) && id in run.catalog
      ensures IsSettled(run, id, r)
      ensures id in r.written ==> run.hydrate(id) == Written
    {
      WrittenExactly(run, PlanOf(since, run).windows, 0, since, id);
    }
  }

  /** Everything the catalog holds of a day was written, or is gone from the source. */
  ghost predicate AllWritten(run: Run, day: int, r: Progress) {
    forall id | id in run.server.held(day) && id in run.catalog :: id in r.written || run.hydrate(id) == Gone
  }
}
