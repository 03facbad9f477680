/** Walking one `/changes` window: halve it until it fits the page cap, read the pages, and say
    how far the walk really saw everything. */
module ChangeWalk {
  import opened Common
  import opened ChangeWindows

  type Id = string

  /** A source of changes. `held` is what it holds for each day; `pages` is how it cuts a window
      into pages (a row without an id is `None`). Nothing is assumed about the order of the rows. */
  datatype ChangeServer = ChangeServer(held: int -> set<Id>, pages: (int, int) -> seq<seq<Option<Id>>>)

  ghost predicate Holds(server: ChangeServer, start: int, end: int, id: Id) {
    exists day | start <= day <= end :: id in server.held(day)
  }

  /** The pages of every window list exactly the ids the server holds for its days. */
  ghost predicate Honest(server: ChangeServer) {
    forall start, end, id ::
      Some(id) in Flatten(server.pages(start, end)) <==> Holds(server, start, end, id)
  }

  /** A missing or zero `total_pages` reads as one page. */
  function TotalPages(server: ChangeServer, w: DateWindow): nat {
    var n := |server.pages(w.start, w.end)|;
    if n == 0 then 1 else n
  }

  function Page(server: ChangeServer, w: DateWindow, page: nat): seq<Option<Id>> {
    var pages := server.pages(w.start, w.end);
    if 1 <= page <= |pages| then pages[page - 1] else []
  }

  function ChangeIds(rows: seq<Option<Id>>): seq<Id> {
    if rows == [] then [] else (if rows[0].Some? then [rows[0].value] else []) + ChangeIds(rows[1..])
  }

  predicate Saturated(server: ChangeServer, w: DateWindow) {
    TotalPages(server, w) > MAX_DISCOVER_PAGES
  }

  /** The sub-windows that are read, in the order they are read. */
  function Leaves(server: ChangeServer, w: DateWindow): seq<DateWindow>
    decreases w.end - w.start
  {
    if Saturated(server, w) && w.splittable then
      var halves := SplitChangeWindow(w);
      if halves == [] then [] else Leaves(server, halves[0]) + Leaves(server, halves[1])
    else [w]
  }

  /** How many pages of a sub-window are read. */
  function PagesRead(server: ChangeServer, w: DateWindow): nat {
    Min(TotalPages(server, w), MAX_DISCOVER_PAGES)
  }

  /** The ids on pages `1 .. n` of a window, in page order. */
  function IdsOfPages(server: ChangeServer, w: DateWindow, n: nat): seq<Id> {
    if n == 0 then [] else IdsOfPages(server, w, n - 1) + ChangeIds(Page(server, w, n))
  }

  function LeafIds(server: ChangeServer, leaves: seq<DateWindow>): seq<Id> {
    if leaves == [] then []
    else IdsOfPages(server, leaves[0], PagesRead(server, leaves[0])) + LeafIds(server, leaves[1..])
  }

  function SaturatedOf(server: ChangeServer, leaves: seq<DateWindow>): seq<DateWindow> {
    if leaves == [] then []
    else (if Saturated(server, leaves[0]) then [leaves[0]] else []) + SaturatedOf(server, leaves[1..])
  }

  datatype PageRequest = PageRequest(start: int, end: int, page: nat)

  /** The requests for pages `2 .. last` of a window. */
  function LeafRequests(w: DateWindow, last: nat): seq<PageRequest> {
    if last < 2 then [] else LeafRequests(w, last - 1) + [PageRequest(w.start, w.end, last)]
  }

  /** Every page asked for: page 1 of each window met, then the rest of the windows that are read. */
  function RequestsOf(server: ChangeServer, w: DateWindow): seq<PageRequest>
    decreases w.end - w.start
  {
    [PageRequest(w.start, w.end, 1)] +
    if Saturated(server, w) && w.splittable then
      var halves := SplitChangeWindow(w);
      if halves == [] then [] else RequestsOf(server, halves[0]) + RequestsOf(server, halves[1])
    else LeafRequests(w, PagesRead(server, w))
  }

  function FirstDay(known: Option<int>, saturated: seq<DateWindow>): Option<int> {
    if known.Some? || saturated == [] then known else Some(saturated[0].start)
  }

  /** The accumulator of one walk, with the requests it has made. `ids` lists the keys of an
      insertion-ordered dictionary. */
  datatype WalkState = WalkState(ids: seq<Id>, windows: nat, pages: nat, truncated: seq<DateWindow>,
                                 firstTruncatedDay: Option<int>, requests: seq<PageRequest>)

  /** The accumulator after reading the windows `leaves` with the requests `made`. */
  function AfterLeaves(server: ChangeServer, leaves: seq<DateWindow>, made: seq<PageRequest>,
                       st: WalkState): WalkState {
    var saturated := SaturatedOf(server, leaves);
    WalkState(MergeNew(st.ids, LeafIds(server, leaves)),
              st.windows + |leaves|,
              st.pages + |made|,
              st.truncated + saturated,
              FirstDay(st.firstTruncatedDay, saturated),
              st.requests + made)
  }

  function After(server: ChangeServer, w: DateWindow, st: WalkState): WalkState {
    AfterLeaves(server, Leaves(server, w), RequestsOf(server, w), st)
  }

  /** The accumulator after page 1 of `w` has been asked for. */
  function Probed(w: DateWindow, st: WalkState): WalkState {
    st.(pages := st.pages + 1, requests := st.requests + [PageRequest(w.start, w.end, 1)])
  }

  lemma AfterLeavesConcat(server: ChangeServer, a: seq<DateWindow>, b: seq<DateWindow>,
                          madeA: seq<PageRequest>, madeB: seq<PageRequest>, st: WalkState)
    ensures AfterLeaves(server, a + b, madeA + madeB, st)
         == AfterLeaves(server, b, madeB, AfterLeaves(server, a, madeA, st))
  {
    hide LeafIds, SaturatedOf, MergeNew;
    LeavesConcat(server, a, b);
    MergeNewConcat(st.ids, LeafIds(server, a), LeafIds(server, b));
    assert st.requests + (madeA + madeB) == st.requests + madeA + madeB;
  }

  lemma AfterProbe(server: ChangeServer, w: DateWindow, leaves: seq<DateWindow>, made: seq<PageRequest>, st: WalkState)
    ensures AfterLeaves(server, leaves, [PageRequest(w.start, w.end, 1)] + made, st)
         == AfterLeaves(server, leaves, made, Probed(w, st))
  {
    AfterLeavesConcat(server, [], leaves, [PageRequest(w.start, w.end, 1)], made, st);
    assert [] + leaves == leaves;
  }

  lemma AfterSplit(server: ChangeServer, w: DateWindow, st: WalkState)
    requires Saturated(server, w) && w.splittable
    ensures var halves := SplitChangeWindow(w);
      After(server, w, st) ==
      if halves == [] then Probed(w, st)
      else After(server, halves[1], After(server, halves[0], Probed(w, st)))
  {
    var halves := SplitChangeWindow(w);
    if halves == [] {
      AfterProbe(server, w, [], [], st);
    } else {
      var a, b := Leaves(server, halves[0]), Leaves(server, halves[1]);
      var madeA, madeB := RequestsOf(server, halves[0]), RequestsOf(server, halves[1]);
      AfterProbe(server, w, a + b, madeA + madeB, st);
      AfterLeavesConcat(server, a, b, madeA, madeB, Probed(w, st));
    }
  }

  lemma AfterRead(server: ChangeServer, w: DateWindow, st: WalkState)
    requires !(Saturated(server, w) && w.splittable)
    ensures After(server, w, st) == ReadWhole(server, w, Probed(w, st))
  {
    var made := LeafRequests(w, PagesRead(server, w));
    AfterProbe(server, w, [w], made, st);
    LeafRequestsCount(w, PagesRead(server, w));
    OneLeaf(server, w);
  }

  lemma OneLeaf(server: ChangeServer, w: DateWindow)
    ensures LeafIds(server, [w]) == IdsOfPages(server, w, PagesRead(server, w))
    ensures SaturatedOf(server, [w]) == if Saturated(server, w) then [w] else []
  {
    assert [w][1..] == [];
    var ids := IdsOfPages(server, w, PagesRead(server, w));
    assert ids + [] == ids;
  }

  /** A probed window is counted and its pages are read: the part of the walk that does not split. */
  function ReadWhole(server: ChangeServer, w: DateWindow, st: WalkState): WalkState {
    var n := PagesRead(server, w);
    var saturated := if Saturated(server, w) then [w] else [];
    WalkState(MergeNew(st.ids, IdsOfPages(server, w, n)), st.windows + 1, st.pages + (n - 1),
              st.truncated + saturated, FirstDay(st.firstTruncatedDay, saturated),
              st.requests + LeafRequests(w, n))
  }

  lemma {:induction false} LeafRequestsCount(w: DateWindow, last: nat)
    requires last >= 1
    ensures |LeafRequests(w, last)| == last - 1
  {
    if last >= 2 {
      LeafRequestsCount(w, last - 1);
    }
  }

  class Walk {
    var ids: seq<Id>
    var windows: nat
    var pages: nat
    var truncated: seq<DateWindow>
    var firstTruncatedDay: Option<int>
    ghost var requests: seq<PageRequest>

    ghost function State(): WalkState
      reads this
    {
      WalkState(ids, windows, pages, truncated, firstTruncatedDay, requests)
    }

    constructor ()
      ensures State() == WalkState([], 0, 0, [], None, [])
    {
      ids, windows, pages, truncated, firstTruncatedDay := [], 0, 0, [], None;
      requests := [];
    }

    method WalkChangeWindow(server: ChangeServer, window: DateWindow)
      modifies this
      ensures State() == After(server, window, old(State()))
      decreases window.end - window.start
    {
      hide After, ReadWhole, SplitChangeWindow;
      pages := pages + 1;
      requests := requests + [PageRequest(window.start, window.end, 1)];
      var totalPages := TotalPages(server, window);

      if totalPages > MAX_DISCOVER_PAGES && window.splittable {
        AfterSplit(server, window, old(State()));
        var halves := SplitChangeWindow(window);
        if halves != [] {
          WalkChangeWindow(server, halves[0]);
          WalkChangeWindow(server, halves[1]);
        }
        return;
      }

      AfterRead(server, window, old(State()));
      ReadWindow(server, window, totalPages);
    }

    /** A window that is not split: the pages the cap allows, the first of which was the probe. */
    method ReadWindow(server: ChangeServer, window: DateWindow, declared: nat)
      requires declared == TotalPages(server, window)
      modifies this
      ensures State() == ReadWhole(server, window, old(State()))
    {
      var totalPages := declared;
      windows := windows + 1;
      if totalPages > MAX_DISCOVER_PAGES {
        truncated := truncated + [window];
        if firstTruncatedDay.None? {
          firstTruncatedDay := Some(window.start);
        }
        totalPages := MAX_DISCOVER_PAGES;
      }

      ReadPages(server, window, totalPages);
    }

    /** The ids of pages `1 .. totalPages`, in page order. Page 1 has been fetched already. */
    method ReadPages(server: ChangeServer, window: DateWindow, totalPages: nat)
      requires totalPages >= 1
      modifies this
      ensures State() == old(State()).(
        ids := MergeNew(old(ids), IdsOfPages(server, window, totalPages)),
        pages := old(pages) + (totalPages - 1),
        requests := old(requests) + LeafRequests(window, totalPages))
    {
      hide MergeNew, ChangeIds, Page;
      var first := ChangeIds(Page(server, window, 1));
      assert IdsOfPages(server, window, 0) == [];
      assert IdsOfPages(server, window, 1) == [] + first == first;
      assert old(requests) + LeafRequests(window, 1) == old(requests);
      ids := MergeNew(ids, first);
      var page := 2;
      while page <= totalPages
        invariant 2 <= page <= totalPages + 1
        invariant ids == MergeNew(old(ids), IdsOfPages(server, window, page - 1))
        invariant pages == old(pages) + (page - 2)
        invariant requests == old(requests) + LeafRequests(window, page - 1)
        invariant unchanged(this`windows, this`truncated, this`firstTruncatedDay)
      {
        MergeNewConcat(old(ids), IdsOfPages(server, window, page - 1), ChangeIds(Page(server, window, page)));
        pages := pages + 1;
        requests := requests + [PageRequest(window.start, window.end, page)];
        ids := MergeNew(ids, ChangeIds(Page(server, window, page)));
        page := page + 1;
      }
    }
  }

  datatype ChangeFeed = ChangeFeed(
    ids: seq<Id>, windows: nat, pages: nat, coveredThrough: Option<int>, truncated: seq<DateWindow>)

  function CoveredThrough(window: DateWindow, firstTruncatedDay: Option<int>): Option<int> {
    if firstTruncatedDay.None? then Some(window.end)
    else if firstTruncatedDay.value > window.start then Some(firstTruncatedDay.value - 1)
    else None
  }

  function FeedOf(server: ChangeServer, window: DateWindow): ChangeFeed {
    var leaves := Leaves(server, window);
    var saturated := SaturatedOf(server, leaves);
    ChangeFeed(MergeNew([], LeafIds(server, leaves)), |leaves|, |RequestsOf(server, window)|,
               CoveredThrough(window, FirstDay(None, saturated)), saturated)
  }

  method FetchChangeIds(server: ChangeServer, window: DateWindow)
    returns (feed: ChangeFeed, ghost requests: seq<PageRequest>)
    ensures feed == FeedOf(server, window)
    ensures requests == RequestsOf(server, window)
  {
    var walk := new Walk();
    walk.WalkChangeWindow(server, window);
    var coveredThrough;
    if walk.firstTruncatedDay.None? {
      coveredThrough := Some(window.end);
    } else if walk.firstTruncatedDay.value > window.start {
      coveredThrough := Some(walk.firstTruncatedDay.value - 1);
    } else {
      coveredThrough := None;
    }
    feed := ChangeFeed(walk.ids, walk.windows, walk.pages, coveredThrough, walk.truncated);
    requests := walk.requests;
  }

  // ---- what the walk guarantees

  /** The windows the planner and the halving build. */
  ghost predicate Regular(w: DateWindow) {
    w.start <= w.end && (w.splittable <==> w.start < w.end)
  }

  /** The weakest condition on a window for which the walk is honest: see `FlaggedDayIsLost`. */
  ghost predicate Walkable(w: DateWindow) {
    w.start <= w.end && (w.splittable ==> w.start < w.end)
  }

  lemma {:induction false} LeavesConcat(server: ChangeServer, a: seq<DateWindow>, b: seq<DateWindow>)
    ensures LeafIds(server, a + b) == LeafIds(server, a) + LeafIds(server, b)
    ensures SaturatedOf(server, a + b) == SaturatedOf(server, a) + SaturatedOf(server, b)
  {
    if a == [] {
      assert a + b == b;
    } else {
      assert (a + b)[1..] == a[1..] + b;
      LeavesConcat(server, a[1..], b);
      var ids := IdsOfPages(server, a[0], PagesRead(server, a[0]));
      assert ids + (LeafIds(server, a[1..]) + LeafIds(server, b)) == ids + LeafIds(server, a[1..]) + LeafIds(server, b);
    }
  }

  /** The sub-windows read tile the window in order; a saturated one could not be cut further, and
      for a window of the planner that means it is a single day. */
  lemma {:induction false} LeavesTile(server: ChangeServer, w: DateWindow)
    requires Walkable(w)
    ensures Tiles(Leaves(server, w), w.start, w.end)
    ensures forall leaf | leaf in Leaves(server, w) && Saturated(server, leaf) :: !leaf.splittable
    ensures Regular(w) ==> forall leaf | leaf in Leaves(server, w) :: Regular(leaf)
    decreases w.end - w.start
  {
    if Saturated(server, w) && w.splittable {
      SplitTiles(w);
      var halves := SplitChangeWindow(w);
      LeavesTile(server, halves[0]);
      LeavesTile(server, halves[1]);
      TilesConcat(Leaves(server, halves[0]), Leaves(server, halves[1]), w.start, halves[0].end, w.end);
    }
  }

  lemma {:induction false} IdsOfPagesMember(server: ChangeServer, w: DateWindow, n: nat, id: Id)
    ensures id in IdsOfPages(server, w, n) <==> exists p | 1 <= p <= n :: Some(id) in Page(server, w, p)
  {
    if n > 0 {
      IdsOfPagesMember(server, w, n - 1, id);
      ChangeIdsMember(Page(server, w, n), id);
    }
  }

  lemma {:induction false} ChangeIdsMember(rows: seq<Option<Id>>, id: Id)
    ensures id in ChangeIds(rows) <==> Some(id) in rows
  {
    if rows != [] {
      assert rows == [rows[0]] + rows[1..];
      ChangeIdsMember(rows[1..], id);
    }
  }

  /** A window read in full yields every id held for its days; any window yields only those. */
  lemma LeafIsComplete(server: ChangeServer, w: DateWindow, id: Id)
    requires Honest(server)
    ensures id in IdsOfPages(server, w, PagesRead(server, w)) ==> Holds(server, w.start, w.end, id)
    ensures !Saturated(server, w) && Holds(server, w.start, w.end, id) ==>
      id in IdsOfPages(server, w, PagesRead(server, w))
  {
    var pages := server.pages(w.start, w.end);
    FlattenMembers(pages);
    IdsOfPagesMember(server, w, PagesRead(server, w), id);
    if !Saturated(server, w) && Holds(server, w.start, w.end, id) {
      assert Some(id) in Flatten(pages);
      var i :| 0 <= i < |pages| && Some(id) in pages[i];
      assert Some(id) in Page(server, w, i + 1);
    }
  }

  lemma {:induction false} LeafIdsMember(server: ChangeServer, leaves: seq<DateWindow>, id: Id)
    ensures id in LeafIds(server, leaves) <==>
      exists i | 0 <= i < |leaves| :: id in IdsOfPages(server, leaves[i], PagesRead(server, leaves[i]))
  {
    if leaves != [] {
      LeafIdsMember(server, leaves[1..], id);
      if i :| 0 <= i < |leaves| && id in IdsOfPages(server, leaves[i], PagesRead(server, leaves[i])) {
        assert i > 0 ==> leaves[1..][i - 1] == leaves[i];
      }
      if id in LeafIds(server, leaves[1..]) {
        var i :| 0 <= i < |leaves[1..]| && id in IdsOfPages(server, leaves[1..][i], PagesRead(server, leaves[1..][i]));
        assert leaves[i + 1] == leaves[1..][i];
      }
    }
  }

  /** A day before the first saturated sub-window lies in one that was read in full. */
  lemma {:induction false} ReadLeafOf(server: ChangeServer, leaves: seq<DateWindow>, start: int, end: int, day: int)
    returns (i: nat)
    requires Tiles(leaves, start, end) && start <= day <= end
    requires var saturated := SaturatedOf(server, leaves); saturated == [] || day < saturated[0].start
    ensures i < |leaves| && leaves[i].Has(day) && !Saturated(server, leaves[i])
  {
    if day <= leaves[0].end {
      i := 0;
    } else {
      i := ReadLeafOf(server, leaves[1..], leaves[0].end + 1, end, day);
      i := i + 1;
    }
  }

  lemma {:induction false} SaturatedOfMember(server: ChangeServer, leaves: seq<DateWindow>, w: DateWindow)
    ensures w in SaturatedOf(server, leaves) <==> w in leaves && Saturated(server, w)
  {
    if leaves != [] {
      assert leaves == [leaves[0]] + leaves[1..];
      SaturatedOfMember(server, leaves[1..], w);
    }
  }

  lemma {:induction false} TilesInside(ws: seq<DateWindow>, start: int, end: int, w: DateWindow)
    requires Tiles(ws, start, end) && w in ws
    ensures start <= w.start <= w.end <= end
  {
    if w != ws[0] {
      assert ws == [ws[0]] + ws[1..];
      TilesInside(ws[1..], ws[0].end + 1, end, w);
    }
  }

  /** The first saturated sub-window, when there is one, is inside the window. */
  lemma FirstSaturatedIsInside(server: ChangeServer, w: DateWindow)
    requires Walkable(w) && SaturatedOf(server, Leaves(server, w)) != []
    ensures var first := SaturatedOf(server, Leaves(server, w))[0];
      && w.start <= first.start <= first.end <= w.end && Saturated(server, first)
      && (Regular(w) ==> first == ChangeWindow(first.start, first.start))
  {
    var leaves := Leaves(server, w);
    var first := SaturatedOf(server, leaves)[0];
    SaturatedOfMember(server, leaves, first);
    LeavesTile(server, w);
    TilesInside(leaves, w.start, w.end, first);
  }

  /** Main result, soundness: nothing held up to `coveredThrough` is missing. */
  lemma CoveredThroughIsSound(server: ChangeServer, w: DateWindow, day: int, id: Id)
    requires Honest(server) && Walkable(w)
    requires var covered := FeedOf(server, w).coveredThrough; covered.Some? && w.start <= day <= covered.value
    requires id in server.held(day)
    ensures w.start <= FeedOf(server, w).coveredThrough.value <= w.end
    ensures id in FeedOf(server, w).ids
  {
    var leaves := Leaves(server, w);
    LeavesTile(server, w);
    if SaturatedOf(server, leaves) != [] {
      FirstSaturatedIsInside(server, w);
    }
    var i := ReadLeafOf(server, leaves, w.start, w.end, day);
    assert Holds(server, leaves[i].start, leaves[i].end, id);
    LeafIsComplete(server, leaves[i], id);
    LeafIdsMember(server, leaves, id);
    MergeNewMember([], LeafIds(server, leaves), id);
  }

  /** Main result, maximality: the walk stops short only right before a saturated single day. */
  lemma CoveredThroughIsMaximal(server: ChangeServer, w: DateWindow)
    requires Regular(w)
    ensures var covered := FeedOf(server, w).coveredThrough;
      var next := if covered.Some? then covered.value + 1 else w.start;
      covered == Some(w.end) || (w.Has(next) && Saturated(server, ChangeWindow(next, next)))
  {
    hide Leaves, LeafIds, SaturatedOf, RequestsOf, MergeNew, Saturated;
    if SaturatedOf(server, Leaves(server, w)) != [] {
      FirstSaturatedIsInside(server, w);
    }
  }

  /** Nothing is invented, no id is repeated, and the ids come in the order of the walk. */
  lemma FeedIdsAreHeld(server: ChangeServer, w: DateWindow, id: Id)
    requires Honest(server) && Walkable(w) && id in FeedOf(server, w).ids
    ensures Holds(server, w.start, w.end, id)
    ensures Distinct(FeedOf(server, w).ids)
  {
    var leaves := Leaves(server, w);
    MergeNewMember([], LeafIds(server, leaves), id);
    MergeNewExtends([], LeafIds(server, leaves));
    LeafIdsMember(server, leaves, id);
    var i :| 0 <= i < |leaves| && id in IdsOfPages(server, leaves[i], PagesRead(server, leaves[i]));
    LeafIsComplete(server, leaves[i], id);
    LeavesTile(server, w);
    TilesInside(leaves, w.start, w.end, leaves[i]);
  }

  /** No page above the cap is asked for, none that the window does not have save its first, and no day outside
      the window. */
  lemma {:induction false} RequestsStayInside(server: ChangeServer, w: DateWindow)
    requires Walkable(w)
    ensures forall r | r in RequestsOf(server, w) ::
      && 1 <= r.page <= MAX_DISCOVER_PAGES && w.start <= r.start <= r.end <= w.end
      && (r.page > 1 ==> r.page <= |server.pages(r.start, r.end)|)
    decreases w.end - w.start
  {
    if Saturated(server, w) && w.splittable {
      SplitTiles(w);
      var halves := SplitChangeWindow(w);
      RequestsStayInside(server, halves[0]);
      RequestsStayInside(server, halves[1]);
    } else {
      LeafRequestsInside(w, PagesRead(server, w));
    }
  }

  lemma {:induction false} LeafRequestsInside(w: DateWindow, last: nat)
    ensures forall r | r in LeafRequests(w, last) ::
      r.start == w.start && r.end == w.end && 2 <= r.page <= last
  {
    if last >= 2 {
      LeafRequestsInside(w, last - 1);
    }
  }

  /** A source that holds one id on one day, and has a page more than the cap for every window with
      that day in it. */
  function CrowdedServer(day: int, id: Id): ChangeServer {
    ChangeServer(d => if d == day then {id} else {},
                 (start, end) => if start <= day <= end then seq(MAX_DISCOVER_PAGES + 1, _ => [Some(id)]) else [])
  }

  lemma CrowdedIsHonest(day: int, id: Id)
    ensures Honest(CrowdedServer(day, id)) && id in CrowdedServer(day, id).held(day)
    ensures forall w: DateWindow :: Saturated(CrowdedServer(day, id), w) <==> w.Has(day)
  {
    var server := CrowdedServer(day, id);
    forall start, end, x
      ensures Some(x) in Flatten(server.pages(start, end)) <==> Holds(server, start, end, x)
    {
      FlattenMembers(server.pages(start, end));
      if start <= day <= end {
        var full := server.pages(start, end);
        assert full[0] == [Some(id)];
        if x == id {
          assert x in server.held(day);
          assert Some(x) in full[0];
        }
      }
    }
  }

  /** `Walkable` cannot be dropped: a single day flagged as splittable and over the cap is neither
      read nor reported, yet it is claimed as covered. */
  lemma FlaggedDayIsLost(day: int, id: Id) returns (server: ChangeServer)
    ensures Honest(server) && id in server.held(day)
    ensures var feed := FeedOf(server, DateWindow(day, day, true));
      feed.coveredThrough == Some(day) && feed.ids == [] && feed.truncated == []
  {
    server := CrowdedServer(day, id);
    CrowdedIsHonest(day, id);
    var w := DateWindow(day, day, true);
    assert w.Has(day);
    assert Leaves(server, w) == [];
  }

  /** What `coveredThrough` promises, for one server, day and id. */
  ghost predicate KeepsPromise(server: ChangeServer, w: DateWindow, day: int, id: Id) {
    var feed := FeedOf(server, w);
    Honest(server) && feed.coveredThrough.Some? && w.start <= day <= feed.coveredThrough.value
      && id in server.held(day) ==>
      id in feed.ids
  }

  /** The exact condition: a window of at least one day keeps the promise for every server precisely
      when it is not a single day flagged as splittable. */
  lemma PromiseKeptExactlyWhenWalkable(w: DateWindow)
    requires w.start <= w.end
    ensures Walkable(w) <==> forall server, day, id :: KeepsPromise(server, w, day, id)
  {
    if Walkable(w) {
      forall server, day, id
        ensures KeepsPromise(server, w, day, id)
      {
        var covered := FeedOf(server, w).coveredThrough;
        if Honest(server) && covered.Some? && w.start <= day <= covered.value && id in server.held(day) {
          CoveredThroughIsSound(server, w, day, id);
        }
      }
    } else {
      var server := FlaggedDayIsLost(w.start, "");
      assert w == DateWindow(w.start, w.start, true);
      assert !KeepsPromise(server, w, w.start, "");
    }
  }

  // ---- every day is read whole, or named

  lemma {:induction false} LeafOf(leaves: seq<DateWindow>, start: int, end: int, day: int) returns (i: nat)
    requires Tiles(leaves, start, end) && start <= day <= end
    ensures i < |leaves| && leaves[i].Has(day)
  {
    if day <= leaves[0].end {
      i := 0;
    } else {
      i := LeafOf(leaves[1..], leaves[0].end + 1, end, day);
      i := i + 1;
    }
  }

  /** Main result: what `truncated` names are single days of the window with more pages than the cap, whose pages
      up to the cap are in the feed; of every other day, everything is. */
  lemma EveryDayIsReadOrNamed(server: ChangeServer, w: DateWindow, day: int)
    requires Honest(server) && Regular(w) && w.Has(day)
    ensures var feed := FeedOf(server, w);
      if DateWindow(day, day, false) in feed.truncated then
        && |server.pages(day, day)| > MAX_DISCOVER_PAGES
        && forall k, id | 0 <= k < MAX_DISCOVER_PAGES && Some(id) in server.pages(day, day)[k] :: id in feed.ids
      else forall id | id in server.held(day) :: id in feed.ids
    ensures forall t | t in FeedOf(server, w).truncated :: t == DateWindow(t.start, t.start, false) && w.Has(t.start)
  {
    hide *;
    var single := DateWindow(day, day, false);
    forall t | t in FeedOf(server, w).truncated
      ensures t == DateWindow(t.start, t.start, false) && w.Has(t.start)
      ensures t in Leaves(server, w) && Saturated(server, t)
    {
      TruncatedIsADay(server, w, t);
    }
    if single in FeedOf(server, w).truncated {
      FirstPagesOf(server, w, day);
    } else {
      WholeDay(server, w, day);
    }
  }

  lemma TruncatedIsADay(server: ChangeServer, w: DateWindow, t: DateWindow)
    requires Regular(w) && t in FeedOf(server, w).truncated
    ensures t == DateWindow(t.start, t.start, false) && w.Has(t.start)
    ensures t in Leaves(server, w) && Saturated(server, t)
  {
    hide Leaves, Saturated;
    LeavesTile(server, w);
    SaturatedOfMember(server, Leaves(server, w), t);
    TilesInside(Leaves(server, w), w.start, w.end, t);
  }

  lemma FirstPagesOf(server: ChangeServer, w: DateWindow, day: int)
    requires var single := DateWindow(day, day, false); single in Leaves(server, w) && Saturated(server, single)
    ensures |server.pages(day, day)| > MAX_DISCOVER_PAGES
    ensures forall k, id | 0 <= k < MAX_DISCOVER_PAGES && Some(id) in server.pages(day, day)[k] ::
      id in FeedOf(server, w).ids
  {
    hide Leaves, FeedOf;
    var single := DateWindow(day, day, false);
    forall k, id | 0 <= k < MAX_DISCOVER_PAGES && Some(id) in server.pages(day, day)[k]
      ensures id in FeedOf(server, w).ids
    {
      IdsOfPagesMember(server, single, PagesRead(server, single), id);
      assert Some(id) in Page(server, single, k + 1);
      InFeed(server, w, single, id);
    }
  }

  lemma WholeDay(server: ChangeServer, w: DateWindow, day: int)
    requires Honest(server) && Regular(w) && w.Has(day)
    requires DateWindow(day, day, false) !in FeedOf(server, w).truncated
    ensures forall id | id in server.held(day) :: id in FeedOf(server, w).ids
  {
    hide Leaves, Honest, Saturated, IdsOfPages, LeafIds, RequestsOf;
    var leaves := Leaves(server, w);
    LeavesTile(server, w);
    var i := LeafOf(leaves, w.start, w.end, day);
    var leaf := leaves[i];
    SaturatedOfMember(server, leaves, leaf);
    assert Regular(leaf) && !Saturated(server, leaf);
    forall id | id in server.held(day)
      ensures id in FeedOf(server, w).ids
    {
      assert Holds(server, leaf.start, leaf.end, id);
      LeafIsComplete(server, leaf, id);
      InFeed(server, w, leaf, id);
    }
  }

  /** What is read of a sub-window is in the feed. */
  lemma InFeed(server: ChangeServer, w: DateWindow, leaf: DateWindow, id: Id)
    requires leaf in Leaves(server, w) && id in IdsOfPages(server, leaf, PagesRead(server, leaf))
    ensures id in FeedOf(server, w).ids
  {
    var leaves := Leaves(server, w);
    var i :| 0 <= i < |leaves| && leaves[i] == leaf;
    LeafIdsMember(server, leaves, id);
    MergeNewMember([], LeafIds(server, leaves), id);
  }
}
