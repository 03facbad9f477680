/** Enumerating the games by keyset: each request asks for the ids above the last one seen, over a set
    that may change between two requests. */
module KeysetWalk {
  import opened Common

  const IGDB_PAGE_SIZE: nat := 500

  /** One result row, as far as the walk looks at it: its id, if it carries one. */
  datatype Row = Row(id: Option<int>) {
    /** An absent id and the id 0 are both unusable. */
    predicate Usable() { id.Some? && id.value != 0 }

    function Number(): int { if id.Some? then id.value else 0 }
  }

  /** What request number `k` for at most `limit` rows above `after` answers. */
  type Fetch = (nat, int, nat) -> seq<Row>

  function Targets(rows: seq<Row>): seq<int> {
    if rows == [] then [] else (if rows[0].Usable() then [rows[0].Number()] else []) + Targets(rows[1..])
  }

  function Highest(rows: seq<Row>, default: int): int {
    var ids := Targets(rows);
    if ids == [] then default else MaxOf(ids)
  }

  function MaxOf(ids: seq<int>): (m: int)
    requires ids != []
    ensures m in ids && forall id | id in ids :: id <= m
  {
    if |ids| == 1 then ids[0]
    else
      assert ids == [ids[0]] + ids[1..];
      Max(ids[0], MaxOf(ids[1..]))
  }

  /** The ids a source may ever answer are bounded. */
  ghost predicate Bounded(fetch: Fetch, bound: int) {
    forall k, after, limit, id :: id in Targets(fetch(k, after, limit)) ==> id <= bound
  }

  datatype Walked = Walked(emitted: seq<int>, pages: nat, requests: nat, lastId: int, stalled: bool) {
    /** This walk, with one more page of `ids` before it. */
    function After(ids: seq<int>): Walked {
      Walked(ids + emitted, 1 + pages, 1 + requests, lastId, stalled)
    }
  }

  function Size(pageSize: int): nat {
    Max(1, Min(pageSize, IGDB_PAGE_SIZE))
  }

  /** The walk from request number `k` on, with the cursor at `after`. */
  ghost function Walk(fetch: Fetch, size: nat, k: nat, after: int, bound: int): Walked
    requires Bounded(fetch, bound)
    decreases bound - after
  {
    var rows := fetch(k, after, size);
    if rows == [] then Walked([], 0, 1, after, false)
    else
      var highest := Highest(rows, after);
      if highest <= after then Walked(Targets(rows), 1, 1, after, true)
      else if |rows| < size then Walked(Targets(rows), 1, 1, highest, false)
      else
        assert highest in Targets(rows);
        Walk(fetch, size, k + 1, highest, bound).After(Targets(rows))
  }

  method EnumerateCatalog(fetch: Fetch, pageSize: int, startAfter: int, ghost bound: int) returns (walked: Walked)
    requires Bounded(fetch, bound)
    ensures walked == Walk(fetch, Size(pageSize), 0, startAfter, bound)
    ensures 1 <= pageSize <= 500 ==> walked == Walk(fetch, pageSize, 0, startAfter, bound)
    ensures pageSize < 1 ==> walked == Walk(fetch, 1, 0, startAfter, bound)
    ensures pageSize > 500 ==> walked == Walk(fetch, 500, 0, startAfter, bound)
    ensures 0 !in walked.emitted
  {
    hide Targets, Bounded, Walk, Highest;
    var size := Size(pageSize);
    EmittedAreAnswered(fetch, size, 0, startAfter, bound);
    var emitted: seq<int>, pages: nat, requests: nat := [], 0, 0;
    var after, stalled := startAfter, false;
    ghost var whole := Walk(fetch, size, 0, startAfter, bound);
    while true
      invariant Extends(whole, emitted, pages, requests, Walk(fetch, size, requests, after, bound))
      decreases bound - after
    {
      var rows := fetch(requests, after, size);
      WalkStep(fetch, size, requests, after, bound);
      requests := requests + 1;
      if rows == [] {
        break;
      }
      pages := pages + 1;
      ghost var before := emitted;
      emitted := emitted + Targets(rows);
      var highest := Highest(rows, after);
      if highest <= after {
        stalled := true;
        break;
      }
      after := highest;
      if |rows| < size {
        break;
      }
      ghost var rest := Walk(fetch, size, requests, after, bound);
      assert before + (Targets(rows) + rest.emitted) == emitted + rest.emitted;
    }
    walked := Walked(emitted, pages, requests, after, stalled);
  }

  /** `whole` is what was done so far followed by `rest`. */
  ghost predicate Extends(whole: Walked, emitted: seq<int>, pages: nat, requests: nat, rest: Walked) {
    whole == Walked(emitted + rest.emitted, pages + rest.pages, requests + rest.requests, rest.lastId, rest.stalled)
  }

  lemma HighestIsBounded(fetch: Fetch, bound: int, k: nat, after: int, limit: nat)
    requires Bounded(fetch, bound)
    ensures Highest(fetch(k, after, limit), after) <= Max(after, bound)
  {
  }

  // ---- a source that filters and sorts, over a set that changes

  /** `rows` are the `limit` smallest ids of `held` above `after`, in order. */
  ghost predicate Answers(rows: seq<Row>, held: set<int>, after: int, limit: nat) {
    && |rows| <= limit
    && (forall i | 0 <= i < |rows| :: rows[i].id.Some? && rows[i].Number() in held && after < rows[i].Number())
    && (forall i, j | 0 <= i < j < |rows| :: rows[i].Number() < rows[j].Number())
    && (forall id | id in held && after < id ::
          Listed(rows, id) || (|rows| == limit && forall i | 0 <= i < |rows| :: rows[i].Number() < id))
  }

  ghost predicate Listed(rows: seq<Row>, id: int) {
    exists i | 0 <= i < |rows| :: rows[i].Number() == id
  }

  /** Request number `k` reads the set `snapshot(k)`; ids are positive. */
  ghost predicate Honours(fetch: Fetch, snapshot: nat -> set<int>) {
    && (forall k, id | id in snapshot(k) :: id > 0)
    && (forall k, after, limit :: Answers(fetch(k, after, limit), snapshot(k), after, limit))
  }

  lemma {:induction false} TargetsOfUsable(rows: seq<Row>)
    requires forall i | 0 <= i < |rows| :: rows[i].Usable()
    ensures |Targets(rows)| == |rows|
    ensures forall i | 0 <= i < |rows| :: Targets(rows)[i] == rows[i].Number()
  {
    if rows != [] {
      TargetsOfUsable(rows[1..]);
      forall i | 0 <= i < |rows|
        ensures Targets(rows)[i] == rows[i].Number()
      {
        assert i > 0 ==> rows[i] == rows[1..][i - 1] && Targets(rows)[i] == Targets(rows[1..])[i - 1];
      }
    }
  }

  /** One honoured request: its targets ascend above the cursor, and every id of the set that is not
      among them lies above them all, on a full page. */
  lemma OnePage(fetch: Fetch, snapshot: nat -> set<int>, k: nat, after: int, size: nat)
    requires Honours(fetch, snapshot) && size > 0
    ensures var rows := fetch(k, after, size);
      var ids := Targets(rows);
      && |ids| == |rows| && Ascending(ids)
      && (forall id | id in ids :: after < id && id in snapshot(k))
      && (rows != [] ==> after < Highest(rows, after) == ids[|ids| - 1])
      && (forall id | id in snapshot(k) && after < id ::
            id in ids || (|rows| == size && Highest(rows, after) < id))
  {
    hide Targets, Ascending, Highest;
    var rows, held := fetch(k, after, size), snapshot(k);
    assert Answers(rows, held, after, size);
    assert forall i | 0 <= i < |rows| :: rows[i].Number() in held;
    TargetsOfUsable(rows);
    TargetsOfAnswer(rows, held, after, size);
    if rows != [] {
      HighestIsLast(rows, after);
    }
  }

  lemma TargetsOfAnswer(rows: seq<Row>, held: set<int>, after: int, size: nat)
    requires Answers(rows, held, after, size)
    requires |Targets(rows)| == |rows| && forall i | 0 <= i < |rows| :: Targets(rows)[i] == rows[i].Number()
    ensures var ids := Targets(rows);
      && Ascending(ids)
      && (forall id | id in ids :: after < id && id in held)
      && (forall id | id in held && after < id :: id in ids || (|rows| == size && forall x | x in ids :: x < id))
  {
    hide Targets;
    var ids := Targets(rows);
    forall id | id in held && after < id
      ensures id in ids || (|rows| == size && forall x | x in ids :: x < id)
    {
      if Listed(rows, id) {
        var i :| 0 <= i < |rows| && rows[i].Number() == id;
        assert ids[i] == id;
      }
    }
  }

  lemma HighestIsLast(rows: seq<Row>, after: int)
    requires Ascending(Targets(rows)) && Targets(rows) != []
    ensures Highest(rows, after) == Targets(rows)[|Targets(rows)| - 1]
    ensures Highest(rows, after) in Targets(rows)
  {
    hide Targets;
    var ids := Targets(rows);
    var m := MaxOf(ids);
    var i :| 0 <= i < |ids| && ids[i] == m;
    assert ids[|ids| - 1] in ids;
  }

  /** Main result. Over any changing set: the walk never stalls, emits in strictly ascending order (so
      no id twice), emits only ids some request saw, and emits every id above the start that was in
      the set at every request. The cursor ends on the last id emitted. */
  lemma {:induction false} WalkIsComplete(fetch: Fetch, snapshot: nat -> set<int>, size: nat, k: nat, after: int,
                                          bound: int, id: int)
    requires Bounded(fetch, bound) && Honours(fetch, snapshot) && size > 0
    ensures Complete(Walk(fetch, size, k, after, bound), snapshot, k, after, id)
    decreases bound - after
  {
    hide *;
    var rows := fetch(k, after, size);
    OnePage(fetch, snapshot, k, after, size);
    WalkStep(fetch, size, k, after, bound);
    var w := Walk(fetch, size, k, after, bound);
    if rows == [] || |rows| < size {
      ShortPageIsComplete(w, Targets(rows), snapshot, k, after, id);
    } else {
      var highest := Highest(rows, after);
      WalkIsComplete(fetch, snapshot, size, k + 1, highest, bound, id);
      FullPageIsComplete(w, Walk(fetch, size, k + 1, highest, bound), Targets(rows), highest, snapshot, k, after, id);
    }
  }

  /** What a walk that starts above `after` with request number `k` promises, for the id `id`. */
  ghost predicate Complete(w: Walked, snapshot: nat -> set<int>, k: nat, after: int, id: int) {
    && !w.stalled && w.requests > 0 && w.pages <= w.requests <= w.pages + 1
    && Ascending(w.emitted) && (forall x | x in w.emitted :: after < x)
    && w.lastId == (if w.emitted == [] then after else w.emitted[|w.emitted| - 1])
    && (id in w.emitted ==> exists j | k <= j < k + w.requests :: id in snapshot(j))
    && (after < id && (forall j | k <= j < k + w.requests :: id in snapshot(j)) ==> id in w.emitted)
  }

  /** One round of the walk. */
  lemma WalkStep(fetch: Fetch, size: nat, k: nat, after: int, bound: int)
    requires Bounded(fetch, bound)
    ensures var rows := fetch(k, after, size);
      var highest := Highest(rows, after);
      var w := Walk(fetch, size, k, after, bound);
      && (rows == [] ==> w == Walked([], 0, 1, after, false) && Targets(rows) == [])
      && (rows != [] && highest <= after ==> w == Walked(Targets(rows), 1, 1, after, true))
      && (rows != [] && highest > after ==> highest <= bound)
      && (rows != [] && highest > after && |rows| < size ==> w == Walked(Targets(rows), 1, 1, highest, false))
      && (rows != [] && highest > after && |rows| >= size ==>
        w == Walk(fetch, size, k + 1, highest, bound).After(Targets(rows)))
  {
    hide Targets, Highest, Bounded;
    HighestIsBounded(fetch, bound, k, after, size);
    NoTargets();
  }

  lemma NoTargets()
    ensures Targets([]) == []
  {
  }

  lemma ShortPageIsComplete(w: Walked, ids: seq<int>, snapshot: nat -> set<int>, k: nat, after: int, id: int)
    requires w.emitted == ids && w.pages <= 1 && w.requests == 1 && !w.stalled
    requires w.lastId == (if ids == [] then after else ids[|ids| - 1])
    requires Ascending(ids) && forall x | x in ids :: after < x && x in snapshot(k)
    requires id in snapshot(k) && after < id ==> id in ids
    ensures Complete(w, snapshot, k, after, id)
  {
    hide Ascending;
    assert k <= k < k + w.requests;
  }

  lemma FullPageIsComplete(w: Walked, rest: Walked, ids: seq<int>, highest: int, snapshot: nat -> set<int>, k: nat,
                           after: int, id: int)
    requires w == rest.After(ids) && Complete(rest, snapshot, k + 1, highest, id)
    requires ids != [] && after < highest == ids[|ids| - 1]
    requires Ascending(ids) && forall x | x in ids :: after < x && x in snapshot(k)
    requires id in snapshot(k) && after < id ==> id in ids || highest < id
    ensures Complete(w, snapshot, k, after, id)
  {
    AscendingConcat(ids, rest.emitted, highest);
    assert k <= k < k + w.requests;
    if id in rest.emitted {
      var j :| k + 1 <= j < k + 1 + rest.requests && id in snapshot(j);
      assert k <= j < k + w.requests;
    }
  }

  // ---- the order of the stopping rules

  /** The walk with its stopping rules in the order in which they are documented: an empty page, then a
      short one, then a stalled cursor. */
  ghost function DocumentedWalk(fetch: Fetch, size: nat, k: nat, after: int, bound: int): Walked
    requires Bounded(fetch, bound)
    decreases bound - after
  {
    var rows := fetch(k, after, size);
    var highest := Highest(rows, after);
    if rows == [] then Walked([], 0, 1, after, false)
    else if |rows| < size then Walked(Targets(rows), 1, 1, Max(highest, after), false)
    else if highest <= after then Walked(Targets(rows), 1, 1, after, true)
    else
      assert highest in Targets(rows);
      DocumentedWalk(fetch, size, k + 1, highest, bound).After(Targets(rows))
  }

  /** Some page the walk reads is neither empty nor full, and has no id above the cursor. */
  ghost predicate ReadsShortStall(fetch: Fetch, size: nat, k: nat, after: int, bound: int)
    requires Bounded(fetch, bound)
    decreases bound - after
  {
    var rows := fetch(k, after, size);
    var highest := Highest(rows, after);
    if rows == [] then false
    else if highest <= after then |rows| < size
    else
      assert highest in Targets(rows);
      |rows| >= size && ReadsShortStall(fetch, size, k + 1, highest, bound)
  }

  /** The exact condition: both orders give the same walk if and only if no page that is read is short
      and stalled at once; on such a page the code reports a stall and the documented order would not. */
  lemma {:induction false} OrdersAgreeExactly(fetch: Fetch, size: nat, k: nat, after: int, bound: int)
    requires Bounded(fetch, bound)
    ensures Walk(fetch, size, k, after, bound) == DocumentedWalk(fetch, size, k, after, bound)
      <==> !ReadsShortStall(fetch, size, k, after, bound)
    ensures ReadsShortStall(fetch, size, k, after, bound) ==>
      Walk(fetch, size, k, after, bound).stalled && !DocumentedWalk(fetch, size, k, after, bound).stalled
    decreases bound - after
  {
    hide Targets, Highest, Bounded;
    var rows := fetch(k, after, size);
    var highest := Highest(rows, after);
    HighestIsBounded(fetch, bound, k, after, size);
    if rows != [] && |rows| >= size && highest > after {
      OrdersAgreeExactly(fetch, size, k + 1, highest, bound);
    }
  }

  /** A page of one row, where two were asked for, whose id is not above the cursor. */
  lemma ShortStallTellsThemApart(after: int) returns (fetch: Fetch)
    requires after > 0
    ensures Bounded(fetch, after) && |fetch(0, after, 2)| == 1
    ensures Walk(fetch, 2, 0, after, after) == Walked([after], 1, 1, after, true)
    ensures DocumentedWalk(fetch, 2, 0, after, after) == Walked([after], 1, 1, after, false)
  {
    var row := Row(Some(after));
    fetch := (k, above, limit) => [row];
    assert [row][1..] == [];
    assert Targets([row]) == [after] + Targets([]);
  }

  /** Over a source that filters and sorts, whatever set it reads at each request, the orders agree. */
  lemma {:induction false} OrdersAgreeOnHonoured(fetch: Fetch, snapshot: nat -> set<int>, size: nat, k: nat, after: int,
                                                 bound: int)
    requires Bounded(fetch, bound) && Honours(fetch, snapshot) && size > 0
    ensures !ReadsShortStall(fetch, size, k, after, bound)
    ensures Walk(fetch, size, k, after, bound) == DocumentedWalk(fetch, size, k, after, bound)
    decreases bound - after
  {
    hide Targets, Highest, Bounded, Honours, Walk, DocumentedWalk;
    var rows := fetch(k, after, size);
    OnePage(fetch, snapshot, k, after, size);
    HighestIsBounded(fetch, bound, k, after, size);
    if rows != [] {
      OrdersAgreeOnHonoured(fetch, snapshot, size, k + 1, Highest(rows, after), bound);
    }
    OrdersAgreeExactly(fetch, size, k, after, bound);
  }

  // ---- why not by offset

  /** The walk that asks for `size` rows from row number `offset` on; `listings[k]` is the sorted set
      that request number `k` sees. */
  function OffsetWalk(listings: seq<seq<int>>, size: nat, offset: nat): seq<int>
    requires size > 0
    decreases |listings|
  {
    if listings == [] || offset >= |listings[0]| then []
    else
      var page := listings[0][offset..Min(offset + size, |listings[0]|)];
      if |page| < size then page else page + OffsetWalk(listings[1..], size, offset + size)
  }

  /** One id leaving the set behind the cursor makes the offset walk lose an id that never left. */
  lemma OffsetWalkLoses() returns (listings: seq<seq<int>>, id: int)
    ensures forall k | 0 <= k < |listings| :: Ascending(listings[k]) && id in listings[k]
    ensures id !in OffsetWalk(listings, 2, 0)
  {
    listings, id := [[1, 2, 3, 4], [2, 3, 4], [2, 3, 4]], 3;
    assert listings[1..] == [[2, 3, 4], [2, 3, 4]];
    assert OffsetWalk(listings[1..], 2, 2) == [4];
    assert OffsetWalk(listings, 2, 0) == [1, 2] + [4];
  }

  // ---- what is emitted

  /** A row gives its id, unless it has none or the id 0. */
  lemma {:induction false} TargetsAre(rows: seq<Row>, id: int)
    ensures id in Targets(rows) <==> id != 0 && Row(Some(id)) in rows
  {
    if rows != [] {
      assert rows == [rows[0]] + rows[1..];
      TargetsAre(rows[1..], id);
    }
  }

  ghost predicate Answered(fetch: Fetch, size: nat, id: int) {
    exists k, after :: Row(Some(id)) in fetch(k, after, size)
  }

  /** Whatever the source answers, an id that is emitted was answered and is not 0; and the usable ids of the
      first request are all emitted. */
  lemma {:induction false} EmittedAreAnswered(fetch: Fetch, size: nat, k: nat, after: int, bound: int)
    requires Bounded(fetch, bound)
    ensures forall id | id in Walk(fetch, size, k, after, bound).emitted :: id != 0 && Answered(fetch, size, id)
    ensures forall id | id != 0 && Row(Some(id)) in fetch(k, after, size) ::
      id in Walk(fetch, size, k, after, bound).emitted
    decreases bound - after
  {
    hide Targets, Bounded, Highest;
    var rows := fetch(k, after, size);
    WalkStep(fetch, size, k, after, bound);
    forall id
      ensures id in Targets(rows) <==> id != 0 && Row(Some(id)) in rows
    {
      TargetsAre(rows, id);
    }
    var highest := Highest(rows, after);
    if rows != [] && highest > after && |rows| >= size {
      HighestIsBounded(fetch, bound, k, after, size);
      EmittedAreAnswered(fetch, size, k + 1, highest, bound);
    }
  }
}
