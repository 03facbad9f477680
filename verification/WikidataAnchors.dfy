/** The anchor pass: resolving the catalog's own ids to Wikidata entities and persisting the answers,
    batch by batch. A row whose id one entity claims is linked, unless that entity is another item's already;
    rows that nobody claims or several do are counted out. Each batch is committed together with the cursor,
    and a type is walked until its rows or the time budget run out. */
module WikidataAnchors {
  import opened Common
  import opened CursorWalk

  /** A row that links an item to an id of its own source. */
  datatype SourceRow = SourceRow(itemId: int, externalId: string)

  /** The source rows of one type, by row id; an item has at most one. */
  type Table = map<int, SourceRow>

  ghost predicate OneRowPerItem(table: Table) {
    forall a, b | a in table && b in table && table[a].itemId == table[b].itemId :: a == b
  }

  /** The entity each anchored item is linked to. */
  type Anchors = map<Item, string>

  /** Within a type, an entity anchors one item only. */
  ghost predicate OneOwner(anchors: Anchors) {
    forall a, b | a in anchors && b in anchors && a.itemType == b.itemType && anchors[a] == anchors[b] :: a == b
  }

  predicate Claims(anchors: Anchors, item: Item, t: ItemType, qid: string) {
    item in anchors && item.itemType == t && anchors[item] == qid
  }

  /** The item of type `t` that the entity already anchors. */
  function Owner(anchors: Anchors, t: ItemType, qid: string): (owner: Option<Item>)
    requires OneOwner(anchors)
    ensures owner.Some? ==> Claims(anchors, owner.value, t, qid)
    ensures owner.None? ==> forall item | item in anchors :: !Claims(anchors, item, t, qid)
  {
    if exists item :: item in anchors && Claims(anchors, item, t, qid) then
      var item :| item in anchors && Claims(anchors, item, t, qid);
      Some(item)
    else None
  }

  /** The first claim wins; an item that claims a free entity drops the one it had. */
  function Linked(anchors: Anchors, item: Item, qid: string): (after: Anchors)
    requires OneOwner(anchors)
    ensures OneOwner(after)
  {
    if Owner(anchors, item.itemType, qid).Some? then anchors else anchors[item := qid]
  }

  datatype Outcome = Resolved | Missing | Ambiguous | Unlinked

  /** What Wikidata answers for an external id: the entities that carry it. */
  type Resolve = string -> seq<string>

  function OutcomeOf(anchors: Anchors, t: ItemType, row: SourceRow, qids: seq<string>): Outcome
    requires OneOwner(anchors)
  {
    if qids == [] then Missing
    else if |qids| > 1 then Ambiguous
    else
      var owner := Owner(anchors, t, qids[0]);
      if owner.None? || owner.value == Item(t, row.itemId) then Resolved else Unlinked
  }

  function AfterRow(anchors: Anchors, t: ItemType, row: SourceRow, qids: seq<string>): (after: Anchors)
    requires OneOwner(anchors)
    ensures OneOwner(after)
  {
    if |qids| == 1 then Linked(anchors, Item(t, row.itemId), qids[0]) else anchors
  }

  function AfterRows(anchors: Anchors, t: ItemType, rows: seq<SourceRow>, resolve: Resolve): (after: Anchors)
    requires OneOwner(anchors)
    ensures OneOwner(after)
  {
    if rows == [] then anchors
    else
      var last := rows[|rows| - 1];
      AfterRow(AfterRows(anchors, t, rows[..|rows| - 1], resolve), t, last, resolve(last.externalId))
  }

  datatype Counters = Counters(considered: nat, resolved: nat, missing: nat, ambiguous: nat, unlinked: nat) {
    function Count(outcome: Outcome): Counters {
      match outcome
      case Resolved => this.(considered := considered + 1, resolved := resolved + 1)
      case Missing => this.(considered := considered + 1, missing := missing + 1)
      case Ambiguous => this.(considered := considered + 1, ambiguous := ambiguous + 1)
      case Unlinked => this.(considered := considered + 1, unlinked := unlinked + 1)
    }

    function Plus(other: Counters): Counters {
      Counters(considered + other.considered, resolved + other.resolved, missing + other.missing,
               ambiguous + other.ambiguous, unlinked + other.unlinked)
    }

    predicate Partitioned() {
      resolved + missing + ambiguous + unlinked == considered
    }
  }

  const NOTHING: Counters := Counters(0, 0, 0, 0, 0)

  /** The outcome of row `i` when its turn comes. */
  function OutcomeAt(anchors: Anchors, t: ItemType, rows: seq<SourceRow>, resolve: Resolve, i: nat): Outcome
    requires OneOwner(anchors) && i < |rows|
  {
    OutcomeOf(AfterRows(anchors, t, rows[..i], resolve), t, rows[i], resolve(rows[i].externalId))
  }

  function Tally(anchors: Anchors, t: ItemType, rows: seq<SourceRow>, resolve: Resolve): Counters
    requires OneOwner(anchors)
  {
    if rows == [] then NOTHING
    else
      var last := |rows| - 1;
      Tally(anchors, t, rows[..last], resolve).Count(OutcomeAt(anchors, t, rows, resolve, last))
  }

  lemma OneMoreRow(anchors: Anchors, t: ItemType, rows: seq<SourceRow>, row: SourceRow, resolve: Resolve)
    requires OneOwner(anchors)
    ensures var before := AfterRows(anchors, t, rows, resolve);
      && AfterRows(anchors, t, rows + [row], resolve) == AfterRow(before, t, row, resolve(row.externalId))
      && Tally(anchors, t, rows + [row], resolve)
        == Tally(anchors, t, rows, resolve).Count(OutcomeOf(before, t, row, resolve(row.externalId)))
  {
    var more := rows + [row];
    assert more[..|more| - 1] == rows && more[|more| - 1] == row;
  }

  ghost predicate Holds(table: Table, ids: seq<int>) {
    forall i | 0 <= i < |ids| :: ids[i] in table
  }

  function RowsOf(table: Table, ids: seq<int>): (rows: seq<SourceRow>)
    requires Holds(table, ids)
    ensures |rows| == |ids| && forall i | 0 <= i < |ids| :: rows[i] == table[ids[i]]
  {
    seq(|ids|, i requires 0 <= i < |ids| => table[ids[i]])
  }

  /** The rows that a walk of `table` from `after` on handles first. */
  function FirstRows(table: Table, after: int, n: nat): seq<SourceRow>
    requires n <= |All(table.Keys, after)|
  {
    AllAreHeld(table, after);
    RowsOf(table, All(table.Keys, after)[..n])
  }

  lemma AllAreHeld(table: Table, after: int)
    ensures Holds(table, All(table.Keys, after))
  {
    AllIsTheRest(table.Keys, after);
    forall i | 0 <= i < |All(table.Keys, after)|
      ensures All(table.Keys, after)[i] in table
    {
      assert All(table.Keys, after)[i] in All(table.Keys, after);
    }
  }

  class AnchorStore {
    const tables: map<ItemType, Table>
    var anchors: Anchors
    var cursors: map<ItemType, Cursor>

    constructor (tables: map<ItemType, Table>, anchors: Anchors, cursors: map<ItemType, Cursor>)
      ensures this.tables == tables && this.anchors == anchors && this.cursors == cursors
    {
      this.tables, this.anchors, this.cursors := tables, anchors, cursors;
    }

    function TableOf(t: ItemType): Table { TableIn(tables, t) }

    /** One batch: every row linked or counted out, then the cursor, in one commit. */
    method LinkBatch(t: ItemType, rows: seq<SourceRow>, resolve: Resolve, counters: Counters) returns (after: Counters)
      requires OneOwner(anchors)
      modifies this`anchors
      ensures anchors == AfterRows(old(anchors), t, rows, resolve)
      ensures after == counters.Plus(Tally(old(anchors), t, rows, resolve))
    {
      hide AfterRows, AfterRow, Tally, OutcomeOf;
      after := counters;
      NoRows(anchors, t, resolve);
      assert rows[..0] == [];
      for i := 0 to |rows|
        invariant OneOwner(anchors)
        invariant anchors == AfterRows(old(anchors), t, rows[..i], resolve)
        invariant after == counters.Plus(Tally(old(anchors), t, rows[..i], resolve))
      {
        var row := rows[i];
        var qids := resolve(row.externalId);
        OneMoreRow(old(anchors), t, rows[..i], row, resolve);
        assert rows[..i + 1] == rows[..i] + [row];
        after := after.Count(OutcomeOf(anchors, t, row, qids));
        anchors := AfterRow(anchors, t, row, qids);
      }
      assert rows[..|rows|] == rows;
    }

    /** The pass over one type, until its rows or the budget run out. `checks` counts how often the
        clock was looked at before. Whatever the batch size, the rows handled are the next ones of the
        walk, each linked or counted out in order. */
    method WalkType(t: ItemType, batchSize: int, resolve: Resolve, expired: nat -> bool, checks: nat)
      returns (counters: Counters, completed: bool, checked: nat, batches: nat)
      requires OneOwner(anchors)
      modifies this
      ensures Progress(old(anchors), t, TableOf(t), StartOf(old(cursors), t), resolve, anchors, counters)
      ensures completed && batchSize >= 1 ==> counters.considered == |All(TableOf(t).Keys, StartOf(old(cursors), t))|
      ensures cursors == CursorsAfter(old(cursors), t, All(TableOf(t).Keys, StartOf(old(cursors), t)),
                                      counters.considered, completed)
      ensures checked > checks && (completed <==> !expired(checked - 1))
      ensures forall i | checks <= i < checked - 1 :: !expired(i)
      ensures checked == checks + batches + 1
      ensures Walks(TableOf(t).Keys, CursorIn(old(cursors), t), batchSize, batches + (if completed then 1 else 0),
                    counters.considered, CursorIn(cursors, t))
    {
      hide All, Batch, Progress, CursorsAfter, OneOwner, Walks, Underway, CursorIn, Start, Holds;
      var table := TableOf(t);
      var cursor := StartOf(cursors, t);
      ghost var was, wereAt := anchors, cursors;
      counters, completed, checked, batches := NOTHING, true, checks, 0;
      NothingUnderway(was, wereAt, t, table, batchSize, resolve);
      while true
        invariant Underway(was, wereAt, t, table, batchSize, resolve, anchors, cursors, counters, batches)
        invariant completed && checked == checks + batches && cursor == StartOf(cursors, t)
        invariant forall i | checks <= i < checked :: !expired(i)
        invariant counters.considered <= |All(table.Keys, StartOf(wereAt, t))|
        decreases |All(table.Keys, StartOf(wereAt, t))| - counters.considered
      {
        checked := checked + 1;
        if expired(checked - 1) {
          completed := false;
          break;
        }
        var batch := Batch(table.Keys, cursor, batchSize);
        if batch == [] {
          UnderwayEnds(was, wereAt, t, table, batchSize, resolve, anchors, cursors, counters, batches);
          cursors := cursors[t := Cleared];
          return;
        }
        UnderwayOn(was, wereAt, t, table, batchSize, resolve, anchors, cursors, counters, batches);
        batches := batches + 1;
        counters := LinkBatch(t, RowsOf(table, batch), resolve, counters);
        cursor := batch[|batch| - 1];
        cursors := cursors[t := Number(cursor)];
      }
      UnderwayIs(was, wereAt, t, table, batchSize, resolve, anchors, cursors, counters, batches);
    }

    /** The pass over the given types, each in turn; a budget that runs out stops them all. Each type is
        answered by its own property. */
    method RunAnchorPass(types: seq<ItemType>, batchSize: int, resolve: ItemType -> Resolve, expired: nat -> bool)
      returns (total: Counters, perType: map<ItemType, Counters>, completed: bool, ghost checked: nat)
      requires OneOwner(anchors)
      modifies this
      ensures checked >= |types| && (completed <==> forall i | 0 <= i < checked :: !expired(i))
      ensures PassOver(types, tables, old(cursors), cursors, total, perType)
      ensures completed && batchSize >= 1 ==> WholeOf(types, tables, old(cursors), perType)
      ensures completed ==> forall t | t in types :: CursorIn(cursors, t) == Cleared
      ensures OneOwner(anchors)
      ensures Distinct(types) ==> total == Summed(types, perType)
      ensures Distinct(types) && (forall t | t in types :: OneRowPerItem(TableIn(tables, t))) ==>
        PassAnswers(types, tables, resolve, old(anchors), old(cursors), anchors, perType)
    {
      hide All, OneOwner, Progress, CursorsAfter, PassOver, WholeOf, PassDoes, PassAnswers, Summed, OneRowPerItem,
        Distinct;
      total, perType, completed := NOTHING, map[], true;
      var checks := 0;
      ghost var before, first := cursors, anchors;
      NoTypes(tables, before);
      NothingDone(tables, resolve, first, before);
      assert types[..0] == [];
      for i := 0 to |types|
        invariant checks >= i && (completed <==> forall k | 0 <= k < checks :: !expired(k))
        invariant OneOwner(anchors) && PassOver(types[..i], tables, before, cursors, total, perType)
        invariant completed && batchSize >= 1 ==> WholeOf(types[..i], tables, before, perType)
        invariant completed ==> forall t | t in types[..i] :: CursorIn(cursors, t) == Cleared
        invariant Distinct(types) ==> PassDoes(types[..i], tables, resolve, first, before, anchors, perType)
        invariant Distinct(types) ==> total == Summed(types[..i], perType)
      {
        var t := types[i];
        assert types[..i + 1] == types[..i] + [t];
        ghost var was, wereAt := anchors, cursors;
        var counters, done, more, _ := WalkType(t, batchSize, resolve(t), expired, checks);
        ProgressMeans(was, t, TableOf(t), StartOf(wereAt, t), resolve(t), anchors, counters);
        CursorsElsewhere(wereAt, t, All(TableOf(t).Keys, StartOf(wereAt, t)), counters.considered, done);
        OneMoreType(types[..i], t, tables, before, wereAt, cursors, total, perType, counters);
        if Distinct(types) {
          DistinctPrefix(types, i);
          SameStart(types[..i], t, tables, before, wereAt, total, perType);
          PassDoesMore(types[..i], t, tables, resolve, first, before, was, anchors, perType, counters);
          SummedMore(types[..i], t, perType, counters);
        }
        checks := more;
        completed := completed && done;
        perType := perType[t := counters];
        total := total.Plus(counters);
      }
      checked := checks;
      assert types[..|types|] == types;
      if Distinct(types) && forall t | t in types :: OneRowPerItem(TableIn(tables, t)) {
        PassMeans(types, tables, resolve, first, before, anchors, perType);
      }
    }
  }

  function TableIn(tables: map<ItemType, Table>, t: ItemType): Table {
    if t in tables then tables[t] else map[]
  }

  /** The counters of a pass over `types`: a partition in total and for each of them; the cursors of
      the other types have not moved. */
  ghost predicate PassOver(types: seq<ItemType>, tables: map<ItemType, Table>, before: map<ItemType, Cursor>,
                           after: map<ItemType, Cursor>, total: Counters, perType: map<ItemType, Counters>) {
    && total.Partitioned()
    && (forall t | t in perType :: perType[t].Partitioned())
    && (forall t :: t in perType <==> t in types)
    && (forall t | t !in types :: CursorIn(after, t) == CursorIn(before, t))
  }

  /** Each type, unless it was asked for twice, had every row of its table from its cursor on considered. */
  ghost predicate WholeOf(types: seq<ItemType>, tables: map<ItemType, Table>, before: map<ItemType, Cursor>,
                          perType: map<ItemType, Counters>) {
    Distinct(types) ==>
      forall t | t in types :: t in perType
        && perType[t].considered == |All(TableIn(tables, t).Keys, StartOf(before, t))|
  }

  lemma NoTypes(tables: map<ItemType, Table>, before: map<ItemType, Cursor>)
    ensures PassOver([], tables, before, before, NOTHING, map[]) && WholeOf([], tables, before, map[])
  {
  }

  lemma OneMoreType(types: seq<ItemType>, t: ItemType, tables: map<ItemType, Table>, before: map<ItemType, Cursor>,
                    middle: map<ItemType, Cursor>, after: map<ItemType, Cursor>, total: Counters,
                    perType: map<ItemType, Counters>, counters: Counters)
    requires PassOver(types, tables, before, middle, total, perType) && counters.Partitioned()
    requires forall u | u != t :: CursorIn(after, u) == CursorIn(middle, u)
    ensures PassOver(types + [t], tables, before, after, total.Plus(counters), perType[t := counters])
    ensures WholeOf(types, tables, before, perType)
      && counters.considered == |All(TableIn(tables, t).Keys, StartOf(middle, t))|
      ==> WholeOf(types + [t], tables, before, perType[t := counters])
  {
    hide All;
    if Distinct(types + [t]) {
      DistinctPrefix(types + [t], |types|);
      assert (types + [t])[..|types|] == types && (types + [t])[|types|] == t;
    }
  }

  // ---- what a pass over several types does to each of them

  /** The counters of the types together. */
  function Summed(types: seq<ItemType>, perType: map<ItemType, Counters>): Counters {
    if types == [] then NOTHING
    else
      var t := types[|types| - 1];
      Summed(types[..|types| - 1], perType).Plus(if t in perType then perType[t] else NOTHING)
  }

  lemma {:induction false} SummedOthers(types: seq<ItemType>, t: ItemType, perType: map<ItemType, Counters>,
                                        c: Counters)
    requires t !in types
    ensures Summed(types, perType[t := c]) == Summed(types, perType)
  {
    if types != [] {
      var last := |types| - 1;
      assert types[last] in types;
      SummedOthers(types[..last], t, perType, c);
    }
  }

  lemma SummedMore(types: seq<ItemType>, t: ItemType, perType: map<ItemType, Counters>, c: Counters)
    requires t !in types
    ensures Summed(types + [t], perType[t := c]) == Summed(types, perType).Plus(c)
  {
    SummedOthers(types, t, perType, c);
    assert (types + [t])[..|types|] == types;
  }

  /** The items of one type are anchored alike. */
  ghost predicate SameOfType(a: Anchors, b: Anchors, t: ItemType) {
    forall item: Item | item.itemType == t :: SameAnchor(a, b, item)
  }

  lemma OwnersAgree(a: Anchors, b: Anchors, t: ItemType, qid: string)
    requires OneOwner(a) && OneOwner(b) && SameOfType(a, b, t)
    ensures Owner(a, t, qid) == Owner(b, t, qid)
  {
    forall item: Item
      ensures item in a && Claims(a, item, t, qid) <==> item in b && Claims(b, item, t, qid)
    {
      assert item.itemType == t ==> SameAnchor(a, b, item);
    }
  }

  lemma RowAgrees(a: Anchors, b: Anchors, t: ItemType, row: SourceRow, qids: seq<string>)
    requires OneOwner(a) && OneOwner(b) && SameOfType(a, b, t)
    ensures SameOfType(AfterRow(a, t, row, qids), AfterRow(b, t, row, qids), t)
    ensures OutcomeOf(a, t, row, qids) == OutcomeOf(b, t, row, qids)
  {
    hide Owner;
    if |qids| == 1 {
      OwnersAgree(a, b, t, qids[0]);
    }
    forall item: Item | item.itemType == t
      ensures SameAnchor(AfterRow(a, t, row, qids), AfterRow(b, t, row, qids), item)
    {
      assert SameAnchor(a, b, item);
    }
  }

  /** What happens to a type depends on the anchors of that type alone. */
  lemma {:induction false} RowsAgree(a: Anchors, b: Anchors, t: ItemType, rows: seq<SourceRow>, resolve: Resolve)
    requires OneOwner(a) && OneOwner(b) && SameOfType(a, b, t)
    ensures SameOfType(AfterRows(a, t, rows, resolve), AfterRows(b, t, rows, resolve), t)
    ensures Tally(a, t, rows, resolve) == Tally(b, t, rows, resolve)
  {
    hide AfterRows, AfterRow, Tally, OutcomeOf, OneOwner, SameOfType;
    if rows == [] {
      NoRows(a, t, resolve);
      NoRows(b, t, resolve);
    } else {
      var init, last := rows[..|rows| - 1], rows[|rows| - 1];
      assert rows == init + [last];
      RowsAgree(a, b, t, init, resolve);
      OneMoreRow(a, t, init, last, resolve);
      OneMoreRow(b, t, init, last, resolve);
      RowAgrees(AfterRows(a, t, init, resolve), AfterRows(b, t, init, resolve), t, last, resolve(last.externalId));
    }
  }

  lemma RowsElsewhere(anchors: Anchors, t: ItemType, rows: seq<SourceRow>, resolve: Resolve, u: ItemType)
    requires OneOwner(anchors) && u != t
    ensures SameOfType(anchors, AfterRows(anchors, t, rows, resolve), u)
  {
    hide AfterRows;
    forall item: Item | item.itemType == u
      ensures SameAnchor(anchors, AfterRows(anchors, t, rows, resolve), item)
    {
      LaterRowsKeep(anchors, t, rows, resolve, item);
    }
  }

  /** The first rows of one type have been linked or counted out, whatever else has been done. */
  ghost predicate TypeDone(t: ItemType, table: Table, start: int, resolve: Resolve, was: Anchors, now: Anchors,
                           c: Counters)
    requires OneOwner(was)
  {
    && c.considered <= |All(table.Keys, start)|
    && SameOfType(AfterRows(was, t, FirstRows(table, start, c.considered), resolve), now, t)
    && c == Tally(was, t, FirstRows(table, start, c.considered), resolve)
  }

  ghost predicate PassDoes(types: seq<ItemType>, tables: map<ItemType, Table>, resolve: ItemType -> Resolve,
                           was: Anchors, before: map<ItemType, Cursor>, now: Anchors,
                           perType: map<ItemType, Counters>)
    requires OneOwner(was)
  {
    forall t: ItemType ::
      if t in types then
        t in perType && TypeDone(t, TableIn(tables, t), StartOf(before, t), resolve(t), was, now, perType[t])
      else SameOfType(was, now, t)
  }

  lemma NothingDone(tables: map<ItemType, Table>, resolve: ItemType -> Resolve, was: Anchors,
                    before: map<ItemType, Cursor>)
    requires OneOwner(was)
    ensures PassDoes([], tables, resolve, was, before, was, map[]) && NOTHING == Summed([], map[])
  {
    hide TypeDone;
  }

  /** The cursor of a type that has not had its turn is where it was. */
  lemma SameStart(types: seq<ItemType>, t: ItemType, tables: map<ItemType, Table>, before: map<ItemType, Cursor>,
                  wereAt: map<ItemType, Cursor>, total: Counters, perType: map<ItemType, Counters>)
    requires PassOver(types, tables, before, wereAt, total, perType) && t !in types
    ensures StartOf(wereAt, t) == StartOf(before, t)
  {
  }

  lemma PassDoesMore(types: seq<ItemType>, t: ItemType, tables: map<ItemType, Table>, resolve: ItemType -> Resolve,
                     was: Anchors, before: map<ItemType, Cursor>, middle: Anchors, now: Anchors,
                     perType: map<ItemType, Counters>, c: Counters)
    requires OneOwner(was) && t !in types && PassDoes(types, tables, resolve, was, before, middle, perType)
    requires Progress(middle, t, TableIn(tables, t), StartOf(before, t), resolve(t), now, c)
    ensures PassDoes(types + [t], tables, resolve, was, before, now, perType[t := c])
  {
    hide All, OneOwner, FirstRows, AfterRows, Tally, SameOfType, StartOf, TableIn;
    var rows := FirstRows(TableIn(tables, t), StartOf(before, t), c.considered);
    forall u: ItemType
      ensures u == t ==> TypeDone(t, TableIn(tables, t), StartOf(before, t), resolve(t), was, now, c)
      ensures u != t && u in types ==>
        u in perType && TypeDone(u, TableIn(tables, u), StartOf(before, u), resolve(u), was, now, perType[u])
      ensures u != t && u !in types ==> SameOfType(was, now, u)
    {
      if u == t {
        RowsAgree(was, middle, t, rows, resolve(t));
      } else {
        RowsElsewhere(middle, t, rows, resolve(t), u);
        if u in types {
          Alike(AfterRows(was, u, FirstRows(TableIn(tables, u), StartOf(before, u), perType[u].considered), resolve(u)),
                middle, now, u);
        } else {
          Alike(was, middle, now, u);
        }
      }
    }
  }

  lemma Alike(a: Anchors, b: Anchors, c: Anchors, t: ItemType)
    requires SameOfType(a, b, t) && SameOfType(b, c, t)
    ensures SameOfType(a, c, t)
  {
    forall item: Item | item.itemType == t
      ensures SameAnchor(a, c, item)
    {
      assert SameAnchor(a, b, item) && SameAnchor(b, c, item);
    }
  }

  // ---- in terms of the answers and of who ends up anchored

  /** One entity claims the row's id, and the row's item is anchored to it. */
  predicate Given(t: ItemType, row: SourceRow, resolve: Resolve, anchors: Anchors) {
    var qids := resolve(row.externalId);
    |qids| == 1 && Item(t, row.itemId) in anchors && anchors[Item(t, row.itemId)] == qids[0]
  }

  /** One entity claims the row's id, no other item of the type has it, and no other of the rows claims it. */
  ghost predicate Uncontested(t: ItemType, table: Table, ids: seq<int>, id: int, resolve: Resolve, was: Anchors)
    requires Holds(table, ids) && id in table
  {
    var qids := resolve(table[id].externalId);
    && |qids| == 1
    && (forall item | item in was && item.itemType == t && was[item] == qids[0] :: item.itemId == table[id].itemId)
    && (forall i | 0 <= i < |ids| && ids[i] != id :: resolve(table[ids[i]].externalId) != qids)
  }

  /** What the counters of a type say about the rows `ids` that were considered, and what has become of
      the anchors of the type: only rows with one entity get it, all uncontested ones do, and no other
      item's anchor is touched. */
  ghost predicate TypeAnswers(t: ItemType, table: Table, ids: seq<int>, resolve: Resolve, was: Anchors, now: Anchors,
                              c: Counters) {
    && Holds(table, ids)
    && c.considered == |ids| && c.Partitioned()
    && c.missing == |Filter(ids, id => id in table && resolve(table[id].externalId) == [])|
    && c.ambiguous == |Filter(ids, id => id in table && |resolve(table[id].externalId)| > 1)|
    && c.resolved == |Filter(ids, id => id in table && Given(t, table[id], resolve, now))|
    && (forall i | 0 <= i < |ids| && Uncontested(t, table, ids, ids[i], resolve, was) :: Given(t, table[ids[i]],
        resolve, now))
    && (forall i | 0 <= i < |ids| && !Given(t, table[ids[i]], resolve, now) :: SameAnchor(was, now,
        Item(t, table[ids[i]].itemId)))
    && (forall item: Item | item.itemType == t && !IsOf(table, ids, item.itemId) :: SameAnchor(was, now, item))
  }

  ghost predicate IsOf(table: Table, ids: seq<int>, itemId: int) {
    exists i | 0 <= i < |ids| :: ids[i] in table && table[ids[i]].itemId == itemId
  }

  /** Each type is answered by its own property, over the next rows of its own walk; the other types are
      left alone. */
  ghost predicate PassAnswers(types: seq<ItemType>, tables: map<ItemType, Table>, resolve: ItemType -> Resolve,
                              was: Anchors, before: map<ItemType, Cursor>, now: Anchors, perType: map<ItemType,
                                Counters>) {
    && (forall t | t in types :: t in perType
          && perType[t].considered <= |All(TableIn(tables, t).Keys, StartOf(before, t))|)
    && (forall t | t in types ::
          TypeAnswers(t, TableIn(tables, t), All(TableIn(tables, t).Keys, StartOf(before, t))[..perType[t].considered],
                      resolve(t), was, now, perType[t]))
    && (forall item: Item | item.itemType !in types :: SameAnchor(was, now, item))
  }

  lemma PassMeans(types: seq<ItemType>, tables: map<ItemType, Table>, resolve: ItemType -> Resolve, was: Anchors,
                  before: map<ItemType, Cursor>, now: Anchors, perType: map<ItemType, Counters>)
    requires OneOwner(was) && PassDoes(types, tables, resolve, was, before, now, perType)
    requires forall t | t in types :: OneRowPerItem(TableIn(tables, t))
    ensures PassAnswers(types, tables, resolve, was, before, now, perType)
  {
    hide All, OneOwner, AfterRows, FirstRows, Tally, OneRowPerItem, TypeAnswers, TypeDone, StartOf;
    forall t | t in types
      ensures t in perType && perType[t].considered <= |All(TableIn(tables, t).Keys, StartOf(before, t))|
      ensures TypeAnswers(t, TableIn(tables, t),
                          All(TableIn(tables, t).Keys, StartOf(before, t))[..perType[t].considered],
                          resolve(t), was, now, perType[t])
    {
      TypeMeans(t, TableIn(tables, t), StartOf(before, t), resolve(t), was, now, perType[t]);
    }
    forall item: Item | item.itemType !in types
      ensures SameAnchor(was, now, item)
    {
      assert SameOfType(was, now, item.itemType);
    }
  }

  /** The counters of rows, outcome by outcome, by what the rows are answered and who ends anchored. */
  lemma {:induction false} TallyIs(was: Anchors, t: ItemType, table: Table, ids: seq<int>, resolve: Resolve, n: nat)
    requires OneOwner(was) && Holds(table, ids) && n <= |ids|
    requires forall a, b | 0 <= a < b < |ids| :: table[ids[a]].itemId != table[ids[b]].itemId
    ensures Holds(table, ids[..n])
    ensures var c, end := Tally(was, t, RowsOf(table, ids[..n]), resolve),
      AfterRows(was, t, RowsOf(table, ids), resolve);
      && c.missing == |Filter(ids[..n], id => id in table && resolve(table[id].externalId) == [])|
      && c.ambiguous == |Filter(ids[..n], id => id in table && |resolve(table[id].externalId)| > 1)|
      && c.resolved == |Filter(ids[..n], id => id in table && Given(t, table[id], resolve, end))|
  {
    hide AfterRows, Tally, OneOwner, Filter, Given, OutcomeAt;
    var rows, end := RowsOf(table, ids), AfterRows(was, t, RowsOf(table, ids), resolve);
    var missing := (id: int) => id in table && resolve(table[id].externalId) == [];
    var ambiguous := (id: int) => id in table && |resolve(table[id].externalId)| > 1;
    var given := (id: int) => id in table && Given(t, table[id], resolve, end);
    if n == 0 {
      NoRows(was, t, resolve);
      assert RowsOf(table, ids[..0]) == [] && ids[..0] == [];
      FilterNothing(missing);
      FilterNothing(ambiguous);
      FilterNothing(given);
    } else {
      var k := n - 1;
      TallyIs(was, t, table, ids, resolve, k);
      assert ids[..n] == ids[..k] + [ids[k]];
      assert RowsOf(table, ids[..n]) == RowsOf(table, ids[..k]) + [rows[k]];
      TallyOfOne(was, t, rows, resolve, k);
      assert rows[..k] == RowsOf(table, ids[..k]);
      FilterLast(ids[..k], ids[k], missing);
      FilterLast(ids[..k], ids[k], ambiguous);
      FilterLast(ids[..k], ids[k], given);
    }
  }

  lemma FilterNothing(p: int -> bool)
    ensures Filter([], p) == []
  {
  }

  lemma FilterLast(ids: seq<int>, id: int, p: int -> bool)
    ensures |Filter(ids + [id], p)| == |Filter(ids, p)| + if p(id) then 1 else 0
  {
    hide Filter;
    FilterAround(ids, id, [], p);
    FilterNothing(p);
    assert ids + [id] + [] == ids + [id];
  }

  /** One row more counts under what it is answered and whether its item ends anchored to it. */
  lemma TallyOfOne(was: Anchors, t: ItemType, rows: seq<SourceRow>, resolve: Resolve, k: nat)
    requires OneOwner(was) && k < |rows|
    requires forall a, b | 0 <= a < b < |rows| :: rows[a].itemId != rows[b].itemId
    ensures var c, more := Tally(was, t, rows[..k], resolve), Tally(was, t, rows[..k] + [rows[k]], resolve);
      var qids, end := resolve(rows[k].externalId), AfterRows(was, t, rows, resolve);
      && more.missing == c.missing + (if qids == [] then 1 else 0)
      && more.ambiguous == c.ambiguous + (if |qids| > 1 then 1 else 0)
      && more.resolved == c.resolved + (if Given(t, rows[k], resolve, end) then 1 else 0)
  {
    hide AfterRows, Tally, OneOwner, OutcomeOf;
    OneMoreRow(was, t, rows[..k], rows[k], resolve);
    ResolvedMeansLinked(was, t, rows, resolve, k);
  }

  /** An entity nobody of the type has, and none of the rows claims, stays with nobody. */
  lemma {:induction false} NobodyTakes(was: Anchors, t: ItemType, rows: seq<SourceRow>, resolve: Resolve, qid: string,
                                       item: Item)
    requires OneOwner(was) && forall i | 0 <= i < |rows| :: resolve(rows[i].externalId) != [qid]
    ensures var end := AfterRows(was, t, rows, resolve);
      item in end && item.itemType == t && end[item] == qid ==> item in was && was[item] == qid
  {
    hide OneOwner, Owner;
    if rows != [] {
      var last := |rows| - 1;
      NobodyTakes(was, t, rows[..last], resolve, qid, item);
      assert |resolve(rows[last].externalId)| == 1 ==>
        resolve(rows[last].externalId) == [resolve(rows[last].externalId)[0]];
    }
  }

  lemma UncontestedIsGiven(was: Anchors, t: ItemType, table: Table, ids: seq<int>, resolve: Resolve, i: nat)
    requires OneOwner(was) && Holds(table, ids) && i < |ids| && Distinct(ids)
    requires forall a, b | 0 <= a < b < |ids| :: table[ids[a]].itemId != table[ids[b]].itemId
    requires Uncontested(t, table, ids, ids[i], resolve, was)
    ensures Given(t, table[ids[i]], resolve, AfterRows(was, t, RowsOf(table, ids), resolve))
  {
    hide AfterRows, OneOwner, Owner;
    var rows := RowsOf(table, ids);
    var qids, now := resolve(rows[i].externalId), AfterRows(was, t, rows[..i], resolve);
    assert qids == [qids[0]];
    forall item | item in now && Claims(now, item, t, qids[0])
      ensures item == Item(t, rows[i].itemId)
    {
      NobodyTakes(was, t, rows[..i], resolve, qids[0], item);
    }
    ResolvedMeansLinked(was, t, rows, resolve, i);
    OwnerClaims(now, t, qids[0]);
    assert OutcomeAt(was, t, rows, resolve, i) == Resolved;
  }

  lemma OwnerClaims(anchors: Anchors, t: ItemType, qid: string)
    requires OneOwner(anchors)
    ensures var owner := Owner(anchors, t, qid);
      owner.Some? ==> owner.value in anchors && Claims(anchors, owner.value, t, qid)
  {
  }

  lemma TypeMeans(t: ItemType, table: Table, start: int, resolve: Resolve, was: Anchors, now: Anchors, c: Counters)
    requires OneOwner(was) && TypeDone(t, table, start, resolve, was, now, c) && OneRowPerItem(table)
    ensures c.considered <= |All(table.Keys, start)|
    ensures TypeAnswers(t, table, All(table.Keys, start)[..c.considered], resolve, was, now, c)
  {
    hide All, OneOwner, AfterRows, Tally, OneRowPerItem, Filter, Uncontested, Owner, Given, SameOfType, SameAnchor,
      RowsOf,
      IsOf, Counters.Partitioned;
    var ids := All(table.Keys, start)[..c.considered];
    AllAreHeld(table, start);
    assert RowsOf(table, ids) == FirstRows(table, start, c.considered);
    FirstRowsAreDistinct(table, start, c.considered);
    DistinctIds(table, start, c.considered);
    TypeCounts(t, table, ids, resolve, was, now);
    TypeAnchors(t, table, ids, resolve, was, now);
  }

  lemma TypeCounts(t: ItemType, table: Table, ids: seq<int>, resolve: Resolve, was: Anchors, now: Anchors)
    requires OneOwner(was) && Holds(table, ids)
    requires forall a, b | 0 <= a < b < |ids| :: table[ids[a]].itemId != table[ids[b]].itemId
    requires SameOfType(AfterRows(was, t, RowsOf(table, ids), resolve), now, t)
    ensures var c := Tally(was, t, RowsOf(table, ids), resolve);
      && c.considered == |ids| && c.Partitioned()
      && c.missing == |Filter(ids, id => id in table && resolve(table[id].externalId) == [])|
      && c.ambiguous == |Filter(ids, id => id in table && |resolve(table[id].externalId)| > 1)|
      && c.resolved == |Filter(ids, id => id in table && Given(t, table[id], resolve, now))|
  {
    hide OneOwner, AfterRows, Tally, Filter, Given, SameOfType;
    var end := AfterRows(was, t, RowsOf(table, ids), resolve);
    TallyPartitions(was, t, RowsOf(table, ids), resolve);
    assert ids[..|ids|] == ids;
    TallyIs(was, t, table, ids, resolve, |ids|);
    forall id | id in table
      ensures Given(t, table[id], resolve, end) <==> Given(t, table[id], resolve, now)
    {
      GivenAlike(t, table[id], resolve, end, now);
    }
    SameFilter(ids, id => id in table && Given(t, table[id], resolve, end),
               id => id in table && Given(t, table[id], resolve, now));
  }

  lemma GivenAlike(t: ItemType, row: SourceRow, resolve: Resolve, a: Anchors, b: Anchors)
    requires SameOfType(a, b, t)
    ensures Given(t, row, resolve, a) <==> Given(t, row, resolve, b)
  {
    assert SameAnchor(a, b, Item(t, row.itemId));
  }

  lemma TypeAnchors(t: ItemType, table: Table, ids: seq<int>, resolve: Resolve, was: Anchors, now: Anchors)
    requires OneOwner(was) && Holds(table, ids) && Distinct(ids)
    requires forall a, b | 0 <= a < b < |ids| :: table[ids[a]].itemId != table[ids[b]].itemId
    requires SameOfType(AfterRows(was, t, RowsOf(table, ids), resolve), now, t)
    ensures forall i | 0 <= i < |ids| && Uncontested(t, table, ids, ids[i], resolve, was) ::
      Given(t, table[ids[i]], resolve, now)
    ensures forall i | 0 <= i < |ids| && !Given(t, table[ids[i]], resolve, now) ::
      SameAnchor(was, now, Item(t, table[ids[i]].itemId))
    ensures forall item: Item | item.itemType == t && !IsOf(table, ids, item.itemId) :: SameAnchor(was, now, item)
  {
    hide OneOwner, AfterRows, Uncontested, Given, SameOfType, SameAnchor;
    var rows := RowsOf(table, ids);
    var end := AfterRows(was, t, rows, resolve);
    forall i | 0 <= i < |ids| && Uncontested(t, table, ids, ids[i], resolve, was)
      ensures Given(t, table[ids[i]], resolve, now)
    {
      UncontestedIsGiven(was, t, table, ids, resolve, i);
      GivenAlike(t, rows[i], resolve, end, now);
    }
    forall i | 0 <= i < |ids| && !Given(t, table[ids[i]], resolve, now)
      ensures SameAnchor(was, now, Item(t, table[ids[i]].itemId))
    {
      GivenAlike(t, rows[i], resolve, end, now);
      NotGivenKeeps(was, t, rows, resolve, i);
      AlikeAt(was, end, now, Item(t, rows[i].itemId));
    }
    forall item: Item | item.itemType == t && !IsOf(table, ids, item.itemId)
      ensures SameAnchor(was, now, item)
    {
      KeepsOthers(was, t, rows, resolve, item);
      AlikeAt(was, end, now, item);
    }
  }

  lemma NotGivenKeeps(was: Anchors, t: ItemType, rows: seq<SourceRow>, resolve: Resolve, i: nat)
    requires OneOwner(was) && i < |rows|
    requires forall a, b | 0 <= a < b < |rows| :: rows[a].itemId != rows[b].itemId
    requires !Given(t, rows[i], resolve, AfterRows(was, t, rows, resolve))
    ensures SameAnchor(was, AfterRows(was, t, rows, resolve), Item(t, rows[i].itemId))
  {
    hide OneOwner, AfterRows, SameAnchor;
    ResolvedMeansLinked(was, t, rows, resolve, i);
  }

  lemma KeepsOthers(was: Anchors, t: ItemType, rows: seq<SourceRow>, resolve: Resolve, item: Item)
    requires OneOwner(was) && forall i | 0 <= i < |rows| :: item != Item(t, rows[i].itemId)
    ensures SameAnchor(was, AfterRows(was, t, rows, resolve), item)
  {
    hide OneOwner, AfterRows;
    LaterRowsKeep(was, t, rows, resolve, item);
  }

  lemma AlikeAt(a: Anchors, b: Anchors, c: Anchors, item: Item)
    requires SameAnchor(a, b, item) && SameOfType(b, c, item.itemType)
    ensures SameAnchor(a, c, item)
  {
    assert SameAnchor(b, c, item);
  }

  lemma DistinctIds(table: Table, start: int, n: nat)
    requires n <= |All(table.Keys, start)|
    ensures Distinct(All(table.Keys, start)[..n])
  {
    hide All;
    AllIsTheRest(table.Keys, start);
  }

  lemma {:induction false} SameFilter(ids: seq<int>, p: int -> bool, q: int -> bool)
    requires forall id :: p(id) == q(id)
    ensures Filter(ids, p) == Filter(ids, q)
  {
    if ids != [] {
      SameFilter(ids[1..], p, q);
    }
  }

  function Chosen(ids: set<int>, p: int -> bool): set<int> {
    set id | id in ids && p(id)
  }

  function Members(ids: seq<int>): set<int> {
    set id | id in ids
  }

  lemma ChosenAndOneMore(ids: set<int>, x: int, p: int -> bool)
    requires x !in ids
    ensures |Chosen(ids + {x}, p)| == |Chosen(ids, p)| + if p(x) then 1 else 0
  {
    if p(x) {
      assert Chosen(ids + {x}, p) == Chosen(ids, p) + {x};
    } else {
      assert Chosen(ids + {x}, p) == Chosen(ids, p);
    }
  }

  lemma {:induction false} FilterIsSet(ids: seq<int>, p: int -> bool)
    requires Distinct(ids)
    ensures |Filter(ids, p)| == |Chosen(Members(ids), p)|
  {
    hide Chosen;
    if ids == [] {
      assert Chosen(Members(ids), p) == {} by {
        NothingChosen(p);
      }
    } else {
      assert ids == [ids[0]] + ids[1..];
      DistinctTail(ids);
      FilterIsSet(ids[1..], p);
      assert Members(ids) == Members(ids[1..]) + {ids[0]};
      ChosenAndOneMore(Members(ids[1..]), ids[0], p);
    }
  }

  lemma NothingChosen(p: int -> bool)
    ensures Chosen({}, p) == {} && Members([]) == {}
  {
  }

  /** The rows of a table above the cursor of its walk. */
  function RowsAbove(tables: map<ItemType, Table>, before: map<ItemType, Cursor>, t: ItemType): set<int>
    requires t in tables
  {
    var start := if t in before && before[t].Number? then before[t].id else 0;
    set id | id in tables[t] && id > start
  }

  /** A type's counters count its rows by how many entities they were given. */
  ghost predicate CountsRows(t: ItemType, table: Table, rows: set<int>, resolve: Resolve, now: Anchors, c: Counters)
    requires rows <= table.Keys
  {
    && c.considered == |rows|
    && c.missing == |set id | id in rows && resolve(table[id].externalId) == []|
    && c.ambiguous == |set id | id in rows && |resolve(table[id].externalId)| > 1|
    && c.resolved == |set id | id in rows && Given(t, table[id], resolve, now)|
  }

  lemma RowsCounted(t: ItemType, table: Table, start: int, resolve: Resolve, was: Anchors, now: Anchors, c: Counters)
    requires TypeAnswers(t, table, All(table.Keys, start), resolve, was, now, c)
    ensures CountsRows(t, table, (set id | id in table && id > start), resolve, now, c)
  {
    hide All, Filter, Given, Chosen, Members, CountsRows, Distinct;
    var ids, rows := All(table.Keys, start), set id | id in table && id > start;
    RowsOfWalk(table, start);
    FilterIsSet(ids, id => id in table && resolve(table[id].externalId) == []);
    FilterIsSet(ids, id => id in table && |resolve(table[id].externalId)| > 1);
    FilterIsSet(ids, id => id in table && Given(t, table[id], resolve, now));
    FilterIsSet(ids, id => true);
    EveryoneCounts(ids);
    ChosenAreRows(t, table, rows, resolve, now, c);
  }

  lemma RowsOfWalk(table: Table, start: int)
    ensures Distinct(All(table.Keys, start))
    ensures Members(All(table.Keys, start)) == set id | id in table && id > start
  {
    hide All;
    AllIsTheRest(table.Keys, start);
    var all, rows := Members(All(table.Keys, start)), set id | id in table && id > start;
    forall id
      ensures id in all <==> id in rows
    {
      assert id in table.Keys <==> id in table;
    }
  }

  lemma {:induction false} EveryoneCounts(ids: seq<int>)
    ensures |Filter(ids, id => true)| == |ids|
  {
    if ids != [] {
      EveryoneCounts(ids[1..]);
    }
  }

  lemma ChosenAreRows(t: ItemType, table: Table, rows: set<int>, resolve: Resolve, now: Anchors, c: Counters)
    requires rows <= table.Keys
    requires c.considered == |Chosen(rows, id => true)|
    requires c.missing == |Chosen(rows, id => id in table && resolve(table[id].externalId) == [])|
    requires c.ambiguous == |Chosen(rows, id => id in table && |resolve(table[id].externalId)| > 1)|
    requires c.resolved == |Chosen(rows, id => id in table && Given(t, table[id], resolve, now))|
    ensures CountsRows(t, table, rows, resolve, now, c)
  {
    hide Given;
    assert Chosen(rows, id => true) == rows;
    assert Chosen(rows, id => id in table && resolve(table[id].externalId) == [])
        == set id | id in rows && resolve(table[id].externalId) == [];
    assert Chosen(rows, id => id in table && |resolve(table[id].externalId)| > 1)
        == set id | id in rows && |resolve(table[id].externalId)| > 1;
    assert Chosen(rows, id => id in table && Given(t, table[id], resolve, now))
        == set id | id in rows && Given(t, table[id], resolve, now);
  }

  /** Main result on a pass. A row above its type's cursor whose id its own property gives to one entity,
      free in that type and claimed by no other such row, ends anchored to it when the pass over distinct
      types completes, and a type's counters count its rows by how many entities they were given. */
  lemma CompletedPassAnchors(types: seq<ItemType>, tables: map<ItemType, Table>, resolve: ItemType -> Resolve,
                             was: Anchors, before: map<ItemType, Cursor>, now: Anchors,
                             perType: map<ItemType, Counters>, t: ItemType, id: int)
    requires Distinct(types) && t in types && t in tables && id in RowsAbove(tables, before, t)
    requires PassAnswers(types, tables, resolve, was, before, now, perType) && WholeOf(types, tables, before, perType)
    ensures var table, rows := tables[t], RowsAbove(tables, before, t);
      var qids, item := resolve(t)(table[id].externalId), Item(t, table[id].itemId);
      && (|qids| == 1
          && (forall other | other in was && other.itemType == t && was[other] == qids[0] :: other == item)
          && (forall k | k in rows && k != id :: resolve(t)(table[k].externalId) != qids)
          ==> item in now && now[item] == qids[0])
      && (|qids| != 1 ==> SameAnchor(was, now, item))
      && CountsRows(t, table, rows, resolve(t), now, perType[t])
  {
    hide All, CountsRows, SameAnchor, TypeAnswers, StartOf;
    var table, start := tables[t], StartOf(before, t);
    WholeTypeAnswers(types, tables, resolve, was, before, now, perType, t);
    RowsCounted(t, table, start, resolve(t), was, now, perType[t]);
    assert RowsAbove(tables, before, t) == set k | k in table && k > start by {
      AboveIsAbove(tables, before, t);
    }
    RowAnswered(t, table, start, resolve(t), was, now, perType[t], id);
  }

  lemma AboveIsAbove(tables: map<ItemType, Table>, before: map<ItemType, Cursor>, t: ItemType)
    requires t in tables
    ensures RowsAbove(tables, before, t) == set k | k in tables[t] && k > StartOf(before, t)
  {
  }

  lemma WholeTypeAnswers(types: seq<ItemType>, tables: map<ItemType, Table>, resolve: ItemType -> Resolve,
                         was: Anchors, before: map<ItemType, Cursor>, now: Anchors,
                         perType: map<ItemType, Counters>, t: ItemType)
    requires Distinct(types) && t in types && t in tables
    requires PassAnswers(types, tables, resolve, was, before, now, perType) && WholeOf(types, tables, before, perType)
    ensures t in perType
    ensures TypeAnswers(t, tables[t], All(tables[t].Keys, StartOf(before, t)), resolve(t), was, now, perType[t])
  {
    hide All, TypeAnswers, StartOf;
    var all := All(tables[t].Keys, StartOf(before, t));
    assert all[..|all|] == all;
  }

  lemma RowAnswered(t: ItemType, table: Table, start: int, resolve: Resolve, was: Anchors, now: Anchors, c: Counters,
                    id: int)
    requires TypeAnswers(t, table, All(table.Keys, start), resolve, was, now, c) && id in table && id > start
    ensures var qids, item := resolve(table[id].externalId), Item(t, table[id].itemId);
      && (|qids| == 1
          && (forall other | other in was && other.itemType == t && was[other] == qids[0] :: other == item)
          && (forall k | k in table && k > start && k != id :: resolve(table[k].externalId) != qids)
          ==> item in now && now[item] == qids[0])
      && (|qids| != 1 ==> SameAnchor(was, now, item))
  {
    hide All, Filter, SameAnchor;
    var all := All(table.Keys, start);
    AllIsTheRest(table.Keys, start);
    var i :| 0 <= i < |all| && all[i] == id;
    forall j | 0 <= j < |all|
      ensures all[j] in table && all[j] > start
    {
      assert all[j] in all;
    }
  }

  function CursorIn(cursors: map<ItemType, Cursor>, t: ItemType): Cursor {
    if t in cursors then cursors[t] else Absent
  }

  /** A walk under way, from the anchors and the cursors it began with. */
  ghost predicate Underway(was: Anchors, wereAt: map<ItemType, Cursor>, t: ItemType, table: Table, batchSize: int,
                           resolve: Resolve, anchors: Anchors, cursors: map<ItemType, Cursor>, counters: Counters,
                           batches: nat) {
    var all := All(table.Keys, StartOf(wereAt, t));
    && Progress(was, t, table, StartOf(wereAt, t), resolve, anchors, counters)
    && counters.considered <= |all| && All(table.Keys, StartOf(cursors, t)) == all[counters.considered..]
    && cursors == CursorsAfter(wereAt, t, all, counters.considered, false)
    && Walks(table.Keys, CursorIn(wereAt, t), batchSize, batches, counters.considered, CursorIn(cursors, t))
  }

  lemma NothingUnderway(was: Anchors, wereAt: map<ItemType, Cursor>, t: ItemType, table: Table, batchSize: int,
                        resolve: Resolve)
    requires OneOwner(was)
    ensures Underway(was, wereAt, t, table, batchSize, resolve, was, wereAt, NOTHING, 0)
    ensures OneOwner(was)
  {
    hide All, Progress, OneOwner, Walks, CursorIn, Start;
    NoProgress(was, t, table, StartOf(wereAt, t), resolve);
    NothingWalked(table.Keys, CursorIn(wereAt, t), batchSize);
    assert All(table.Keys, StartOf(wereAt, t))[0..] == All(table.Keys, StartOf(wereAt, t));
  }

  lemma UnderwayIs(was: Anchors, wereAt: map<ItemType, Cursor>, t: ItemType, table: Table, batchSize: int,
                   resolve: Resolve, anchors: Anchors, cursors: map<ItemType, Cursor>, counters: Counters, batches: nat)
    requires Underway(was, wereAt, t, table, batchSize, resolve, anchors, cursors, counters, batches)
    ensures Progress(was, t, table, StartOf(wereAt, t), resolve, anchors, counters)
    ensures cursors == CursorsAfter(wereAt, t, All(table.Keys, StartOf(wereAt, t)), counters.considered, false)
    ensures Walks(table.Keys, CursorIn(wereAt, t), batchSize, batches, counters.considered, CursorIn(cursors, t))
  {
    hide All, Progress, OneOwner, Walks, CursorsAfter;
  }

  /** A walk under way that finds no more rows has ended. */
  lemma UnderwayEnds(was: Anchors, wereAt: map<ItemType, Cursor>, t: ItemType, table: Table, batchSize: int,
                     resolve: Resolve, anchors: Anchors, cursors: map<ItemType, Cursor>, counters: Counters,
                     batches: nat)
    requires Underway(was, wereAt, t, table, batchSize, resolve, anchors, cursors, counters, batches)
    requires Batch(table.Keys, StartOf(cursors, t), batchSize) == []
    ensures var all, after := All(table.Keys, StartOf(wereAt, t)), cursors[t := Cleared];
      && Progress(was, t, table, StartOf(wereAt, t), resolve, anchors, counters)
      && after == CursorsAfter(wereAt, t, all, counters.considered, true)
      && (batchSize >= 1 ==> counters.considered == |all|)
      && Walks(table.Keys, CursorIn(wereAt, t), batchSize, batches + 1, counters.considered, CursorIn(after, t))
  {
    hide All, Batch, Progress, OneOwner, Walks, CursorsAfter, Start;
    var all := All(table.Keys, StartOf(wereAt, t));
    BatchIsNext(table.Keys, StartOf(cursors, t), batchSize, all, counters.considered);
    CursorsStep(wereAt, t, all, counters.considered);
    WalkEnds(table.Keys, CursorIn(wereAt, t), batchSize, batches, counters.considered, CursorIn(cursors, t));
    CursorMoves(cursors, t, Cleared);
  }

  /** A walk under way that links its next batch is still under way. */
  lemma UnderwayOn(was: Anchors, wereAt: map<ItemType, Cursor>, t: ItemType, table: Table, batchSize: int,
                   resolve: Resolve, anchors: Anchors, cursors: map<ItemType, Cursor>, counters: Counters, batches: nat)
    requires Underway(was, wereAt, t, table, batchSize, resolve, anchors, cursors, counters, batches)
    requires Batch(table.Keys, StartOf(cursors, t), batchSize) != []
    ensures OneOwner(anchors) && Holds(table, Batch(table.Keys, StartOf(cursors, t), batchSize))
    ensures var batch := Batch(table.Keys, StartOf(cursors, t), batchSize);
      var last, rows := batch[|batch| - 1], RowsOf(table, batch);
      var after, more := AfterRows(anchors, t, rows, resolve), counters.Plus(Tally(anchors, t, rows, resolve));
      && Underway(was, wereAt, t, table, batchSize, resolve, after, cursors[t := Number(last)], more, batches + 1)
      && counters.considered < more.considered <= |All(table.Keys, StartOf(wereAt, t))|
      && StartOf(cursors[t := Number(last)], t) == last
  {
    hide All, Batch, Progress, OneOwner, Walks, CursorsAfter, AfterRows, Tally, Holds, RowsOf, Counters.Plus, StartOf,
      CursorIn;
    var batch := Batch(table.Keys, StartOf(cursors, t), batchSize);
    CursorOn(wereAt, t, table.Keys, batchSize, cursors, counters.considered, batches);
    BatchIsHeld(table, StartOf(cursors, t), batchSize);
    MoreProgress(was, t, table, StartOf(wereAt, t), resolve, anchors, counters, batch);
  }

  /** Where the cursor and the walk are after one more batch. */
  lemma CursorOn(wereAt: map<ItemType, Cursor>, t: ItemType, ids: set<int>, batchSize: int,
                 cursors: map<ItemType, Cursor>, read: nat, batches: nat)
    requires var all := All(ids, StartOf(wereAt, t));
      && read <= |all| && All(ids, StartOf(cursors, t)) == all[read..]
      && cursors == CursorsAfter(wereAt, t, all, read, false)
      && Walks(ids, CursorIn(wereAt, t), batchSize, batches, read, CursorIn(cursors, t))
    requires Batch(ids, StartOf(cursors, t), batchSize) != []
    ensures var all, batch := All(ids, StartOf(wereAt, t)), Batch(ids, StartOf(cursors, t), batchSize);
      var last, next := batch[|batch| - 1], read + |batch|;
      var after := cursors[t := Number(last)];
      && next <= |all| && batch == all[read..next]
      && All(ids, StartOf(after, t)) == all[next..] && StartOf(after, t) == last
      && after == CursorsAfter(wereAt, t, all, next, false)
      && Walks(ids, CursorIn(wereAt, t), batchSize, batches + 1, next, CursorIn(after, t))
  {
    hide All, Batch, Walks, CursorsAfter, CursorIn, Start;
    var all, batch := All(ids, StartOf(wereAt, t)), Batch(ids, StartOf(cursors, t), batchSize);
    BatchIsNext(ids, StartOf(cursors, t), batchSize, all, read);
    WalksOn(ids, CursorIn(wereAt, t), batchSize, batches, read, CursorIn(cursors, t));
    CursorsStep(wereAt, t, all, read);
    CursorMoves(cursors, t, Number(batch[|batch| - 1]));
    NumberStarts(batch[|batch| - 1]);
  }

  lemma CursorMoves(cursors: map<ItemType, Cursor>, t: ItemType, cursor: Cursor)
    ensures CursorIn(cursors[t := cursor], t) == cursor
  {
  }

  function StartOf(cursors: map<ItemType, Cursor>, t: ItemType): int {
    Start(CursorIn(cursors, t))
  }

  /** Where the cursors are after the first `considered` rows of a walk over `all`. */
  function CursorsAfter(cursors: map<ItemType, Cursor>, t: ItemType, all: seq<int>, considered: nat,
                        completed: bool): map<ItemType, Cursor> {
    if completed then cursors[t := Cleared]
    else if 0 < considered <= |all| then cursors[t := Number(all[considered - 1])]
    else cursors
  }

  lemma CursorsStep(cursors: map<ItemType, Cursor>, t: ItemType, all: seq<int>, considered: nat)
    requires considered <= |all|
    ensures CursorsAfter(cursors, t, all, considered, false)
         == if considered == 0 then cursors else cursors[t := Number(all[considered - 1])]
    ensures CursorsAfter(cursors, t, all, considered, false)[t := Cleared]
      == CursorsAfter(cursors, t, all, considered, true)
    ensures forall next | considered < next <= |all| ::
      CursorsAfter(cursors, t, all, considered, false)[t := Number(all[next - 1])]
        == CursorsAfter(cursors, t, all, next, false)
  {
  }

  lemma CursorsElsewhere(cursors: map<ItemType, Cursor>, t: ItemType, all: seq<int>, considered: nat, completed: bool)
    ensures var after := CursorsAfter(cursors, t, all, considered, completed);
      (completed ==> CursorIn(after, t) == Cleared) && forall u | u != t :: CursorIn(after, u) == CursorIn(cursors, u)
  {
  }

  /** The first `counters.considered` rows of the walk have been linked or counted out. */
  ghost predicate Progress(was: Anchors, t: ItemType, table: Table, start: int, resolve: Resolve, anchors: Anchors,
                           counters: Counters) {
    && OneOwner(was)
    && counters.considered <= |All(table.Keys, start)|
    && anchors == AfterRows(was, t, FirstRows(table, start, counters.considered), resolve)
    && counters == Tally(was, t, FirstRows(table, start, counters.considered), resolve)
  }

  lemma NoProgress(was: Anchors, t: ItemType, table: Table, start: int, resolve: Resolve)
    requires OneOwner(was)
    ensures Progress(was, t, table, start, resolve, was, NOTHING)
  {
    hide AfterRows, Tally, OneOwner, All;
    NoRows(was, t, resolve);
    assert FirstRows(table, start, 0) == [];
  }

  lemma MoreProgress(was: Anchors, t: ItemType, table: Table, start: int, resolve: Resolve, anchors: Anchors,
                     counters: Counters, batch: seq<int>)
    requires Progress(was, t, table, start, resolve, anchors, counters) && Holds(table, batch)
    requires counters.considered + |batch| <= |All(table.Keys, start)|
    requires batch == All(table.Keys, start)[counters.considered..counters.considered + |batch|]
    ensures OneOwner(anchors)
    ensures var after, more := AfterRows(anchors, t, RowsOf(table, batch), resolve),
      counters.Plus(Tally(anchors, t, RowsOf(table, batch), resolve));
      Progress(was, t, table, start, resolve, after, more) && more.considered == counters.considered + |batch|
  {
    hide AfterRows, Tally, OneOwner, All, FirstRows, RowsOf, Holds;
    MoreRows(was, t, table, start, counters.considered, batch, resolve);
  }

  lemma ProgressMeans(was: Anchors, t: ItemType, table: Table, start: int, resolve: Resolve, anchors: Anchors,
                      counters: Counters)
    requires Progress(was, t, table, start, resolve, anchors, counters)
    ensures OneOwner(anchors) && counters.Partitioned() && counters.considered <= |All(table.Keys, start)|
  {
    hide AfterRows, Tally, OneOwner, All, FirstRows;
    TallyPartitions(was, t, FirstRows(table, start, counters.considered), resolve);
  }

  lemma BatchIsHeld(table: Table, cursor: int, limit: int)
    ensures Holds(table, Batch(table.Keys, cursor, limit))
  {
    hide All;
    AllAreHeld(table, cursor);
  }

  lemma NoRows(anchors: Anchors, t: ItemType, resolve: Resolve)
    requires OneOwner(anchors)
    ensures AfterRows(anchors, t, [], resolve) == anchors && Tally(anchors, t, [], resolve) == NOTHING
  {
  }

  lemma BatchIsNext(ids: set<int>, cursor: int, limit: int, all: seq<int>, done: nat)
    requires done <= |all| && All(ids, cursor) == all[done..]
    ensures var batch := Batch(ids, cursor, limit);
      && done + |batch| <= |all| && batch == all[done..done + |batch|]
      && (batch == [] && limit >= 1 ==> done == |all|)
      && |batch| == (if limit <= 0 then 0 else Min(limit, |all| - done))
      && (batch != [] ==>
            All(ids, batch[|batch| - 1]) == all[done + |batch|..] && batch[|batch| - 1] == all[done + |batch| - 1])
  {
    hide All;
    var batch := Batch(ids, cursor, limit);
    if batch != [] {
      AllSplits(ids, cursor, |batch|);
      assert all[done..][|batch|..] == all[done + |batch|..];
    }
  }

  /** Linking the next batch continues where the rows before it left off. */
  lemma MoreRows(anchors: Anchors, t: ItemType, table: Table, start: int, done: nat, batch: seq<int>, resolve: Resolve)
    requires OneOwner(anchors) && Holds(table, batch)
    requires done + |batch| <= |All(table.Keys, start)| && batch == All(table.Keys, start)[done..done + |batch|]
    ensures var first, more := FirstRows(table, start, done), RowsOf(table, batch);
      var all := FirstRows(table, start, done + |batch|);
      && AfterRows(anchors, t, all, resolve) == AfterRows(AfterRows(anchors, t, first, resolve), t, more, resolve)
      && Tally(anchors, t, all, resolve)
        == Tally(anchors, t, first, resolve).Plus(Tally(AfterRows(anchors, t, first, resolve), t, more, resolve))
      && Tally(anchors, t, all, resolve).considered == done + |batch|
  {
    hide All, AfterRows, Tally;
    var first, more := FirstRows(table, start, done), RowsOf(table, batch);
    assert FirstRows(table, start, done + |batch|) == first + more;
    RowsConcat(anchors, t, first, more, resolve);
    TallyPartitions(anchors, t, first + more, resolve);
  }

  lemma {:induction false} RowsConcat(anchors: Anchors, t: ItemType, a: seq<SourceRow>, b: seq<SourceRow>,
                                      resolve: Resolve)
    requires OneOwner(anchors)
    ensures var half := AfterRows(anchors, t, a, resolve);
      && AfterRows(anchors, t, a + b, resolve) == AfterRows(half, t, b, resolve)
      && Tally(anchors, t, a + b, resolve) == Tally(anchors, t, a, resolve).Plus(Tally(half, t, b, resolve))
    decreases |b|
  {
    hide AfterRows, AfterRow, Tally, OutcomeOf, OneOwner;
    var half := AfterRows(anchors, t, a, resolve);
    if b == [] {
      assert a + b == a;
      NoRows(half, t, resolve);
    } else {
      var init, last := b[..|b| - 1], b[|b| - 1];
      RowsConcat(anchors, t, a, init, resolve);
      assert b == init + [last];
      assert a + b == (a + init) + [last];
      OneMoreRow(anchors, t, a + init, last, resolve);
      OneMoreRow(half, t, init, last, resolve);
    }
  }

  // ---- what the counters mean

  /** Every row is counted under exactly one outcome. */
  lemma {:induction false} TallyPartitions(anchors: Anchors, t: ItemType, rows: seq<SourceRow>, resolve: Resolve)
    requires OneOwner(anchors)
    ensures Tally(anchors, t, rows, resolve).Partitioned() && Tally(anchors, t, rows, resolve).considered == |rows|
  {
    hide Tally, OutcomeOf, AfterRows, OneOwner;
    if rows == [] {
      NoRows(anchors, t, resolve);
    } else {
      var init, last := rows[..|rows| - 1], rows[|rows| - 1];
      TallyPartitions(anchors, t, init, resolve);
      assert rows == init + [last];
      OneMoreRow(anchors, t, init, last, resolve);
    }
  }

  /** Linking leaves every other item alone, and never takes an entity from the item that has it. */
  lemma LinkedKeeps(anchors: Anchors, t: ItemType, row: SourceRow, qids: seq<string>, item: Item)
    requires OneOwner(anchors)
    ensures item != Item(t, row.itemId) ==>
      (item in AfterRow(anchors, t, row, qids) <==> item in anchors)
      && (item in anchors ==> AfterRow(anchors, t, row, qids)[item] == anchors[item])
  {
  }

  lemma {:induction false} LaterRowsKeep(anchors: Anchors, t: ItemType, rows: seq<SourceRow>, resolve: Resolve,
                                         item: Item)
    requires OneOwner(anchors) && forall i | 0 <= i < |rows| :: item != Item(t, rows[i].itemId)
    ensures item in AfterRows(anchors, t, rows, resolve) <==> item in anchors
    ensures item in anchors ==> AfterRows(anchors, t, rows, resolve)[item] == anchors[item]
  {
    hide AfterRow;
    if rows != [] {
      var last := rows[|rows| - 1];
      LaterRowsKeep(anchors, t, rows[..|rows| - 1], resolve, item);
      LinkedKeeps(AfterRows(anchors, t, rows[..|rows| - 1], resolve), t, last, resolve(last.externalId), item);
    }
  }

  /** Main result. `resolved` counts links, not attempts: a row is counted resolved exactly when one
      entity claims its id and, once the whole run is over, its item is anchored to that entity. Any
      other row leaves its item's anchor as it was before the run: nothing is guessed. */
  lemma ResolvedMeansLinked(anchors: Anchors, t: ItemType, rows: seq<SourceRow>, resolve: Resolve, i: nat)
    requires OneOwner(anchors) && i < |rows|
    requires forall a, b | 0 <= a < b < |rows| :: rows[a].itemId != rows[b].itemId
    ensures var item, qids, end := Item(t, rows[i].itemId), resolve(rows[i].externalId),
      AfterRows(anchors, t, rows, resolve);
      && (OutcomeAt(anchors, t, rows, resolve, i) == Resolved <==> |qids| == 1 && item in end && end[item] == qids[0])
      && (OutcomeAt(anchors, t, rows, resolve, i) == Missing <==> qids == [])
      && (OutcomeAt(anchors, t, rows, resolve, i) == Ambiguous <==> |qids| > 1)
      && (OutcomeAt(anchors, t, rows, resolve, i) != Resolved ==> SameAnchor(anchors, end, item))
  {
    hide AfterRows, AfterRow;
    var item, qids := Item(t, rows[i].itemId), resolve(rows[i].externalId);
    var before, after := rows[..i], rows[i + 1..];
    assert rows == (before + [rows[i]]) + after;
    RowsConcat(anchors, t, before + [rows[i]], after, resolve);
    OneMoreRow(anchors, t, before, rows[i], resolve);
    var now := AfterRows(anchors, t, before, resolve);
    LaterRowsKeep(anchors, t, before, resolve, item);
    UnresolvedKeeps(now, t, rows[i], qids);
    LaterRowsKeep(AfterRow(now, t, rows[i], qids), t, after, resolve, item);
    if |qids| == 1 {
      ResolvedNow(now, t, rows[i], qids);
    }
  }

  ghost predicate SameAnchor(was: Anchors, now: Anchors, item: Item) {
    (item in now <==> item in was) && (item in was ==> now[item] == was[item])
  }

  lemma UnresolvedKeeps(anchors: Anchors, t: ItemType, row: SourceRow, qids: seq<string>)
    requires OneOwner(anchors)
    ensures OutcomeOf(anchors, t, row, qids) != Resolved ==> AfterRow(anchors, t, row, qids) == anchors
  {
  }

  lemma ResolvedNow(anchors: Anchors, t: ItemType, row: SourceRow, qids: seq<string>)
    requires OneOwner(anchors) && |qids| == 1
    ensures var item, after := Item(t, row.itemId), AfterRow(anchors, t, row, qids);
      OutcomeOf(anchors, t, row, qids) == Resolved <==> item in after && after[item] == qids[0]
  {
    var item := Item(t, row.itemId);
    if item in anchors && anchors[item] == qids[0] {
      assert Claims(anchors, item, t, qids[0]);
    }
  }

  /** The rows of one walk are of distinct items. */
  lemma FirstRowsAreDistinct(table: Table, after: int, n: nat)
    requires OneRowPerItem(table) && n <= |All(table.Keys, after)|
    ensures var rows := FirstRows(table, after, n);
      forall a, b | 0 <= a < b < |rows| :: rows[a].itemId != rows[b].itemId
  {
    hide All;
    AllIsTheRest(table.Keys, after);
    var all, rows := All(table.Keys, after), FirstRows(table, after, n);
    forall a, b | 0 <= a < b < |rows|
      ensures rows[a].itemId != rows[b].itemId
    {
      assert all[a] < all[b] && all[..n][a] == all[a] && all[..n][b] == all[b];
      assert all[a] in all && all[b] in all;
    }
  }
}
