/** The relations pass: turning the statements of the anchored entities into edges between items, batch by
    batch. Each statement is paired with the rows of its subject and the items that its object anchors; the
    edges are upserted, and the cursor moves with each committed batch. */
module WikidataRelations {
  import opened Common
  import opened CursorWalk
  import opened WikidataAnchors

  /** One anchored item, as the pass reads it. */
  datatype Anchored = Anchored(item: Item, qid: string)

  type AnchorTable = map<int, Anchored>

  datatype Property = P144 | P4969

  datatype Relation = Adaptation | Derivative

  function RelationOf(property: Property): Relation {
    if property.P144? then Adaptation else Derivative
  }

  /** A statement of Wikidata: the subject entity, the property and the object entity. */
  datatype Statement = Statement(from: string, property: Property, to: string)

  /** An edge of the catalog; the pass gives each the score 1. */
  datatype Edge = Edge(from: Item, to: Item, relation: Relation)

  type Edges = map<Edge, real>

  /** The statements whose subject is a given entity. */
  type Wiki = string -> seq<Statement>

  ghost predicate HonestWiki(wiki: Wiki) {
    forall qid :: forall i | 0 <= i < |wiki(qid)| :: wiki(qid)[i].from == qid
  }

  /** The items an entity anchors: at most one per type. */
  type Ends = string -> seq<Item>

  /** The edge of one statement between one origin and one of the far ends. */
  predicate Yields(origin: Anchored, s: Statement, to: Item, e: Edge) {
    s.from == origin.qid && to != origin.item && e == Edge(origin.item, to, RelationOf(s.property))
  }

  /** `e` comes from a statement about the entity of one of the rows, and its far end is in the catalog. */
  ghost predicate Wanted(rows: seq<Anchored>, wiki: Wiki, ends: Ends, e: Edge) {
    exists origin, s, to :: origin in rows && s in wiki(origin.qid) && to in ends(s.to) && Yields(origin, s, to, e)
  }

  /** The entities of the rows, each once, in order of first appearance. */
  function Qids(rows: seq<Anchored>): seq<string> {
    if rows == [] then []
    else
      var before := Qids(rows[..|rows| - 1]);
      if rows[|rows| - 1].qid in before then before else before + [rows[|rows| - 1].qid]
  }

  lemma {:induction false} QidsAreThose(rows: seq<Anchored>)
    ensures forall row | row in rows :: row.qid in Qids(rows)
  {
    if rows != [] {
      var last := |rows| - 1;
      QidsAreThose(rows[..last]);
      assert rows == rows[..last] + [rows[last]];
    }
  }

  /** All statements about those entities, as one request answers them. */
  function StatementsOf(qids: seq<string>, wiki: Wiki): seq<Statement> {
    if qids == [] then [] else StatementsOf(qids[..|qids| - 1], wiki) + wiki(qids[|qids| - 1])
  }

  lemma {:induction false} StatementsAreThose(qids: seq<string>, wiki: Wiki, s: Statement)
    ensures s in StatementsOf(qids, wiki) <==> exists qid :: qid in qids && s in wiki(qid)
  {
    if qids != [] {
      var last := |qids| - 1;
      StatementsAreThose(qids[..last], wiki, s);
      assert qids == qids[..last] + [qids[last]];
    }
  }

  /** The edges of the rows from those among the first `n` statements. */
  ghost predicate WrittenBy(statements: seq<Statement>, rows: seq<Anchored>, ends: Ends, e: Edge) {
    exists s, origin, to :: s in statements && origin in rows && to in ends(s.to) && Yields(origin, s, to, e)
  }

  ghost predicate Exactly(writes: seq<Edge>, statements: seq<Statement>, rows: seq<Anchored>, ends: Ends) {
    forall e :: e in writes <==> WrittenBy(statements, rows, ends, e)
  }

  // ---- what is counted

  /** The counters of the statements, and of the edges they give by relation. */
  datatype EdgeTally = EdgeTally(statements: nat, unmatchedEnds: nat, selfEdges: nat, adaptations: nat,
                                 derivatives: nat) {
    function Plus(other: EdgeTally): EdgeTally {
      EdgeTally(statements + other.statements, unmatchedEnds + other.unmatchedEnds, selfEdges + other.selfEdges,
                adaptations + other.adaptations, derivatives + other.derivatives)
    }

    /** The part that counts pairs of a row and a far end. */
    function OnlyPairs(): EdgeTally { EdgeTally(0, 0, selfEdges, adaptations, derivatives) }

    function Attempted(): nat { adaptations + derivatives }

    /** The counters by relation are those of the edges written. */
    predicate Counts(writes: seq<Edge>) {
      adaptations == OfRelation(writes, Adaptation) && derivatives == OfRelation(writes, Derivative)
    }
  }

  const NO_TALLY: EdgeTally := EdgeTally(0, 0, 0, 0, 0)

  /** `edges` edges of the relation of a property, and `selfs` that would have been self-edges. */
  function PairTally(property: Property, selfs: nat, edges: nat): EdgeTally {
    if property.P144? then EdgeTally(0, 0, selfs, edges, 0) else EdgeTally(0, 0, selfs, 0, edges)
  }

  lemma Sums(a: EdgeTally, b: EdgeTally, c: EdgeTally)
    ensures a.Plus(b).Plus(c) == a.Plus(b.Plus(c)) && a.Plus(b).Plus(c) == a.Plus(c).Plus(b)
    ensures a.Plus(NO_TALLY) == a == NO_TALLY.Plus(a)
    ensures a.Plus(b).OnlyPairs() == a.OnlyPairs().Plus(b.OnlyPairs())
  {
  }

  lemma Attempts(a: EdgeTally, b: EdgeTally)
    ensures a.Plus(b).Attempted() == a.Attempted() + b.Attempted() && NO_TALLY.Attempted() == 0
  {
  }

  lemma PairTallies(property: Property, selfs: nat, edges: nat, moreSelfs: nat, moreEdges: nat)
    ensures PairTally(property, selfs, edges).Plus(PairTally(property, moreSelfs, moreEdges))
         == PairTally(property, selfs + moreSelfs, edges + moreEdges)
    ensures PairTally(property, 0, 0) == NO_TALLY && PairTally(property, selfs, edges).Attempted() == edges
  {
  }

  /** How often an item is among the far ends. */
  function Selfs(item: Item, far: seq<Item>): (n: nat)
    ensures n <= |far|
  {
    if far == [] then 0 else Selfs(item, far[..|far| - 1]) + if far[|far| - 1] == item then 1 else 0
  }

  /** One row and one statement: an edge for each far end, unless that is the row's own item. */
  function Pairing(row: Anchored, s: Statement, ends: Ends): EdgeTally {
    if row.qid != s.from then NO_TALLY
    else
      var selfs := Selfs(row.item, ends(s.to));
      PairTally(s.property, selfs, |ends(s.to)| - selfs)
  }

  function Pairings(rows: seq<Anchored>, s: Statement, ends: Ends): EdgeTally {
    if rows == [] then NO_TALLY else Pairings(rows[..|rows| - 1], s, ends).Plus(Pairing(rows[|rows| - 1], s, ends))
  }

  predicate HasOrigin(rows: seq<Anchored>, s: Statement) {
    exists i | 0 <= i < |rows| :: rows[i].qid == s.from
  }

  /** A statement itself: counted, and unmatched when the catalog has no far end for it. */
  function OwnTally(s: Statement, rows: seq<Anchored>, ends: Ends): EdgeTally {
    EdgeTally(1, if HasOrigin(rows, s) && ends(s.to) == [] then 1 else 0, 0, 0, 0)
  }

  function TallyOfStatements(statements: seq<Statement>, rows: seq<Anchored>, ends: Ends): EdgeTally {
    if statements == [] then NO_TALLY
    else
      var s := statements[|statements| - 1];
      var before := TallyOfStatements(statements[..|statements| - 1], rows, ends);
      before.Plus(OwnTally(s, rows, ends)).Plus(Pairings(rows, s, ends))
  }

  function TallyOf(rows: seq<Anchored>, wiki: Wiki, ends: Ends): EdgeTally {
    TallyOfStatements(StatementsOf(Qids(rows), wiki), rows, ends)
  }

  lemma {:induction false} NoPairs(rows: seq<Anchored>, s: Statement, ends: Ends)
    requires forall i | 0 <= i < |rows| :: Pairing(rows[i], s, ends) == NO_TALLY
    ensures Pairings(rows, s, ends) == NO_TALLY
  {
    hide Pairing;
    if rows != [] {
      NoPairs(rows[..|rows| - 1], s, ends);
    }
  }

  lemma NextPairing(rows: seq<Anchored>, i: nat, s: Statement, ends: Ends)
    requires i < |rows|
    ensures Pairings(rows[..i + 1], s, ends) == Pairings(rows[..i], s, ends).Plus(Pairing(rows[i], s, ends))
  {
    hide Pairing, EdgeTally.Plus;
    assert rows[..i + 1][..i] == rows[..i];
  }

  /** The edges one statement adds, over its origins and ends. */
  method EdgesOfStatement(s: Statement, rows: seq<Anchored>, ends: Ends) returns (writes: seq<Edge>, tally: EdgeTally)
    ensures Exactly(writes, [s], rows, ends)
    ensures tally == OwnTally(s, rows, ends).Plus(Pairings(rows, s, ends)) && tally.Attempted() == |writes|
    ensures tally.Counts(writes)
  {
    hide Exactly, WrittenBy, Pairings, PairTally, OwnTally, EdgeTally.Plus, EdgeTally.Attempted, EdgeTally.Counts,
      RelationOf;
    writes := [];
    var far := ends(s.to);
    OwnAttemptsNothing(s, rows, ends);
    Sums(OwnTally(s, rows, ends), NO_TALLY, NO_TALLY);
    PairTallies(s.property, 0, 0, 0, 0);
    if !HasOrigin(rows, s) || far == [] {
      NoPairs(rows, s, ends);
      OneStatement(writes, s, rows, ends);
      CountedByRelation(writes, s, rows, ends, 0);
      return writes, OwnTally(s, rows, ends);
    }
    var selfEdges := 0;
    NoPairs([], s, ends);
    assert rows[..0] == [];
    for i := 0 to |rows|
      invariant forall e :: e in writes <==> exists a, b | 0 <= a < i && 0 <= b < |far| :: Yields(rows[a], s, far[b], e)
      invariant forall e | e in writes :: e.relation == RelationOf(s.property)
      invariant PairTally(s.property, selfEdges, |writes|) == Pairings(rows[..i], s, ends)
    {
      NextPairing(rows, i, s, ends);
      Sums(Pairings(rows[..i], s, ends), NO_TALLY, NO_TALLY);
      if rows[i].qid == s.from {
        var more, selfs := EdgesOfRow(s, rows[i], far);
        PairTallies(s.property, selfEdges, |writes|, selfs, |more|);
        writes, selfEdges := writes + more, selfEdges + selfs;
      }
    }
    assert rows[..|rows|] == rows;
    OneStatement(writes, s, rows, ends);
    var pairs := PairTally(s.property, selfEdges, |writes|);
    PairTallies(s.property, selfEdges, |writes|, 0, 0);
    Attempts(OwnTally(s, rows, ends), pairs);
    CountedByRelation(writes, s, rows, ends, selfEdges);
    return writes, OwnTally(s, rows, ends).Plus(pairs);
  }

  /** How many edges of a relation are written. */
  function OfRelation(writes: seq<Edge>, relation: Relation): nat {
    if writes == [] then 0
    else
      var last := |writes| - 1;
      OfRelation(writes[..last], relation) + if writes[last].relation == relation then 1 else 0
  }

  lemma {:induction false} AllOfRelation(writes: seq<Edge>, relation: Relation, other: Relation)
    requires forall e | e in writes :: e.relation == relation
    ensures OfRelation(writes, other) == if other == relation then |writes| else 0
  {
    if writes != [] {
      AllOfRelation(writes[..|writes| - 1], relation, other);
    }
  }

  lemma {:induction false} OfRelationConcat(a: seq<Edge>, b: seq<Edge>, relation: Relation)
    ensures OfRelation(a + b, relation) == OfRelation(a, relation) + OfRelation(b, relation)
  {
    if b == [] {
      assert a + b == a;
    } else {
      OfRelationConcat(a, b[..|b| - 1], relation);
      assert (a + b)[..|a + b| - 1] == a + b[..|b| - 1];
    }
  }

  lemma CountedByRelation(writes: seq<Edge>, s: Statement, rows: seq<Anchored>, ends: Ends, selfs: nat)
    requires forall e | e in writes :: e.relation == RelationOf(s.property)
    ensures OwnTally(s, rows, ends).Plus(PairTally(s.property, selfs, |writes|)).Counts(writes)
    ensures writes == [] ==> OwnTally(s, rows, ends).Counts(writes)
  {
    hide HasOrigin;
    AllOfRelation(writes, RelationOf(s.property), Adaptation);
    AllOfRelation(writes, RelationOf(s.property), Derivative);
  }

  lemma CountsJoin(a: EdgeTally, b: EdgeTally, writes: seq<Edge>, more: seq<Edge>)
    requires a.Counts(writes) && b.Counts(more)
    ensures a.Plus(b).Counts(writes + more)
  {
    OfRelationConcat(writes, more, Adaptation);
    OfRelationConcat(writes, more, Derivative);
  }

  lemma OwnAttemptsNothing(s: Statement, rows: seq<Anchored>, ends: Ends)
    ensures OwnTally(s, rows, ends).Attempted() == 0
  {
    hide HasOrigin;
  }

  lemma NextStatement(statements: seq<Statement>, i: nat, rows: seq<Anchored>, ends: Ends)
    requires i < |statements|
    ensures TallyOfStatements(statements[..i + 1], rows, ends)
         == TallyOfStatements(statements[..i], rows, ends)
              .Plus(OwnTally(statements[i], rows, ends).Plus(Pairings(rows, statements[i], ends)))
  {
    hide OwnTally, Pairings, EdgeTally.Plus;
    assert statements[..i + 1][..i] == statements[..i];
    Sums(TallyOfStatements(statements[..i], rows, ends), OwnTally(statements[i], rows, ends),
         Pairings(rows, statements[i], ends));
  }

  method EdgesOfRow(s: Statement, row: Anchored, far: seq<Item>) returns (writes: seq<Edge>, selfEdges: nat)
    requires row.qid == s.from
    ensures forall e :: e in writes <==> exists b | 0 <= b < |far| :: Yields(row, s, far[b], e)
    ensures selfEdges == Selfs(row.item, far) && |writes| == |far| - selfEdges
  {
    writes, selfEdges := [], 0;
    for j := 0 to |far|
      invariant forall e :: e in writes <==> exists b | 0 <= b < j :: Yields(row, s, far[b], e)
      invariant selfEdges == Selfs(row.item, far[..j]) && |writes| == j - selfEdges
    {
      assert far[..j + 1][..j] == far[..j];
      if far[j] == row.item {
        selfEdges := selfEdges + 1;
      } else {
        writes := writes + [Edge(row.item, far[j], RelationOf(s.property))];
      }
    }
    assert far[..|far|] == far;
  }

  lemma OneStatement(writes: seq<Edge>, s: Statement, rows: seq<Anchored>, ends: Ends)
    requires forall e :: e in writes <==>
      exists a, b | 0 <= a < |rows| && 0 <= b < |ends(s.to)| :: Yields(rows[a], s, ends(s.to)[b], e)
    ensures Exactly(writes, [s], rows, ends)
  {
    forall e
      ensures e in writes <==> WrittenBy([s], rows, ends, e)
    {
      if e in writes {
        var a, b :| 0 <= a < |rows| && 0 <= b < |ends(s.to)| && Yields(rows[a], s, ends(s.to)[b], e);
        assert s in [s] && rows[a] in rows && ends(s.to)[b] in ends(s.to);
      }
      if WrittenBy([s], rows, ends, e) {
        var t, origin, to :| t in [s] && origin in rows && to in ends(t.to) && Yields(origin, t, to, e);
        var a :| 0 <= a < |rows| && rows[a] == origin;
        var b :| 0 <= b < |ends(s.to)| && ends(s.to)[b] == to;
        assert Yields(rows[a], s, ends(s.to)[b], e);
      }
    }
  }

  /** What one batch writes, statement by statement. */
  method EdgesOfBatch(rows: seq<Anchored>, wiki: Wiki, ends: Ends) returns (writes: seq<Edge>, tally: EdgeTally)
    requires HonestWiki(wiki)
    ensures forall e :: e in writes <==> Wanted(rows, wiki, ends, e)
    ensures tally == TallyOf(rows, wiki, ends) && tally.Attempted() == |writes| && tally.Counts(writes)
  {
    hide Exactly, WrittenBy, Wanted, HonestWiki, Qids, StatementsOf, OwnTally, Pairings, TallyOfStatements,
      EdgeTally.Plus, EdgeTally.Attempted, EdgeTally.Counts;
    var statements := StatementsOf(Qids(rows), wiki);
    writes, tally := [], NO_TALLY;
    NoStatements(rows, ends);
    Attempts(NO_TALLY, NO_TALLY);
    assert statements[..0] == [];
    for i := 0 to |statements|
      invariant Exactly(writes, statements[..i], rows, ends)
      invariant tally == TallyOfStatements(statements[..i], rows, ends) && tally.Attempted() == |writes|
      invariant tally.Counts(writes)
    {
      var more, counted := EdgesOfStatement(statements[i], rows, ends);
      CountsJoin(tally, counted, writes, more);
      MoreStatements(writes, more, statements[..i], statements[i], rows, ends);
      NextStatement(statements, i, rows, ends);
      Attempts(tally, counted);
      assert statements[..i + 1] == statements[..i] + [statements[i]];
      writes, tally := writes + more, tally.Plus(counted);
    }
    assert statements[..|statements|] == statements;
    WritesAreWanted(writes, rows, wiki, ends);
  }

  lemma NoStatements(rows: seq<Anchored>, ends: Ends)
    ensures Exactly([], [], rows, ends) && TallyOfStatements([], rows, ends) == NO_TALLY && NO_TALLY.Counts([])
  {
  }

  lemma MoreStatements(writes: seq<Edge>, more: seq<Edge>, statements: seq<Statement>, s: Statement,
                       rows: seq<Anchored>, ends: Ends)
    requires Exactly(writes, statements, rows, ends) && Exactly(more, [s], rows, ends)
    ensures Exactly(writes + more, statements + [s], rows, ends)
  {
    hide Yields;
    forall e
      ensures WrittenBy(statements + [s], rows, ends, e) <==>
        WrittenBy(statements, rows, ends, e) || WrittenBy([s], rows, ends, e)
    {
      EitherWrites(statements, s, rows, ends, e);
    }
  }

  lemma EitherWrites(statements: seq<Statement>, s: Statement, rows: seq<Anchored>, ends: Ends, e: Edge)
    ensures WrittenBy(statements + [s], rows, ends, e) <==>
      WrittenBy(statements, rows, ends, e) || WrittenBy([s], rows, ends, e)
  {
    hide Yields;
    if WrittenBy(statements + [s], rows, ends, e) {
      var t, origin, to :| t in statements + [s] && origin in rows && to in ends(t.to) && Yields(origin, t, to, e);
      assert t in statements || t in [s];
    }
  }

  lemma WritesAreWanted(writes: seq<Edge>, rows: seq<Anchored>, wiki: Wiki, ends: Ends)
    requires HonestWiki(wiki) && Exactly(writes, StatementsOf(Qids(rows), wiki), rows, ends)
    ensures forall e :: e in writes <==> Wanted(rows, wiki, ends, e)
  {
    forall e
      ensures e in writes <==> Wanted(rows, wiki, ends, e)
    {
      WrittenIsWanted(rows, wiki, ends, e);
    }
  }

  lemma WrittenIsWanted(rows: seq<Anchored>, wiki: Wiki, ends: Ends, e: Edge)
    requires HonestWiki(wiki)
    ensures WrittenBy(StatementsOf(Qids(rows), wiki), rows, ends, e) <==> Wanted(rows, wiki, ends, e)
  {
    hide StatementsOf, Qids;
    var statements := StatementsOf(Qids(rows), wiki);
    if WrittenBy(statements, rows, ends, e) {
      var s, origin, to :| s in statements && origin in rows && to in ends(s.to) && Yields(origin, s, to, e);
      StatementsAreThose(Qids(rows), wiki, s);
      assert s in wiki(origin.qid);
    }
    if Wanted(rows, wiki, ends, e) {
      var origin, s, to :| origin in rows && s in wiki(origin.qid) && to in ends(s.to) && Yields(origin, s, to, e);
      QidsAreThose(rows);
      StatementsAreThose(Qids(rows), wiki, s);
    }
  }

  // ---- the pass

  function Upserted(edges: Edges, writes: seq<Edge>): Edges {
    map e | e in edges.Keys + (set w | w in writes) :: if e in writes then 1.0 else edges[e]
  }

  /** What an upsert offers, each edge once, and what of it is not there yet. */
  function Offered(writes: seq<Edge>): set<Edge> { set w | w in writes }

  function Inserted(edges: Edges, writes: seq<Edge>): set<Edge> { set w | w in writes && w !in edges }

  /** `edges` is `before` with the wanted edges of the rows at score 1. */
  ghost predicate EdgesAre(edges: Edges, before: Edges, rows: seq<Anchored>, wiki: Wiki, ends: Ends) {
    && (forall e :: e in edges <==> e in before || Wanted(rows, wiki, ends, e))
    && (forall e | e in edges :: edges[e] == if Wanted(rows, wiki, ends, e) then 1.0 else before[e])
  }

  lemma NoEdges(before: Edges, wiki: Wiki, ends: Ends)
    ensures EdgesAre(before, before, [], wiki, ends)
  {
  }

  lemma MoreEdges(edges: Edges, before: Edges, a: seq<Anchored>, b: seq<Anchored>, writes: seq<Edge>, wiki: Wiki,
                  ends: Ends)
    requires EdgesAre(edges, before, a, wiki, ends)
    requires forall e :: e in writes <==> Wanted(b, wiki, ends, e)
    ensures EdgesAre(Upserted(edges, writes), before, a + b, wiki, ends)
  {
    hide Wanted;
    forall e
      ensures Wanted(a + b, wiki, ends, e) <==> Wanted(a, wiki, ends, e) || Wanted(b, wiki, ends, e)
    {
      WantedByEither(a, b, wiki, ends, e);
    }
  }

  lemma WantedByEither(a: seq<Anchored>, b: seq<Anchored>, wiki: Wiki, ends: Ends, e: Edge)
    ensures Wanted(a + b, wiki, ends, e) <==> Wanted(a, wiki, ends, e) || Wanted(b, wiki, ends, e)
  {
    hide Yields;
  }

  function AnchoredRows(table: AnchorTable, ids: seq<int>): (rows: seq<Anchored>)
    requires forall i | 0 <= i < |ids| :: ids[i] in table
    ensures |rows| == |ids| && forall i | 0 <= i < |ids| :: rows[i] == table[ids[i]]
  {
    seq(|ids|, i requires 0 <= i < |ids| => table[ids[i]])
  }

  lemma AllAreAnchored(table: AnchorTable, after: int)
    ensures forall i | 0 <= i < |All(table.Keys, after)| :: All(table.Keys, after)[i] in table
  {
    AllIsTheRest(table.Keys, after);
    forall i | 0 <= i < |All(table.Keys, after)|
      ensures All(table.Keys, after)[i] in table
    {
      assert All(table.Keys, after)[i] in All(table.Keys, after);
    }
  }

  /** The first `n` anchored rows of the walk. */
  function RowsRead(table: AnchorTable, after: int, n: nat): seq<Anchored>
    requires n <= |All(table.Keys, after)|
  {
    AllAreAnchored(table, after);
    AnchoredRows(table, All(table.Keys, after)[..n])
  }

  function Joined(parts: seq<seq<Anchored>>): seq<Anchored> {
    if parts == [] then [] else Joined(parts[..|parts| - 1]) + parts[|parts| - 1]
  }

  function TallyOfParts(parts: seq<seq<Anchored>>, wiki: Wiki, ends: Ends): EdgeTally {
    if parts == [] then NO_TALLY
    else TallyOfParts(parts[..|parts| - 1], wiki, ends).Plus(TallyOf(parts[|parts| - 1], wiki, ends))
  }

  lemma OnePartMore(parts: seq<seq<Anchored>>, rows: seq<Anchored>, wiki: Wiki, ends: Ends)
    ensures Joined(parts + [rows]) == Joined(parts) + rows
    ensures TallyOfParts(parts + [rows], wiki, ends) == TallyOfParts(parts, wiki, ends).Plus(TallyOf(rows, wiki, ends))
  {
    hide TallyOf;
    assert (parts + [rows])[..|parts|] == parts;
  }

  /** Batches of the size asked for, the last one possibly smaller. */
  ghost predicate Even(parts: seq<seq<Anchored>>, size: int) {
    forall i | 0 <= i < |parts| :: 0 < |parts[i]| <= size && (i < |parts| - 1 ==> |parts[i]| == size)
  }

  /** The edges the rows of one batch want, each once. */
  ghost function EdgesFor(rows: seq<Anchored>, wiki: Wiki, ends: Ends): (edges: set<Edge>)
    requires HonestWiki(wiki)
    ensures forall e :: e in edges <==> Wanted(rows, wiki, ends, e)
  {
    set origin, s, to | origin in rows && s in wiki(origin.qid) && to in ends(s.to) && to != origin.item ::
      Edge(origin.item, to, RelationOf(s.property))
  }

  /** How many rows the upserts of the batches touch, one upsert per batch. */
  ghost function Touched(parts: seq<seq<Anchored>>, wiki: Wiki, ends: Ends): nat
    requires HonestWiki(wiki)
  {
    if parts == [] then 0
    else Touched(parts[..|parts| - 1], wiki, ends) + |EdgesFor(parts[|parts| - 1], wiki, ends)|
  }

  /** What a pass reports and leaves behind. */
  datatype Execution = Execution(read: nat, batches: nat, tally: EdgeTally, created: nat, updated: nat,
                                 completed: bool, edges: Edges, cursor: Cursor)

  /** An execution over a table, from given edges and a given cursor. The edges are those of the rows read,
      the rows read are the next ones of the walk, and all of them when it completes; the counters are
      those of its batches; and the cursor moves as over that many rounds of a walk. */
  ghost predicate Executes(table: AnchorTable, before: Edges, from: Cursor, batchSize: int, wiki: Wiki, ends: Ends,
                           x: Execution, parts: seq<seq<Anchored>>)
    requires HonestWiki(wiki)
  {
    var all := All(table.Keys, Start(from));
    && Walks(table.Keys, from, batchSize, x.batches + (if x.completed then 1 else 0), x.read, x.cursor)
    && EdgesAre(x.edges, before, RowsRead(table, Start(from), x.read), wiki, ends)
    && Joined(parts) == RowsRead(table, Start(from), x.read) && Even(parts, batchSize)
    && x.batches == |parts| && x.tally == TallyOfParts(parts, wiki, ends)
    && |x.edges| == |before| + x.created && x.created + x.updated == Touched(parts, wiki, ends)
    && (x.completed && batchSize >= 1 ==> x.read == |all|)
    && x.cursor == (if x.completed then Cleared else if x.read == 0 then from else Number(all[x.read - 1]))
  }

  class RelationStore {
    const table: AnchorTable
    var edges: Edges
    var cursor: Cursor

    constructor (table: AnchorTable, edges: Edges, cursor: Cursor)
      ensures this.table == table && this.edges == edges && this.cursor == cursor
    {
      this.table, this.edges, this.cursor := table, edges, cursor;
    }

    method RunRelationsPass(batchSize: int, wiki: Wiki, ends: Ends, expired: nat -> bool)
      returns (read: nat, batches: nat, tally: EdgeTally, created: nat, updated: nat, completed: bool,
               ghost parts: seq<seq<Anchored>>)
      requires HonestWiki(wiki)
      modifies this
      ensures Executes(table, old(edges), old(cursor), batchSize, wiki, ends,
                       Execution(read, batches, tally, created, updated, completed, edges, cursor), parts)
      ensures completed <==> !expired(batches)
      ensures forall i | 0 <= i < batches :: !expired(i)
    {
      hide *;
      var after := Start(cursor);
      ghost var from, start, all, before := cursor, after, All(table.Keys, after), edges;
      var checks: nat := 0;
      read, completed := 0, true;
      batches, tally, created, updated, parts := 0, NO_TALLY, 0, 0, [];
      NothingExecuted(table, before, from, batchSize, wiki, ends);
      while true
        invariant completed && after == Start(cursor) && checks == batches
        invariant forall i | 0 <= i < batches :: !expired(i)
        invariant Executes(table, before, from, batchSize, wiki, ends,
                           Execution(read, batches, tally, created, updated, false, edges, cursor), parts)
        invariant Filled(table, from, batchSize, read, parts)
        decreases |All(table.Keys, start)| - read
      {
        checks := checks + 1;
        if expired(checks - 1) {
          completed := false;
          break;
        }
        var batch := Batch(table.Keys, after, batchSize);
        ghost var x := Execution(read, batches, tally, created, updated, false, edges, cursor);
        NextBatch(table, before, from, batchSize, wiki, ends, x, parts);
        if batch == [] {
          EndOfWalk(table, before, from, batchSize, wiki, ends, x, parts);
          cursor := Cleared;
          break;
        }
        var rows := AnchoredRows(table, batch);
        var writes, counted := EdgesOfBatch(rows, wiki, ends);
        var offered, inserted := Offered(writes), Inserted(edges, writes);
        OneMoreBatch(table, before, from, batchSize, wiki, ends, x, parts, batch, writes);
        created, updated := created + |inserted|, updated + |offered - inserted|;
        edges := Upserted(edges, writes);
        batches, tally, parts := batches + 1, tally.Plus(counted), parts + [rows];
        after := batch[|batch| - 1];
        cursor := Number(after);
        NumberStarts(after);
        read := read + |batch|;
      }
    }
  }

  /** Every batch but the one that ends the table is full. */
  ghost predicate Filled(table: AnchorTable, from: Cursor, batchSize: int, read: nat, parts: seq<seq<Anchored>>) {
    parts != [] && |parts[|parts| - 1]| != batchSize ==> read == |All(table.Keys, Start(from))|
  }

  lemma NothingExecuted(table: AnchorTable, before: Edges, from: Cursor, batchSize: int, wiki: Wiki, ends: Ends)
    requires HonestWiki(wiki)
    ensures Executes(table, before, from, batchSize, wiki, ends,
                     Execution(0, 0, NO_TALLY, 0, 0, false, before, from), [])
    ensures Filled(table, from, batchSize, 0, [])
  {
    hide All, EdgesAre, RowsRead;
    NoEdges(before, wiki, ends);
    NoRowsRead(table, Start(from));
    NothingWalked(table.Keys, from, batchSize);
  }

  /** What is left to walk after an execution that goes on, and what its next batch is. */
  lemma NextBatch(table: AnchorTable, before: Edges, from: Cursor, batchSize: int, wiki: Wiki, ends: Ends, x: Execution,
                  parts: seq<seq<Anchored>>)
    requires HonestWiki(wiki) && !x.completed && Executes(table, before, from, batchSize, wiki, ends, x, parts)
    ensures var all, batch := All(table.Keys, Start(from)), Batch(table.Keys, Start(x.cursor), batchSize);
      && x.read + |batch| <= |all| && batch == all[x.read..x.read + |batch|]
      && (batch == [] && batchSize >= 1 ==> x.read == |all|)
      && |batch| == (if batchSize <= 0 then 0 else Min(batchSize, |all| - x.read))
      && (forall i | 0 <= i < |batch| :: batch[i] in table)
  {
    hide All, EdgesAre, RowsRead, Joined, TallyOfParts, Touched, Batch;
    var all := All(table.Keys, Start(from));
    RestOfWalk(table.Keys, from, x.read, x.cursor);
    BatchIsNext(table.Keys, Start(x.cursor), batchSize, all, x.read);
    var batch := Batch(table.Keys, Start(x.cursor), batchSize);
    MoreRowsRead(table, Start(from), x.read, batch);
  }

  lemma EndOfWalk(table: AnchorTable, before: Edges, from: Cursor, batchSize: int, wiki: Wiki, ends: Ends, x: Execution,
                  parts: seq<seq<Anchored>>)
    requires HonestWiki(wiki) && !x.completed && Executes(table, before, from, batchSize, wiki, ends, x, parts)
    requires Batch(table.Keys, Start(x.cursor), batchSize) == []
    ensures Executes(table, before, from, batchSize, wiki, ends, x.(completed := true, cursor := Cleared), parts)
  {
    hide All, EdgesAre, RowsRead, Joined, TallyOfParts, Touched, Batch, Walks;
    WalkReads(table.Keys, from, batchSize, x.batches, x.read, x.cursor);
    NextBatch(table, before, from, batchSize, wiki, ends, x, parts);
    WalkEnds(table.Keys, from, batchSize, x.batches, x.read, x.cursor);
  }

  lemma WalkReads(ids: set<int>, from: Cursor, limit: int, rounds: nat, read: nat, cursor: Cursor)
    requires Walks(ids, from, limit, rounds, read, cursor)
    ensures read <= |All(ids, Start(from))|
  {
    hide All, AfterAll, AllHandled;
  }

  lemma OneMoreBatch(table: AnchorTable, before: Edges, from: Cursor, batchSize: int, wiki: Wiki, ends: Ends,
                     x: Execution, parts: seq<seq<Anchored>>, batch: seq<int>, writes: seq<Edge>)
    requires HonestWiki(wiki) && !x.completed && Executes(table, before, from, batchSize, wiki, ends, x, parts)
    requires Filled(table, from, batchSize, x.read, parts)
    requires batch == Batch(table.Keys, Start(x.cursor), batchSize) && batch != []
    requires forall i | 0 <= i < |batch| :: batch[i] in table
    requires forall e :: e in writes <==> Wanted(AnchoredRows(table, batch), wiki, ends, e)
    ensures var rows := AnchoredRows(table, batch);
      var offered, inserted := Offered(writes), Inserted(x.edges, writes);
      var y := Execution(x.read + |batch|, x.batches + 1, x.tally.Plus(TallyOf(rows, wiki, ends)),
                         x.created + |inserted|, x.updated + |offered - inserted|, false, Upserted(x.edges, writes),
                         Number(batch[|batch| - 1]));
      && Executes(table, before, from, batchSize, wiki, ends, y, parts + [rows])
      && Filled(table, from, batchSize, y.read, parts + [rows])
      && y.read > x.read && y.read <= |All(table.Keys, Start(from))|
  {
    hide All, EdgesAre, RowsRead, Joined, TallyOfParts, TallyOf, Touched, Batch, Wanted, Upserted,
      EdgeTally.Plus, HonestWiki, AnchoredRows, Rounds, Even, Filled, Offered, Inserted;
    var rows, all := AnchoredRows(table, batch), All(table.Keys, Start(from));
    NextBatch(table, before, from, batchSize, wiki, ends, x, parts);
    MoreRowsRead(table, Start(from), x.read, batch);
    MoreEdges(x.edges, before, RowsRead(table, Start(from), x.read), rows, writes, wiki, ends);
    OnePartMore(parts, rows, wiki, ends);
    OneMoreUpsert(x.edges, writes, parts, rows, wiki, ends);
    WalksOn(table.Keys, from, batchSize, x.batches, x.read, x.cursor);
    StaysEven(table, from, batchSize, x.read, parts, rows);
  }

  lemma StaysEven(table: AnchorTable, from: Cursor, size: int, read: nat, parts: seq<seq<Anchored>>,
                  rows: seq<Anchored>)
    requires Even(parts, size) && Filled(table, from, size, read, parts)
    requires read < |All(table.Keys, Start(from))| && 0 < |rows| == Min(size, |All(table.Keys, Start(from))| - read)
    ensures Even(parts + [rows], size) && Filled(table, from, size, read + |rows|, parts + [rows])
  {
    hide All;
  }

  /** What an upsert creates is what the edges grow by, and it touches each offered edge once. */
  lemma OneMoreUpsert(edges: Edges, writes: seq<Edge>, parts: seq<seq<Anchored>>, rows: seq<Anchored>, wiki: Wiki,
                      ends: Ends)
    requires HonestWiki(wiki) && forall e :: e in writes <==> Wanted(rows, wiki, ends, e)
    ensures var offered, inserted := Offered(writes), Inserted(edges, writes);
      && |Upserted(edges, writes)| == |edges| + |inserted|
      && Touched(parts + [rows], wiki, ends) == Touched(parts, wiki, ends) + |inserted| + |offered - inserted|
  {
    hide Wanted, HonestWiki, EdgesFor;
    var offered, inserted := Offered(writes), Inserted(edges, writes);
    UpsertGrows(edges, writes);
    assert offered == EdgesFor(rows, wiki, ends);
    assert offered == inserted + (offered - inserted);
    assert (parts + [rows])[..|parts|] == parts;
  }

  lemma UpsertGrows(edges: Edges, writes: seq<Edge>)
    ensures |Upserted(edges, writes)| == |edges| + |Inserted(edges, writes)|
  {
    hide Upserted, Inserted;
    UpsertedKeys(edges, writes);
    AsManyKeys(Upserted(edges, writes));
    AsManyKeys(edges);
  }

  lemma UpsertedKeys(edges: Edges, writes: seq<Edge>)
    ensures Upserted(edges, writes).Keys == edges.Keys + Inserted(edges, writes)
    ensures edges.Keys !! Inserted(edges, writes)
  {
  }

  lemma AsManyKeys(edges: Edges)
    ensures |edges.Keys| == |edges|
  {
  }

  lemma NoRowsRead(table: AnchorTable, start: int)
    ensures RowsRead(table, start, 0) == []
  {
  }

  lemma MoreRowsRead(table: AnchorTable, start: int, read: nat, batch: seq<int>)
    requires read + |batch| <= |All(table.Keys, start)| && batch == All(table.Keys, start)[read..read + |batch|]
    ensures forall i | 0 <= i < |batch| :: batch[i] in table
    ensures RowsRead(table, start, read + |batch|) == RowsRead(table, start, read) + AnchoredRows(table, batch)
  {
    hide All;
    AllAreAnchored(table, start);
    assert forall i | 0 <= i < |batch| :: batch[i] == All(table.Keys, start)[read + i];
  }

  // ---- what the counters are

  /** The pairs of one row over some statements. */
  function RowPairs(statements: seq<Statement>, row: Anchored, ends: Ends): EdgeTally {
    if statements == [] then NO_TALLY
    else RowPairs(statements[..|statements| - 1], row, ends).Plus(Pairing(row, statements[|statements| - 1], ends))
  }

  /** Row by row, over the statements about its own entity. */
  function AllPairs(rows: seq<Anchored>, wiki: Wiki, ends: Ends): EdgeTally {
    if rows == [] then NO_TALLY
    else
      var row := rows[|rows| - 1];
      AllPairs(rows[..|rows| - 1], wiki, ends).Plus(RowPairs(wiki(row.qid), row, ends))
  }

  lemma {:induction false} RowPairsConcat(a: seq<Statement>, b: seq<Statement>, row: Anchored, ends: Ends)
    ensures RowPairs(a + b, row, ends) == RowPairs(a, row, ends).Plus(RowPairs(b, row, ends))
  {
    hide Pairing, EdgeTally.Plus;
    if b == [] {
      assert a + b == a;
      Sums(RowPairs(a, row, ends), NO_TALLY, NO_TALLY);
    } else {
      var last := |b| - 1;
      RowPairsConcat(a, b[..last], row, ends);
      assert (a + b)[..|a + b| - 1] == a + b[..last];
      Sums(RowPairs(a, row, ends), RowPairs(b[..last], row, ends), Pairing(row, b[last], ends));
    }
  }

  lemma {:induction false} OtherStatements(statements: seq<Statement>, row: Anchored, ends: Ends)
    requires forall i | 0 <= i < |statements| :: statements[i].from != row.qid
    ensures RowPairs(statements, row, ends) == NO_TALLY
  {
    if statements != [] {
      OtherStatements(statements[..|statements| - 1], row, ends);
    }
  }

  /** Of the statements of several entities, a row pairs with those of its own. */
  lemma {:induction false} OwnStatements(qids: seq<string>, row: Anchored, wiki: Wiki, ends: Ends)
    requires HonestWiki(wiki) && Distinct(qids)
    ensures RowPairs(StatementsOf(qids, wiki), row, ends)
         == if row.qid in qids then RowPairs(wiki(row.qid), row, ends) else NO_TALLY
  {
    hide RowPairs, EdgeTally.Plus;
    if qids == [] {
      OtherStatements([], row, ends);
    } else {
      Sums(RowPairs(StatementsOf(qids[..|qids| - 1], wiki), row, ends), NO_TALLY, NO_TALLY);
      Sums(RowPairs(wiki(row.qid), row, ends), NO_TALLY, NO_TALLY);
      var last := |qids| - 1;
      OwnStatements(qids[..last], row, wiki, ends);
      RowPairsConcat(StatementsOf(qids[..last], wiki), wiki(qids[last]), row, ends);
      assert qids == qids[..last] + [qids[last]];
      if qids[last] != row.qid {
        OtherStatements(wiki(qids[last]), row, ends);
      }
    }
  }

  lemma {:induction false} QidsAreDistinct(rows: seq<Anchored>)
    ensures Distinct(Qids(rows))
  {
    if rows != [] {
      QidsAreDistinct(rows[..|rows| - 1]);
    }
  }

  lemma {:induction false} TallyOfOneRowMore(statements: seq<Statement>, rows: seq<Anchored>, row: Anchored, ends: Ends)
    ensures TallyOfStatements(statements, rows + [row], ends).OnlyPairs()
         == TallyOfStatements(statements, rows, ends).OnlyPairs().Plus(RowPairs(statements, row, ends))
  {
    hide Pairing, OwnTally, EdgeTally.Plus, EdgeTally.OnlyPairs;
    if statements == [] {
      Sums(NO_TALLY, NO_TALLY, NO_TALLY);
      NoTallyHasNoPairs();
    } else {
      var init, s := statements[..|statements| - 1], statements[|statements| - 1];
      TallyOfOneRowMore(init, rows, row, ends);
      assert (rows + [row])[..|rows|] == rows;
      PairsOfOne(row, s, ends);
      OwnHasNoPairs(rows, s, ends);
      OwnHasNoPairs(rows + [row], s, ends);
      Rearranged(TallyOfStatements(init, rows + [row], ends), TallyOfStatements(init, rows, ends),
                 OwnTally(s, rows + [row], ends),
                 OwnTally(s, rows, ends), Pairings(rows, s, ends), Pairing(row, s, ends), RowPairs(init, row, ends));
    }
  }

  lemma NoTallyHasNoPairs()
    ensures NO_TALLY.OnlyPairs() == NO_TALLY
  {
  }

  lemma PairsOfOne(row: Anchored, s: Statement, ends: Ends)
    ensures Pairing(row, s, ends) == Pairing(row, s, ends).OnlyPairs()
  {
  }

  lemma OwnHasNoPairs(rows: seq<Anchored>, s: Statement, ends: Ends)
    ensures OwnTally(s, rows, ends).OnlyPairs() == NO_TALLY
  {
    hide HasOrigin;
  }

  lemma Rearranged(a: EdgeTally, b: EdgeTally, ownA: EdgeTally, ownB: EdgeTally, pairs: EdgeTally, one: EdgeTally,
                   more: EdgeTally)
    requires a.OnlyPairs() == b.OnlyPairs().Plus(more) && one == one.OnlyPairs()
    requires ownA.OnlyPairs() == ownB.OnlyPairs() == NO_TALLY
    ensures a.Plus(ownA).Plus(pairs.Plus(one)).OnlyPairs() == b.Plus(ownB).Plus(pairs).OnlyPairs().Plus(more.Plus(one))
  {
  }

  lemma NoForeignPairs(rows: seq<Anchored>, s: Statement, ends: Ends)
    requires forall j | 0 <= j < |rows| :: rows[j].qid != s.from
    ensures Pairings(rows, s, ends) == NO_TALLY
  {
    hide Pairings;
    NoPairs(rows, s, ends);
  }

  lemma {:induction false} TallyOfForeign(a: seq<Statement>, b: seq<Statement>, rows: seq<Anchored>, ends: Ends)
    requires forall i, j | 0 <= i < |b| && 0 <= j < |rows| :: rows[j].qid != b[i].from
    ensures TallyOfStatements(a + b, rows, ends).OnlyPairs() == TallyOfStatements(a, rows, ends).OnlyPairs()
  {
    hide OwnTally, Pairings, EdgeTally.Plus, EdgeTally.OnlyPairs;
    Sums(NO_TALLY, NO_TALLY, NO_TALLY);
    Sums(TallyOfStatements(a, rows, ends), NO_TALLY, NO_TALLY);
    Sums(TallyOfStatements(a, rows, ends).OnlyPairs(), NO_TALLY, NO_TALLY);
    NoTallyHasNoPairs();
    if b == [] {
      assert a + b == a;
    } else {
      var last := |b| - 1;
      TallyOfForeign(a, b[..last], rows, ends);
      NoForeignPairs(rows, b[last], ends);
      assert (a + b)[..|a + b| - 1] == a + b[..last];
      OwnHasNoPairs(rows, b[last], ends);
      Rearranged(TallyOfStatements(a + b[..last], rows, ends), TallyOfStatements(a, rows, ends),
                 OwnTally(b[last], rows, ends),
                 NO_TALLY, NO_TALLY, NO_TALLY, NO_TALLY);
    }
  }

  lemma {:induction false} QidsAreOfRows(rows: seq<Anchored>, i: nat)
    requires i < |rows|
    ensures rows[i].qid in Qids(rows)
  {
    QidsAreThose(rows);
    assert rows[i] in rows;
  }

  /** What a batch writes and what it skips as self-edges is the sum over its rows. */
  lemma {:induction false} TallyIsPerRow(rows: seq<Anchored>, wiki: Wiki, ends: Ends)
    requires HonestWiki(wiki)
    ensures TallyOf(rows, wiki, ends).OnlyPairs() == AllPairs(rows, wiki, ends)
  {
    hide TallyOfStatements, RowPairs;
    if rows == [] {
      NoTallyOf(rows, wiki, ends);
    } else {
      var last := |rows| - 1;
      var init, row := rows[..last], rows[last];
      var before, now := StatementsOf(Qids(init), wiki), StatementsOf(Qids(rows), wiki);
      assert rows == init + [row];
      TallyIsPerRow(init, wiki, ends);
      QidsAreDistinct(rows);
      TallyOfOneRowMore(now, init, row, ends);
      OwnStatements(Qids(rows), row, wiki, ends);
      QidsAreOfRows(rows, last);
      if row.qid !in Qids(init) {
        assert Qids(rows)[..|Qids(init)|] == Qids(init);
        assert now == before + wiki(row.qid);
        forall j | 0 <= j < |init|
          ensures init[j].qid != row.qid
        {
          QidsAreOfRows(init, j);
        }
        TallyOfForeign(before, wiki(row.qid), init, ends);
      }
    }
  }

  lemma NoTallyOf(rows: seq<Anchored>, wiki: Wiki, ends: Ends)
    requires rows == []
    ensures TallyOf(rows, wiki, ends) == NO_TALLY
  {
  }

  lemma {:induction false} AllPairsConcat(a: seq<Anchored>, b: seq<Anchored>, wiki: Wiki, ends: Ends)
    ensures AllPairs(a + b, wiki, ends) == AllPairs(a, wiki, ends).Plus(AllPairs(b, wiki, ends))
  {
    hide RowPairs, EdgeTally.Plus;
    if b == [] {
      assert a + b == a;
      Sums(AllPairs(a, wiki, ends), NO_TALLY, NO_TALLY);
    } else {
      var last := |b| - 1;
      AllPairsConcat(a, b[..last], wiki, ends);
      Sums(AllPairs(a, wiki, ends), AllPairs(b[..last], wiki, ends), RowPairs(wiki(b[last].qid), b[last], ends));
      assert (a + b)[..|a + b| - 1] == a + b[..last];
    }
  }

  /** Main result about the counters. However the rows are cut into batches, as many edges are written
      and as many self-edges skipped as in one batch of them all. */
  lemma {:induction false} BatchingKeepsTheCounts(parts: seq<seq<Anchored>>, wiki: Wiki, ends: Ends)
    requires HonestWiki(wiki)
    ensures TallyOfParts(parts, wiki, ends).OnlyPairs() == TallyOf(Joined(parts), wiki, ends).OnlyPairs()
  {
    hide TallyOf, AllPairs, HonestWiki;
    TallyIsPerRow(Joined(parts), wiki, ends);
    if parts == [] {
      NoTallyOf([], wiki, ends);
    } else {
      var last := |parts| - 1;
      BatchingKeepsTheCounts(parts[..last], wiki, ends);
      TallyIsPerRow(Joined(parts[..last]), wiki, ends);
      TallyIsPerRow(parts[last], wiki, ends);
      AllPairsConcat(Joined(parts[..last]), parts[last], wiki, ends);
    }
  }

  // ---- how often a statement is counted

  /** What some entities weigh together. */
  function Sum(qids: seq<string>, weight: string -> nat): nat {
    if qids == [] then 0 else Sum(qids[..|qids| - 1], weight) + weight(qids[|qids| - 1])
  }

  function SumOfParts(parts: seq<seq<Anchored>>, weight: string -> nat): nat {
    if parts == [] then 0 else SumOfParts(parts[..|parts| - 1], weight) + Sum(Qids(parts[|parts| - 1]), weight)
  }

  /** What those of the entities weigh that have been seen before. */
  function Again(seen: seq<string>, qids: seq<string>, weight: string -> nat): nat {
    if qids == [] then 0
    else
      var last := qids[|qids| - 1];
      Again(seen, qids[..|qids| - 1], weight) + if last in seen then weight(last) else 0
  }

  /** An entity with rows in two different parts. */
  ghost predicate Shared(parts: seq<seq<Anchored>>, qid: string) {
    exists i, j | 0 <= i < j < |parts| :: qid in Qids(parts[i]) && qid in Qids(parts[j])
  }

  lemma {:induction false} QidsConcat(a: seq<Anchored>, b: seq<Anchored>, qid: string)
    ensures qid in Qids(a + b) <==> qid in Qids(a) || qid in Qids(b)
  {
    if b == [] {
      assert a + b == a;
    } else {
      var last := |b| - 1;
      QidsConcat(a, b[..last], qid);
      assert (a + b)[..|a + b| - 1] == a + b[..last];
    }
  }

  /** The entities of two parts weigh as much together as apart, less those of both. */
  lemma {:induction false} SumConcat(a: seq<Anchored>, b: seq<Anchored>, weight: string -> nat)
    ensures Sum(Qids(a + b), weight) + Again(Qids(a), Qids(b), weight) == Sum(Qids(a), weight) + Sum(Qids(b), weight)
  {
    if b == [] {
      assert a + b == a;
    } else {
      var last := |b| - 1;
      var qid, init := b[last].qid, b[..last];
      assert (a + b)[..|a + b| - 1] == a + init;
      SumConcat(a, init, weight);
      QidsConcat(a, init, qid);
      if qid !in Qids(init) {
        SumNext(Qids(init), qid, weight);
        SumNext(Qids(a + init), qid, weight);
        AgainNext(Qids(a), Qids(init), qid, weight);
      }
    }
  }

  lemma SumNext(qids: seq<string>, qid: string, weight: string -> nat)
    ensures Sum(qids + [qid], weight) == Sum(qids, weight) + weight(qid)
  {
    assert (qids + [qid])[..|qids|] == qids;
  }

  lemma AgainNext(seen: seq<string>, qids: seq<string>, qid: string, weight: string -> nat)
    ensures Again(seen, qids + [qid], weight) == Again(seen, qids, weight) + if qid in seen then weight(qid) else 0
  {
    assert (qids + [qid])[..|qids|] == qids;
  }

  lemma {:induction false} NothingAgain(seen: seq<string>, qids: seq<string>, weight: string -> nat)
    ensures Again(seen, qids, weight) == 0 <==> forall qid | qid in qids && qid in seen :: weight(qid) == 0
  {
    if qids != [] {
      var last := |qids| - 1;
      NothingAgain(seen, qids[..last], weight);
      assert qids == qids[..last] + [qids[last]];
    }
  }

  lemma {:induction false} QidsOfJoined(parts: seq<seq<Anchored>>, qid: string)
    ensures qid in Qids(Joined(parts)) <==> exists i | 0 <= i < |parts| :: qid in Qids(parts[i])
  {
    hide Qids;
    if parts == [] {
      NoQids();
    } else {
      var last := |parts| - 1;
      QidsOfJoined(parts[..last], qid);
      QidsConcat(Joined(parts[..last]), parts[last], qid);
      assert forall i | 0 <= i < last :: parts[..last][i] == parts[i];
      if qid in Qids(Joined(parts[..last])) {
        var i :| 0 <= i < last && qid in Qids(parts[..last][i]);
        assert qid in Qids(parts[i]);
      }
    }
  }

  lemma NoQids()
    ensures Qids([]) == []
  {
  }

  /** One part more shares what was shared before, and what the others share with it. */
  lemma SharedNext(parts: seq<seq<Anchored>>, qid: string)
    requires parts != []
    ensures var last := |parts| - 1;
      Shared(parts, qid) <==>
        Shared(parts[..last], qid) || (qid in Qids(Joined(parts[..last])) && qid in Qids(parts[last]))
  {
    hide Qids, Joined;
    var last := |parts| - 1;
    var init := parts[..last];
    QidsOfJoined(init, qid);
    if Shared(init, qid) {
      var i, j :| 0 <= i < j < |init| && qid in Qids(init[i]) && qid in Qids(init[j]);
      assert qid in Qids(parts[i]) && qid in Qids(parts[j]);
    }
    if Shared(parts, qid) {
      var i, j :| 0 <= i < j < |parts| && qid in Qids(parts[i]) && qid in Qids(parts[j]);
      assert qid in Qids(init[i]);
      if j < last {
        assert qid in Qids(init[j]);
      }
    }
    if qid in Qids(Joined(init)) && qid in Qids(parts[last]) {
      var i :| 0 <= i < |init| && qid in Qids(init[i]);
      assert qid in Qids(parts[i]);
    }
  }

  /** Counting part by part counts no less than counting once, and the same if and only if no entity that
      weighs anything has rows in two parts. */
  lemma {:induction false} PartsWeighMore(parts: seq<seq<Anchored>>, weight: string -> nat)
    ensures SumOfParts(parts, weight) >= Sum(Qids(Joined(parts)), weight)
    ensures SumOfParts(parts, weight) == Sum(Qids(Joined(parts)), weight) <==>
      forall qid | Shared(parts, qid) :: weight(qid) == 0
  {
    hide Qids, Sum, Again, Shared;
    if parts == [] {
      NothingShared();
    } else {
      var last := |parts| - 1;
      var init := parts[..last];
      PartsWeighMore(init, weight);
      SumConcat(Joined(init), parts[last], weight);
      NothingAgain(Qids(Joined(init)), Qids(parts[last]), weight);
      forall qid: string
        ensures Shared(parts, qid) <==> Shared(init, qid) || (qid in Qids(Joined(init)) && qid in Qids(parts[last]))
      {
        SharedNext(parts, qid);
      }
    }
  }

  lemma NothingShared()
    ensures forall qid :: !Shared([], qid)
    ensures forall weight: string -> nat :: Sum(Qids([]), weight) == 0
  {
  }

  /** How many statements an entity has, and how many of them have no far end in the catalog. */
  function Fetched(wiki: Wiki): string -> nat { qid => |wiki(qid)| }

  function Unmatched(wiki: Wiki, ends: Ends): string -> nat { qid => UnmatchedIn(wiki(qid), ends) }

  function UnmatchedIn(statements: seq<Statement>, ends: Ends): nat {
    if statements == [] then 0
    else
      var s := statements[|statements| - 1];
      UnmatchedIn(statements[..|statements| - 1], ends) + if ends(s.to) == [] then 1 else 0
  }

  lemma {:induction false} UnmatchedConcat(a: seq<Statement>, b: seq<Statement>, ends: Ends)
    ensures UnmatchedIn(a + b, ends) == UnmatchedIn(a, ends) + UnmatchedIn(b, ends)
  {
    if b == [] {
      assert a + b == a;
    } else {
      var last := |b| - 1;
      UnmatchedConcat(a, b[..last], ends);
      assert (a + b)[..|a + b| - 1] == a + b[..last];
    }
  }

  lemma {:induction false} UnmatchedNone(statements: seq<Statement>, ends: Ends)
    ensures UnmatchedIn(statements, ends) == 0 <==> forall s | s in statements :: ends(s.to) != []
  {
    if statements != [] {
      var last := |statements| - 1;
      UnmatchedNone(statements[..last], ends);
      assert statements == statements[..last] + [statements[last]];
    }
  }

  lemma {:induction false} WeightsOf(qids: seq<string>, wiki: Wiki, ends: Ends)
    ensures |StatementsOf(qids, wiki)| == Sum(qids, Fetched(wiki))
    ensures UnmatchedIn(StatementsOf(qids, wiki), ends) == Sum(qids, Unmatched(wiki, ends))
  {
    if qids != [] {
      var last := |qids| - 1;
      WeightsOf(qids[..last], wiki, ends);
      UnmatchedConcat(StatementsOf(qids[..last], wiki), wiki(qids[last]), ends);
    }
  }

  lemma {:induction false} StatementsCounted(statements: seq<Statement>, rows: seq<Anchored>, ends: Ends)
    requires forall i | 0 <= i < |statements| :: HasOrigin(rows, statements[i])
    ensures TallyOfStatements(statements, rows, ends).statements == |statements|
    ensures TallyOfStatements(statements, rows, ends).unmatchedEnds == UnmatchedIn(statements, ends)
  {
    hide HasOrigin, OwnTally, Pairings, EdgeTally.Plus;
    if statements != [] {
      var init, s := statements[..|statements| - 1], statements[|statements| - 1];
      StatementsCounted(init, rows, ends);
      OwnCounts(s, rows, ends);
      PairingsCountNoStatement(rows, s, ends);
      CountsAdd(TallyOfStatements(init, rows, ends), OwnTally(s, rows, ends), Pairings(rows, s, ends));
    }
  }

  lemma OwnCounts(s: Statement, rows: seq<Anchored>, ends: Ends)
    requires HasOrigin(rows, s)
    ensures OwnTally(s, rows, ends).statements == 1
    ensures OwnTally(s, rows, ends).unmatchedEnds == if ends(s.to) == [] then 1 else 0
  {
    hide HasOrigin;
  }

  lemma CountsAdd(a: EdgeTally, b: EdgeTally, c: EdgeTally)
    ensures a.Plus(b).Plus(c).statements == a.statements + b.statements + c.statements
    ensures a.Plus(b).Plus(c).unmatchedEnds == a.unmatchedEnds + b.unmatchedEnds + c.unmatchedEnds
    ensures a.Plus(b).statements == a.statements + b.statements
    ensures a.Plus(b).unmatchedEnds == a.unmatchedEnds + b.unmatchedEnds
  {
  }

  lemma {:induction false} PairingsCountNoStatement(rows: seq<Anchored>, s: Statement, ends: Ends)
    ensures Pairings(rows, s, ends).statements == 0 && Pairings(rows, s, ends).unmatchedEnds == 0
  {
    hide EdgeTally.Plus;
    if rows != [] {
      var init, row := rows[..|rows| - 1], rows[|rows| - 1];
      PairingsCountNoStatement(init, s, ends);
      CountsAdd(Pairings(init, s, ends), Pairing(row, s, ends), NO_TALLY);
    }
  }

  lemma {:induction false} QidsHaveRows(rows: seq<Anchored>, qid: string)
    requires qid in Qids(rows)
    ensures exists i | 0 <= i < |rows| :: rows[i].qid == qid
  {
    var last := |rows| - 1;
    if rows[last].qid != qid {
      QidsHaveRows(rows[..last], qid);
      var i :| 0 <= i < last && rows[..last][i].qid == qid;
      assert rows[i].qid == qid;
    }
  }

  lemma BatchWeighs(rows: seq<Anchored>, wiki: Wiki, ends: Ends)
    requires HonestWiki(wiki)
    ensures TallyOf(rows, wiki, ends).statements == Sum(Qids(rows), Fetched(wiki))
    ensures TallyOf(rows, wiki, ends).unmatchedEnds == Sum(Qids(rows), Unmatched(wiki, ends))
  {
    hide Qids, StatementsOf, TallyOfStatements;
    var statements := StatementsOf(Qids(rows), wiki);
    WeightsOf(Qids(rows), wiki, ends);
    forall i | 0 <= i < |statements|
      ensures HasOrigin(rows, statements[i])
    {
      StatementsAreThose(Qids(rows), wiki, statements[i]);
      QidsHaveRows(rows, statements[i].from);
    }
    StatementsCounted(statements, rows, ends);
  }

  lemma {:induction false} PartsWeigh(parts: seq<seq<Anchored>>, wiki: Wiki, ends: Ends)
    requires HonestWiki(wiki)
    ensures TallyOfParts(parts, wiki, ends).statements == SumOfParts(parts, Fetched(wiki))
    ensures TallyOfParts(parts, wiki, ends).unmatchedEnds == SumOfParts(parts, Unmatched(wiki, ends))
  {
    hide TallyOf, Sum, Fetched, Unmatched, HonestWiki, EdgeTally.Plus;
    if parts != [] {
      var init, rows := parts[..|parts| - 1], parts[|parts| - 1];
      PartsWeigh(init, wiki, ends);
      BatchWeighs(rows, wiki, ends);
      CountsAdd(TallyOfParts(init, wiki, ends), TallyOf(rows, wiki, ends), NO_TALLY);
    }
  }

  /** Main result about the other two counters, the exact conditions. Cutting the rows into batches never
      lowers the count of statements or of unmatched ends. It leaves the first as in one batch if and only
      if no entity with a statement has rows in two batches, and the second if and only if none with a
      statement whose far end is not in the catalog has. */
  lemma CountsAgreeExactly(parts: seq<seq<Anchored>>, wiki: Wiki, ends: Ends)
    requires HonestWiki(wiki)
    ensures var cut, whole := TallyOfParts(parts, wiki, ends), TallyOf(Joined(parts), wiki, ends);
      && cut.statements >= whole.statements && cut.unmatchedEnds >= whole.unmatchedEnds
      && (cut.statements == whole.statements <==> forall qid | Shared(parts, qid) :: wiki(qid) == [])
      && (cut.unmatchedEnds == whole.unmatchedEnds <==>
            forall qid | Shared(parts, qid) :: forall s | s in wiki(qid) :: ends(s.to) != [])
  {
    hide TallyOf, TallyOfParts, Sum, SumOfParts, Shared, Joined, Qids, UnmatchedIn, HonestWiki;
    PartsWeigh(parts, wiki, ends);
    BatchWeighs(Joined(parts), wiki, ends);
    PartsWeighMore(parts, Fetched(wiki));
    PartsWeighMore(parts, Unmatched(wiki, ends));
    forall qid: string
      ensures Unmatched(wiki, ends)(qid) == 0 <==> forall s | s in wiki(qid) :: ends(s.to) != []
    {
      UnmatchedNone(wiki(qid), ends);
    }
  }

  /** Two items of one entity, in one batch each: its statement is fetched and counted twice, and so is its
      missing far end. */
  lemma StatementsMayBeCountedTwice(a: Item, b: Item, s: Statement, ends: Ends)
    ensures var wiki: Wiki := qid => if qid == s.from then [s] else [];
      var parts := [[Anchored(a, s.from)], [Anchored(b, s.from)]];
      var cut, whole := TallyOfParts(parts, wiki, ends), TallyOf(Joined(parts), wiki, ends);
      && HonestWiki(wiki) && cut.statements > whole.statements
      && (ends(s.to) == [] ==> cut.unmatchedEnds > whole.unmatchedEnds)
  {
    hide TallyOf, TallyOfParts, Joined;
    var wiki: Wiki := qid => if qid == s.from then [s] else [];
    var parts := [[Anchored(a, s.from)], [Anchored(b, s.from)]];
    assert parts[0][..0] == [] && parts[1][..0] == [];
    assert s.from in Qids(parts[0]) && s.from in Qids(parts[1]);
    assert Shared(parts, s.from) && s in wiki(s.from);
    CountsAgreeExactly(parts, wiki, ends);
  }

  // ---- what the edges are

  lemma SameRowsSameEdges(one: Edges, other: Edges, before: Edges, rows: seq<Anchored>, wiki: Wiki, ends: Ends)
    requires EdgesAre(one, before, rows, wiki, ends) && EdgesAre(other, before, rows, wiki, ends)
    ensures one == other
  {
    hide Wanted;
  }

  /** Main result. Two executions from the same edges and cursor, with whatever two batch sizes, that have
      read as many rows leave the same edges and have created as many, and have written and skipped as
      many pairs; two that complete have read as many and leave the same cursor. */
  lemma BatchSizeDoesNotMatter(table: AnchorTable, before: Edges, from: Cursor, wiki: Wiki, ends: Ends, size: int,
                               x: Execution, xs: seq<seq<Anchored>>, other: int, y: Execution, ys: seq<seq<Anchored>>)
    requires HonestWiki(wiki) && size >= 1 && other >= 1
    requires Executes(table, before, from, size, wiki, ends, x, xs)
    requires Executes(table, before, from, other, wiki, ends, y, ys)
    ensures x.read == y.read ==>
      x.edges == y.edges && x.created == y.created && x.tally.OnlyPairs() == y.tally.OnlyPairs()
    ensures x.completed && y.completed ==> x.read == y.read && x.cursor == y.cursor == Cleared
  {
    hide HonestWiki, All, RowsRead, EdgesAre, Joined, TallyOf, TallyOfParts, Touched, AfterAll, AllHandled, Even,
      EdgeTally.OnlyPairs;
    if x.read == y.read {
      SameRowsSameEdges(x.edges, y.edges, before, RowsRead(table, Start(from), x.read), wiki, ends);
      BatchingKeepsTheCounts(xs, wiki, ends);
      BatchingKeepsTheCounts(ys, wiki, ends);
    }
  }

  /** A pass after a completed one from the top, over the same table and with whatever batch size, creates
      nothing and changes nothing, however far it gets. */
  lemma SecondPassCreatesNothing(table: AnchorTable, before: Edges, from: Cursor, wiki: Wiki, ends: Ends, size: int,
                                 x: Execution, xs: seq<seq<Anchored>>, other: int, y: Execution, ys: seq<seq<Anchored>>)
    requires HonestWiki(wiki) && size >= 1 && Start(from) == 0 && x.completed
    requires Executes(table, before, from, size, wiki, ends, x, xs)
    requires Executes(table, x.edges, x.cursor, other, wiki, ends, y, ys)
    ensures y.created == 0 && y.edges == x.edges
  {
    hide HonestWiki, All, RowsRead, Joined, TallyOf, TallyOfParts, Touched, AfterAll, AllHandled, Even, Wanted;
    var mine, theirs := RowsRead(table, 0, x.read), RowsRead(table, 0, y.read);
    RowsArePrefixes(table, 0, y.read, x.read);
    forall e | Wanted(theirs, wiki, ends, e)
      ensures Wanted(mine, wiki, ends, e)
    {
      WantedByMore(theirs, mine, wiki, ends, e);
    }
    assert y.edges == x.edges;
  }

  lemma RowsArePrefixes(table: AnchorTable, start: int, n: nat, m: nat)
    requires n <= m <= |All(table.Keys, start)|
    ensures RowsRead(table, start, n) <= RowsRead(table, start, m)
  {
    hide All;
    AllAreAnchored(table, start);
  }

  lemma WantedByMore(few: seq<Anchored>, more: seq<Anchored>, wiki: Wiki, ends: Ends, e: Edge)
    requires few <= more && Wanted(few, wiki, ends, e)
    ensures Wanted(more, wiki, ends, e)
  {
    hide Yields;
    var origin, s, to :| origin in few && s in wiki(origin.qid) && to in ends(s.to) && Yields(origin, s, to, e);
    assert origin in more;
  }

  ghost predicate NoSelfEdges(edges: Edges) {
    forall e | e in edges :: e.from != e.to
  }

  /** No pass ever writes an edge from an item to itself, and each edge says which of its ends the
      statement was about. */
  lemma EdgesAreGenuine(edges: Edges, before: Edges, rows: seq<Anchored>, wiki: Wiki, ends: Ends, e: Edge)
    requires EdgesAre(edges, before, rows, wiki, ends) && NoSelfEdges(before)
    ensures NoSelfEdges(edges)
    ensures e in edges && e !in before ==>
      exists origin, s, to :: origin in rows && s in wiki(origin.qid) && to in ends(s.to) && e.from == origin.item
        && e.to == to
        && (e.relation == Adaptation <==> s.property == P144)
  {
    if e in edges && e !in before {
      var origin, s, to :| origin in rows && s in wiki(origin.qid) && to in ends(s.to) && Yields(origin, s, to, e);
      assert e.from == origin.item;
    }
  }

  /** A pass that stopped after `read` rows and the one that resumes at its cursor leave what one
      uninterrupted pass would have left. */
  lemma ResumedPassIsOnePass(table: AnchorTable, start: int, read: nat, more: nat, half: Edges, end: Edges,
                             before: Edges, wiki: Wiki, ends: Ends)
    requires 0 < read <= |All(table.Keys, start)|
    requires var cursor := All(table.Keys, start)[read - 1];
      && more <= |All(table.Keys, cursor)|
      && EdgesAre(end, half, RowsRead(table, cursor, more), wiki, ends)
    requires EdgesAre(half, before, RowsRead(table, start, read), wiki, ends)
    ensures read + more <= |All(table.Keys, start)|
    ensures EdgesAre(end, before, RowsRead(table, start, read + more), wiki, ends)
    ensures more == |All(table.Keys, All(table.Keys, start)[read - 1])| ==> read + more == |All(table.Keys, start)|
  {
    hide Wanted, All;
    var all := All(table.Keys, start);
    var cursor := all[read - 1];
    AllSplits(table.Keys, start, read);
    AllAreAnchored(table, start);
    var rest := All(table.Keys, cursor);
    assert all[..read + more] == all[..read] + rest[..more];
    var a, b := RowsRead(table, start, read), RowsRead(table, cursor, more);
    assert RowsRead(table, start, read + more) == a + b;
    forall e
      ensures Wanted(a + b, wiki, ends, e) <==> Wanted(a, wiki, ends, e) || Wanted(b, wiki, ends, e)
    {
      WantedByEither(a, b, wiki, ends, e);
    }
  }
}
