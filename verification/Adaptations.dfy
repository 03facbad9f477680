/** The adaptations of one item: which other items it is based on, and which are derived from it. */
module Adaptations {
  import opened Common

  datatype Relation = Adaptation | Derivative | Cooccurrence

  datatype Source = Wikidata | Internal

  /** One stored edge. An adaptation is based on its far end; a derivative is derived from its near end. */
  datatype Edge = Edge(from: Item, to: Item, relation: Relation, source: Source)

  datatype Direction = SourceOf | DerivedFrom

  /** Where the other end of an edge stands, seen from the item that is its `from` end or its `to` end. */
  function DirectionOfOtherEnd(relation: Relation, anchorIsFrom: bool): Option<Direction> {
    match relation
    case Adaptation => Some(if anchorIsFrom then SourceOf else DerivedFrom)
    case Derivative => Some(if anchorIsFrom then DerivedFrom else SourceOf)
    case Cooccurrence => None
  }

  datatype End = End(item: Item, direction: Direction)

  predicate Touches(e: Edge, item: Item) {
    e.source == Wikidata && (e.from == item || e.to == item)
  }

  /** What one edge says to an item, when it says anything. */
  function EndOf(e: Edge, item: Item): Option<End> {
    var anchorIsFrom := e.from == item;
    var direction := DirectionOfOtherEnd(e.relation, anchorIsFrom);
    if direction.None? then None else Some(End(if anchorIsFrom then e.to else e.from, direction.value))
  }

  /** The ends of the edges that touch the item, in the order the edges are read. */
  function EndsOf(edges: seq<Edge>, item: Item): seq<End> {
    if edges == [] then []
    else
      var e := edges[0];
      (if Touches(e, item) && EndOf(e, item).Some? then [EndOf(e, item).value] else []) + EndsOf(edges[1..], item)
  }

  function Exists(existing: set<Item>): End -> bool {
    (end: End) => end.item in existing
  }

  /** What the page of an item lists: ends that still name an item, each once, in order of first appearance. */
  function Listed(edges: seq<Edge>, existing: set<Item>, item: Item): seq<End> {
    MergeNew([], Filter(EndsOf(edges, item), Exists(existing)))
  }

  method GetItemAdaptations(edges: seq<Edge>, existing: set<Item>, anchor: Option<Item>) returns (r: Result<seq<End>>)
    ensures r.Err? <==> anchor.None?
    ensures anchor.Some? ==> r == Ok(Listed(edges, existing, anchor.value))
  {
    hide EndsOf, Filter, MergeNew;
    if anchor.None? {
      return Err("item not found");
    }
    var item := anchor.value;
    var ends: seq<End> := [];
    EndsEnd(edges, item);
    for i := 0 to |edges|
      invariant ends + EndsOf(edges[i..], item) == EndsOf(edges, item)
    {
      EndsStep(edges, item, i);
      if Touches(edges[i], item) {
        var end := EndOf(edges[i], item);
        if end.Some? {
          assert ends + ([end.value] + EndsOf(edges[i + 1..], item))
            == ends + [end.value] + EndsOf(edges[i + 1..], item);
          ends := ends + [end.value];
        } else {
          assert [] + EndsOf(edges[i + 1..], item) == EndsOf(edges[i + 1..], item);
        }
      } else {
        assert [] + EndsOf(edges[i + 1..], item) == EndsOf(edges[i + 1..], item);
      }
    }
    EndsEnd(edges, item);
    assert ends + [] == ends;
    ghost var p := Exists(existing);
    var results: seq<End> := [];
    assert ends[..0] == [];
    NothingListed(p);
    for i := 0 to |ends|
      invariant results == MergeNew([], Filter(ends[..i], p))
    {
      assert ends[..i + 1] == ends[..i] + [ends[i]];
      OneMoreEnd(ends[..i], ends[i], p);
      if ends[i].item in existing && ends[i] !in results {
        results := results + [ends[i]];
      }
    }
    assert ends[..|ends|] == ends;
    return Ok(results);
  }

  lemma EndsStep(edges: seq<Edge>, item: Item, i: nat)
    requires i < |edges|
    ensures EndsOf(edges[i..], item)
         == (if Touches(edges[i], item) && EndOf(edges[i], item).Some? then [EndOf(edges[i], item).value] else [])
            + EndsOf(edges[i + 1..], item)
  {
    assert edges[i..][1..] == edges[i + 1..];
  }

  lemma EndsEnd(edges: seq<Edge>, item: Item)
    ensures EndsOf(edges[|edges|..], item) == [] && edges[0..] == edges
  {
  }

  lemma NothingListed(p: End -> bool)
    ensures MergeNew([], Filter([], p)) == []
  {
  }

  lemma OneMoreEnd(ends: seq<End>, end: End, p: End -> bool)
    ensures var before := MergeNew([], Filter(ends, p));
      MergeNew([], Filter(ends + [end], p)) == if p(end) && end !in before then before + [end] else before
  {
    hide Filter, MergeNew;
    FilterConcat(ends, [end], p);
    FilterOne(end, p);
    var kept := if p(end) then [end] else [];
    MergeNewConcat([], Filter(ends, p), kept);
    MergeOne(MergeNew([], Filter(ends, p)), kept);
  }

  lemma FilterOne(end: End, p: End -> bool)
    ensures Filter([end], p) == if p(end) then [end] else []
  {
    assert [end][1..] == [];
  }

  lemma MergeOne(seen: seq<End>, kept: seq<End>)
    requires |kept| <= 1
    ensures MergeNew(seen, kept) == if kept == [] || kept[0] in seen then seen else seen + kept
  {
    if kept != [] {
      assert kept[1..] == [] && kept == [kept[0]];
    }
  }

  // ---- what the two pages say about each other

  /** Some edge says to `item` that `other` stands in that direction. */
  ghost predicate Says(edges: seq<Edge>, item: Item, end: End) {
    exists i | 0 <= i < |edges| :: Touches(edges[i], item) && EndOf(edges[i], item) == Some(end)
  }

  lemma {:induction false} EndsAreSaid(edges: seq<Edge>, item: Item, end: End)
    ensures end in EndsOf(edges, item) <==> Says(edges, item, end)
  {
    if edges != [] {
      EndsAreSaid(edges[1..], item, end);
      if i :| 0 <= i < |edges| && Touches(edges[i], item) && EndOf(edges[i], item) == Some(end) {
        assert i > 0 ==> edges[1..][i - 1] == edges[i];
      }
      if Says(edges[1..], item, end) {
        var i :| 0 <= i < |edges[1..]| && Touches(edges[1..][i], item) && EndOf(edges[1..][i], item) == Some(end);
        assert edges[i + 1] == edges[1..][i];
      }
    }
  }

  lemma ListedIff(edges: seq<Edge>, existing: set<Item>, item: Item, end: End)
    ensures end in Listed(edges, existing, item) <==> end.item in existing && Says(edges, item, end)
  {
    hide Filter, MergeNew, EndsOf, Says;
    var p := Exists(existing);
    MergeNewMember([], Filter(EndsOf(edges, item), p), end);
    FilterMembers(EndsOf(edges, item), p);
    EndsAreSaid(edges, item, end);
  }

  /** What an edge says to one of its ends about the other, it says to the other the other way round. */
  lemma EdgeSaysBoth(e: Edge, a: Item, b: Item)
    requires a != b
    ensures Touches(e, a) && EndOf(e, a) == Some(End(b, SourceOf)) <==>
      Touches(e, b) && EndOf(e, b) == Some(End(a, DerivedFrom))
  {
  }

  /** The item is joined to itself by that relation. */
  predicate SelfEdge(edges: seq<Edge>, item: Item, relation: Relation) {
    exists i | 0 <= i < |edges| :: edges[i] == Edge(item, item, relation, Wikidata)
  }

  lemma SelfEdgesSay(edges: seq<Edge>, item: Item)
    ensures Says(edges, item, End(item, SourceOf)) <==> SelfEdge(edges, item, Adaptation)
    ensures Says(edges, item, End(item, DerivedFrom)) <==> SelfEdge(edges, item, Derivative)
  {
    forall i | 0 <= i < |edges|
      ensures Touches(edges[i], item) && EndOf(edges[i], item) == Some(End(item, SourceOf)) <==>
        edges[i] == Edge(item, item, Adaptation, Wikidata)
      ensures Touches(edges[i], item) && EndOf(edges[i], item) == Some(End(item, DerivedFrom)) <==>
        edges[i] == Edge(item, item, Derivative, Wikidata)
    {
      SelfEdgeSays(edges[i], item);
    }
  }

  lemma SelfEdgeSays(e: Edge, item: Item)
    ensures Touches(e, item) && EndOf(e, item) == Some(End(item, SourceOf)) <==>
      e == Edge(item, item, Adaptation, Wikidata)
    ensures Touches(e, item) && EndOf(e, item) == Some(End(item, DerivedFrom)) <==>
      e == Edge(item, item, Derivative, Wikidata)
  {
  }

  /** Main result. Over any edges, an item lists another as its source exactly when the other lists it as
      derived. An item lists itself in both directions or in neither if and only if it is joined to itself
      by both relations or by neither. */
  lemma DirectionsAreSymmetric(edges: seq<Edge>, existing: set<Item>, a: Item, b: Item)
    requires a in existing && b in existing
    ensures (End(b, SourceOf) in Listed(edges, existing, a) <==> End(a, DerivedFrom) in Listed(edges, existing, b)) <==>
      a != b || (SelfEdge(edges, a, Adaptation) <==> SelfEdge(edges, a, Derivative))
  {
    hide Listed, EndOf, Touches, SelfEdge;
    ListedIff(edges, existing, a, End(b, SourceOf));
    ListedIff(edges, existing, b, End(a, DerivedFrom));
    if a == b {
      SelfEdgesSay(edges, a);
    } else {
      forall i | 0 <= i < |edges|
        ensures Touches(edges[i], a) && EndOf(edges[i], a) == Some(End(b, SourceOf))
          <==> Touches(edges[i], b) && EndOf(edges[i], b) == Some(End(a, DerivedFrom))
      {
        EdgeSaysBoth(edges[i], a, b);
      }
    }
  }

  /** A self-edge breaks it: the item would be listed as its own source and not as derived from itself. */
  lemma SelfEdgeBreaksSymmetry(item: Item)
    ensures var edges := [Edge(item, item, Adaptation, Wikidata)];
      End(item, SourceOf) in Listed(edges, {item}, item) && End(item, DerivedFrom) !in Listed(edges, {item}, item)
  {
    hide Listed;
    var edges := [Edge(item, item, Adaptation, Wikidata)];
    ListedIff(edges, {item}, item, End(item, SourceOf));
    ListedIff(edges, {item}, item, End(item, DerivedFrom));
    assert Touches(edges[0], item) && EndOf(edges[0], item) == Some(End(item, SourceOf));
  }

  /** Two inverse statements about the same pair collapse into one entry, and the entries come in the
      order in which the edges first say them. */
  lemma ListedOnceInOrder(edges: seq<Edge>, existing: set<Item>, item: Item, i: nat, j: nat)
    requires i < j < |Listed(edges, existing, item)|
    ensures var listed, said := Listed(edges, existing, item), Filter(EndsOf(edges, item), Exists(existing));
      && listed[i] != listed[j] && listed[i] in said && listed[j] in said
      && FirstAt(said, listed[i]) < FirstAt(said, listed[j])
  {
    hide Filter, MergeNew, EndsOf, FirstAt;
    var said := Filter(EndsOf(edges, item), Exists(existing));
    MergeNewExtends([], said);
    MergeNewKeepsFirstOrder(said, i, j);
  }

  /** Edges of other layers never show. */
  lemma OtherLayersNeverShow(edges: seq<Edge>, more: seq<Edge>, existing: set<Item>, item: Item)
    requires forall i | 0 <= i < |more| :: more[i].source == Internal || more[i].relation == Cooccurrence
    ensures Listed(edges + more, existing, item) == Listed(edges, existing, item)
  {
    hide MergeNew, Filter;
    EndsConcat(edges, more, item);
    NoEnds(more, item);
    assert EndsOf(edges, item) + [] == EndsOf(edges, item);
  }

  lemma {:induction false} EndsConcat(a: seq<Edge>, b: seq<Edge>, item: Item)
    ensures EndsOf(a + b, item) == EndsOf(a, item) + EndsOf(b, item)
  {
    if a == [] {
      assert a + b == b;
    } else {
      assert (a + b)[1..] == a[1..] + b;
      EndsConcat(a[1..], b, item);
      var head := if Touches(a[0], item) && EndOf(a[0], item).Some? then [EndOf(a[0], item).value] else [];
      assert head + (EndsOf(a[1..], item) + EndsOf(b, item)) == head + EndsOf(a[1..], item) + EndsOf(b, item);
    }
  }

  lemma {:induction false} NoEnds(more: seq<Edge>, item: Item)
    requires forall i | 0 <= i < |more| :: more[i].source == Internal || more[i].relation == Cooccurrence
    ensures EndsOf(more, item) == []
  {
    if more != [] {
      NoEnds(more[1..], item);
    }
  }
}
