/** The tables of the credits redesign and the statements that move rows between them, each run over a
    span of ids: the wide table with names for codes, the narrow table of graph credits, and one payload of
    cast entries per item. What the database leaves open, such as its collation, its order among ties and
    the row that wins among namesakes, is part of a session. */
module CreditTables {
  import opened Common

  /** The vocabularies and the codes that replace them on disk. */
  datatype Codes = Codes(types: map<string, int>, roles: map<string, int>, creditTypes: set<string>,
                         castRole: string, personType: string) {
    /** Codes are never shared, and every credit type and the cast role have one. */
    ghost predicate WellFormed() {
      Injective(types) && Injective(roles) && creditTypes <= types.Keys && castRole in roles
    }
  }

  const CODES: Codes := Codes(
    map["MOVIE" := 1, "SERIES" := 2, "BOOK" := 3, "GAME" := 4, "PERSON" := 5],
    map["ACTOR" := 1, "DIRECTOR" := 2, "WRITER" := 3, "AUTHOR" := 4, "SOURCE_AUTHOR" := 5, "CREATOR" := 6],
    {"MOVIE", "SERIES", "BOOK", "GAME"}, "ACTOR", "PERSON")

  ghost predicate Injective(codes: map<string, int>) {
    forall a, b | a in codes && b in codes && codes[a] == codes[b] :: a == b
  }

  /** The name behind a code. */
  function NameOf(codes: map<string, int>, code: int): (name: string)
    requires Injective(codes) && code in codes.Values
    ensures name in codes && codes[name] == code
  {
    var name :| name in codes && codes[name] == code;
    name
  }

  lemma CodesAreWellFormed()
    ensures CODES.WellFormed()
  {
    var types := CODES.types;
    assert types.Keys == {"MOVIE", "SERIES", "BOOK", "GAME", "PERSON"};
    var roles := CODES.roles;
    assert roles.Keys == {"ACTOR", "DIRECTOR", "WRITER", "AUTHOR", "SOURCE_AUTHOR", "CREATOR"};
  }

  // ---- tables

  /** The identity of a credit in the wide table, and the rest of its row. */
  datatype Key = Key(itemType: string, itemId: int, personId: int, role: string)

  datatype Credit = Credit(character: Option<string>, billing: Option<int>, createdAt: int)

  /** The identity of a credit in the narrow table; the rest of its row is when it was created. */
  datatype GraphKey = GraphKey(itemId: int, personId: int, itemType: int, role: int)

  datatype CastKey = CastKey(itemType: int, itemId: int)

  /** One entry of a cast payload: absent keys are `None`. */
  datatype Entry = Entry(name: string, character: Option<string>, billing: Option<int>)

  datatype ExternalId = ExternalId(itemType: string, itemId: int, value: string)

  datatype Database = Database(
    wide: map<Key, Credit>,
    narrow: map<GraphKey, int>,
    cast: map<CastKey, seq<Entry>>,
    people: map<int, string>,
    externalIds: set<ExternalId>,
    castOnly: set<int>,
    byName: map<string, int>)

  /** One row of the join that feeds the payloads. */
  datatype CastRow = CastRow(key: Key, entry: Entry)

  /** How the database lists a group of rows, compares names, picks among the entries of one name when
      only one of them can be inserted, and what time it is. */
  datatype Session = Session(codes: Codes, list: set<CastRow> -> seq<CastRow>, collation: (string, string) -> bool,
                             pick: (seq<Entry>, string) -> Entry, now: int) {
    /** By billing order, unknown ones last, then by name; ties in any order. */
    predicate InOrder(a: Entry, b: Entry) {
      if a.billing == b.billing then collation(a.name, b.name)
      else a.billing.Some? && (b.billing.None? || a.billing.value < b.billing.value)
    }

    ghost predicate Listing(listed: seq<CastRow>, rows: set<CastRow>) {
      && Distinct(listed)
      && (forall row :: row in listed <==> row in rows)
      && (forall i, j | 0 <= i < j < |listed| :: InOrder(listed[i].entry, listed[j].entry))
    }

    ghost predicate Valid() {
      && codes.WellFormed()
      && (forall rows :: Listing(list(rows), rows))
      && (forall payload, name | HasName(payload, name) :: pick(payload, name) in payload
            && pick(payload, name).name == name)
    }
  }

  /** The ids a statement looks at. */
  datatype Span = Everything | Window(lo: int, hi: int) {
    predicate Has(id: int) { Everything? || lo <= id < hi }
  }

  // ---- the vocabulary check

  ghost predicate Known(c: Codes, wide: map<Key, Credit>) {
    forall key | key in wide :: key.itemType in c.creditTypes && key.role in c.roles
  }

  function UnknownTypes(c: Codes, wide: map<Key, Credit>): set<string> {
    set key | key in wide && key.itemType !in c.creditTypes :: key.itemType
  }

  function UnknownRoles(c: Codes, wide: map<Key, Credit>): set<string> {
    set key | key in wide && key.role !in c.roles :: key.role
  }

  lemma KnownIffNothingUnknown(c: Codes, wide: map<Key, Credit>)
    ensures Known(c, wide) <==> UnknownTypes(c, wide) == {} && UnknownRoles(c, wide) == {}
  {
    forall key | key in wide
      ensures key.itemType !in c.creditTypes ==> key.itemType in UnknownTypes(c, wide)
      ensures key.role !in c.roles ==> key.role in UnknownRoles(c, wide)
    {
    }
  }

  // ---- backfilling the payloads

  /** A cast row with a name: the ones that get a payload entry. */
  predicate Named(c: Codes, wide: map<Key, Credit>, people: map<int, string>, key: Key) {
    && key in wide && key.role == c.castRole && key.itemType in c.creditTypes
    && key.personId in people && people[key.personId] != ""
  }

  function NullIfEmpty(text: Option<string>): Option<string> {
    if text == Some("") then None else text
  }

  function EntryOf(c: Codes, wide: map<Key, Credit>, people: map<int, string>, key: Key): Entry
    requires Named(c, wide, people, key)
  {
    Entry(people[key.personId], NullIfEmpty(wide[key].character), wide[key].billing)
  }

  function GroupOf(c: Codes, key: Key): CastKey
    requires key.itemType in c.types
  {
    CastKey(c.types[key.itemType], key.itemId)
  }

  /** The rows of one group among the credits a statement looks at: the span filters the rows that are
      aggregated, before they are grouped. */
  function GroupRows(c: Codes, wide: map<Key, Credit>, people: map<int, string>, span: Span, g: CastKey): set<CastRow>
    requires c.creditTypes <= c.types.Keys
  {
    set key | key in wide && Named(c, wide, people, key) && span.Has(key.itemId) && GroupOf(c, key) == g ::
      CastRow(key, EntryOf(c, wide, people, key))
  }

  function Groups(c: Codes, wide: map<Key, Credit>, people: map<int, string>, span: Span): set<CastKey>
    requires c.creditTypes <= c.types.Keys
  {
    set key | key in wide && Named(c, wide, people, key) && span.Has(key.itemId) :: GroupOf(c, key)
  }

  function EntriesOf(rows: seq<CastRow>): (entries: seq<Entry>)
    ensures |entries| == |rows| && forall i | 0 <= i < |rows| :: entries[i] == rows[i].entry
  {
    seq(|rows|, i requires 0 <= i < |rows| => rows[i].entry)
  }

  function Payload(s: Session, wide: map<Key, Credit>, people: map<int, string>, span: Span, g: CastKey): seq<Entry>
    requires s.codes.creditTypes <= s.codes.types.Keys
  {
    EntriesOf(s.list(GroupRows(s.codes, wide, people, span, g)))
  }

  function Payloads(s: Session, wide: map<Key, Credit>, people: map<int, string>, span: Span): map<CastKey, seq<Entry>>
    requires s.codes.creditTypes <= s.codes.types.Keys
  {
    map g | g in Groups(s.codes, wide, people, span) :: Payload(s, wide, people, span, g)
  }

  /** A group never straddles a window, because its key holds the item id: a span that holds the item
      sees the whole group, and one that does not sees none of it. */
  lemma GroupIsWholeOrAbsent(c: Codes, wide: map<Key, Credit>, people: map<int, string>, span: Span, g: CastKey)
    requires c.creditTypes <= c.types.Keys
    ensures g in Groups(c, wide, people, span) <==>
      span.Has(g.itemId) && GroupRows(c, wide, people, Everything, g) != {}
    ensures GroupRows(c, wide, people, span, g) ==
      if span.Has(g.itemId) then GroupRows(c, wide, people, Everything, g) else {}
  {
    hide EntryOf;
    var whole := GroupRows(c, wide, people, Everything, g);
    if g in Groups(c, wide, people, span) {
      var key :| key in wide && Named(c, wide, people, key) && span.Has(key.itemId) && GroupOf(c, key) == g;
      assert CastRow(key, EntryOf(c, wide, people, key)) in whole;
    }
    if span.Has(g.itemId) && whole != {} {
      var row := SomeMember(whole);
      assert GroupOf(c, row.key) == g;
    }
  }

  // ---- copying the graph

  function GraphKeyOf(c: Codes, key: Key): GraphKey
    requires key.itemType in c.types && key.role in c.roles
  {
    GraphKey(key.itemId, key.personId, c.types[key.itemType], c.roles[key.role])
  }

  lemma GraphKeysDiffer(c: Codes, a: Key, b: Key)
    requires c.WellFormed() && a.itemType in c.types && a.role in c.roles && b.itemType in c.types && b.role in c.roles
    ensures GraphKeyOf(c, a) == GraphKeyOf(c, b) <==> a == b
  {
  }

  function WideKeyOf(c: Codes, g: GraphKey): (key: Key)
    requires c.WellFormed() && g.itemType in c.types.Values && g.role in c.roles.Values
    ensures key.itemType in c.types && key.role in c.roles && GraphKeyOf(c, key) == g
  {
    Key(NameOf(c.types, g.itemType), g.itemId, g.personId, NameOf(c.roles, g.role))
  }

  function GraphKeys(c: Codes, wide: map<Key, Credit>, span: Span): set<GraphKey>
    requires c.WellFormed() && Known(c, wide)
  {
    set key | key in wide && key.role != c.castRole && span.Has(key.itemId) :: GraphKeyOf(c, key)
  }

  function GraphRows(c: Codes, wide: map<Key, Credit>, span: Span): map<GraphKey, int>
    requires c.WellFormed() && Known(c, wide)
  {
    map g | g in GraphKeys(c, wide, span) ::
      GraphKeyInverse(c, wide, span, g);
      wide[WideKeyOf(c, g)].createdAt
  }

  lemma GraphKeyInverse(c: Codes, wide: map<Key, Credit>, span: Span, g: GraphKey)
    requires c.WellFormed() && Known(c, wide)
    ensures g in GraphKeys(c, wide, span) <==>
      g.itemType in c.types.Values && g.role in c.roles.Values && WideKeyOf(c, g) in wide
      && WideKeyOf(c, g).role != c.castRole && span.Has(g.itemId)
  {
    if g in GraphKeys(c, wide, span) {
      var key :| key in wide && key.role != c.castRole && span.Has(key.itemId) && GraphKeyOf(c, key) == g;
      assert g.itemType == c.types[key.itemType] && g.role == c.roles[key.role];
      GraphKeysDiffer(c, key, WideKeyOf(c, g));
    }
  }

  // ---- restoring the wide table

  ghost predicate GraphDecodable(c: Codes, narrow: map<GraphKey, int>) {
    forall g | g in narrow :: g.itemType in c.types.Values && g.role in c.roles.Values
  }

  ghost predicate CastDecodable(c: Codes, cast: map<CastKey, seq<Entry>>) {
    forall g | g in cast :: g.itemType in c.types.Values
  }

  function RestoredGraph(c: Codes, narrow: map<GraphKey, int>, span: Span): map<Key, Credit>
    requires c.WellFormed() && GraphDecodable(c, narrow)
  {
    map key | key in (set g | g in narrow && span.Has(g.itemId) :: WideKeyOf(c, g)) ::
      Credit(None, None, narrow[GraphKeyOf(c, key)])
  }

  predicate HasName(payload: seq<Entry>, name: string) {
    exists i | 0 <= i < |payload| :: payload[i].name == name
  }

  /** The first entry of that name. */
  function EntryNamed(payload: seq<Entry>, name: string): (entry: Entry)
    requires HasName(payload, name)
    ensures entry in payload && entry.name == name
  {
    if payload[0].name == name then payload[0] else
      assert forall i | 0 < i < |payload| :: payload[i] == payload[1..][i - 1];
      EntryNamed(payload[1..], name)
  }

  function CastKeyOf(c: Codes, g: CastKey, personId: int): (key: Key)
    requires c.WellFormed() && g.itemType in c.types.Values
    ensures key.itemType in c.types && GroupOf(c, key) == g && key.personId == personId && key.role == c.castRole
  {
    Key(NameOf(c.types, g.itemType), g.itemId, personId, c.castRole)
  }

  // ---- sessions exist

  ghost predicate Orders(collation: (string, string) -> bool) {
    && (forall a, b :: collation(a, b) || collation(b, a))
    && (forall a, b, c | collation(a, b) && collation(b, c) :: collation(a, c))
  }

  ghost function Placed(s: Session, row: CastRow, listed: seq<CastRow>): seq<CastRow> {
    if listed == [] || s.InOrder(row.entry, listed[0].entry) then [row] + listed
    else [listed[0]] + Placed(s, row, listed[1..])
  }

  ghost function ListOf(s: Session, rows: set<CastRow>): seq<CastRow> {
    if rows == {} then []
    else
      var row :| row in rows;
      Placed(s, row, ListOf(s, rows - {row}))
  }

  lemma {:induction false} PlacedIsListing(s: Session, row: CastRow, listed: seq<CastRow>, rows: set<CastRow>)
    requires Orders(s.collation) && s.Listing(listed, rows) && row !in rows
    ensures s.Listing(Placed(s, row, listed), rows + {row})
    decreases |listed|
  {
    hide s.Listing, s.InOrder, Orders;
    if listed == [] || s.InOrder(row.entry, listed[0].entry) {
      FirstIsBelowAll(s, row, listed, rows);
      ListingCons(s, row, listed, rows);
    } else {
      var head, rest := listed[0], listed[1..];
      ListingTail(s, listed, rows);
      PlacedIsListing(s, row, rest, rows - {head});
      InOrderIsTotal(s, row.entry, head.entry);
      ListingCons(s, head, Placed(s, row, rest), rows - {head} + {row});
      assert rows - {head} + {row} + {head} == rows + {row};
    }
  }

  lemma InOrderIsTotal(s: Session, a: Entry, b: Entry)
    requires Orders(s.collation) && !s.InOrder(a, b)
    ensures s.InOrder(b, a)
  {
  }

  /** A row in order before the first of a listing is in order before all of it. */
  lemma FirstIsBelowAll(s: Session, row: CastRow, listed: seq<CastRow>, rows: set<CastRow>)
    requires Orders(s.collation) && s.Listing(listed, rows)
    requires listed == [] || s.InOrder(row.entry, listed[0].entry)
    ensures forall x | x in rows :: s.InOrder(row.entry, x.entry)
  {
    hide Distinct;
    forall x | x in rows
      ensures s.InOrder(row.entry, x.entry)
    {
      var j :| 0 <= j < |listed| && listed[j] == x;
      if j > 0 {
        assert s.InOrder(listed[0].entry, listed[j].entry);
      }
    }
  }

  lemma ListingCons(s: Session, head: CastRow, listed: seq<CastRow>, rows: set<CastRow>)
    requires s.Listing(listed, rows) && head !in rows && forall x | x in rows :: s.InOrder(head.entry, x.entry)
    ensures s.Listing([head] + listed, rows + {head})
  {
    hide s.InOrder, Distinct;
    DistinctCons(head, listed);
    var more := [head] + listed;
    forall i, j | 0 <= i < j < |more|
      ensures s.InOrder(more[i].entry, more[j].entry)
    {
      assert more[j] == listed[j - 1] && listed[j - 1] in listed;
      assert i > 0 ==> more[i] == listed[i - 1];
    }
  }

  /** What a listing says about its first row, and the listing of the others. */
  lemma ListingTail(s: Session, listed: seq<CastRow>, rows: set<CastRow>)
    requires s.Listing(listed, rows) && listed != []
    ensures s.Listing(listed[1..], rows - {listed[0]}) && listed[0] in rows
    ensures forall x | x in rows - {listed[0]} :: s.InOrder(listed[0].entry, x.entry)
  {
    hide s.InOrder, Distinct;
    DistinctTail(listed);
    var rest := listed[1..];
    assert listed == [listed[0]] + rest;
    forall x | x in rows - {listed[0]}
      ensures s.InOrder(listed[0].entry, x.entry)
    {
      var j :| 0 <= j < |listed| && listed[j] == x;
    }
    forall i, j | 0 <= i < j < |rest|
      ensures s.InOrder(rest[i].entry, rest[j].entry)
    {
      assert rest[i] == listed[i + 1] && rest[j] == listed[j + 1];
    }
  }

  lemma {:induction false} ListOfIsListing(s: Session, rows: set<CastRow>)
    requires Orders(s.collation)
    ensures s.Listing(ListOf(s, rows), rows)
  {
    hide Placed;
    if rows != {} {
      var row :| row in rows && ListOf(s, rows) == Placed(s, row, ListOf(s, rows - {row}));
      ListOfIsListing(s, rows - {row});
      PlacedIsListing(s, row, ListOf(s, rows - {row}), rows - {row});
      assert rows - {row} + {row} == rows;
    }
  }

  /** Whatever total order the database compares names by, and whatever codes, there is a session. */
  lemma SessionExists(codes: Codes, collation: (string, string) -> bool, now: int) returns (s: Session)
    requires codes.WellFormed() && Orders(collation)
    ensures s.Valid() && s.codes == codes && s.collation == collation && s.now == now
  {
    hide ListOf, HasName, Orders;
    ghost var pick := (payload: seq<Entry>, name: string) =>
      if HasName(payload, name) then EntryNamed(payload, name) else Entry(name, None, None);
    ghost var bare := Session(codes, rows => [], collation, pick, now);
    s := Session(codes, rows => ListOf(bare, rows), collation, pick, now);
    forall rows
      ensures s.Listing(s.list(rows), rows)
    {
      ListOfIsListing(bare, rows);
    }
  }
}
