/** Running the bulk statements of the credits redesign window by window. Each statement filters its rows
    by the ids of the window before it groups or inserts anything, and the windows are run in order; shown
    is that this equals one statement over the whole table, for any ids and any width of the windows. */
module CreditStatements {
  import opened Common
  import opened CreditTables

  datatype Statement =
    | BackfillItemCast | CopyGraphCredits | PurgeExternalIds | PurgePeople
    | RestoreGraphCredits | RestoreCastCredits

  /** What a statement relies on: nothing here is changed by running it. */
  ghost predicate Ready(s: Session, st: Statement, db: Database) {
    && s.codes.WellFormed()
    && (st.CopyGraphCredits? ==> Known(s.codes, db.wide))
    && (st.RestoreGraphCredits? || st.RestoreCastCredits? ==>
          GraphDecodable(s.codes, db.narrow) && CastDecodable(s.codes, db.cast))
    && (st.RestoreCastCredits? ==> NamesPeople(db.people, db.byName))
  }

  ghost predicate NamesPeople(people: map<int, string>, byName: map<string, int>) {
    forall name | name in byName :: byName[name] in people && people[byName[name]] == name
  }

  /** The keys of the cast credits that can be rebuilt. */
  function RestorableKeys(c: Codes, cast: map<CastKey, seq<Entry>>, byName: map<string, int>, span: Span): set<Key>
    requires c.WellFormed() && CastDecodable(c, cast)
  {
    set g, name | g in cast && span.Has(g.itemId) && name in byName && HasName(cast[g], name) ::
      CastKeyOf(c, g, byName[name])
  }

  /** A cast credit is restorable when its person is the one its name stands for and that name is in
      the payload of its item. */
  predicate Restorable(c: Codes, cast: map<CastKey, seq<Entry>>, people: map<int, string>, byName: map<string, int>,
                       key: Key) {
    && key.role == c.castRole && key.itemType in c.types && GroupOf(c, key) in cast
    && key.personId in people && people[key.personId] in byName && byName[people[key.personId]] == key.personId
    && HasName(cast[GroupOf(c, key)], people[key.personId])
  }

  lemma RestorableKeyIff(c: Codes, cast: map<CastKey, seq<Entry>>, people: map<int, string>, byName: map<string, int>,
                         span: Span, key: Key)
    requires c.WellFormed() && CastDecodable(c, cast) && NamesPeople(people, byName)
    ensures key in RestorableKeys(c, cast, byName, span) <==>
      Restorable(c, cast, people, byName, key) && span.Has(key.itemId)
  {
    hide HasName;
    if key in RestorableKeys(c, cast, byName, span) {
      var g, name :| g in cast && span.Has(g.itemId) && name in byName && HasName(cast[g], name)
                     && CastKeyOf(c, g, byName[name]) == key;
      assert GroupOf(c, key) == g;
    }
    if Restorable(c, cast, people, byName, key) && span.Has(key.itemId) {
      var g := GroupOf(c, key);
      assert CastKeyOf(c, g, key.personId) == key;
    }
  }

  function RestoredCredit(s: Session, cast: map<CastKey, seq<Entry>>, people: map<int, string>, key: Key): Credit
    requires key.itemType in s.codes.types && GroupOf(s.codes, key) in cast && key.personId in people
    requires HasName(cast[GroupOf(s.codes, key)], people[key.personId])
  {
    var entry := s.pick(cast[GroupOf(s.codes, key)], people[key.personId]);
    Credit(entry.character, entry.billing, s.now)
  }

  function RestoredCast(s: Session, cast: map<CastKey, seq<Entry>>, people: map<int, string>,
                        byName: map<string, int>, span: Span): map<Key, Credit>
    requires s.codes.WellFormed() && CastDecodable(s.codes, cast) && NamesPeople(people, byName)
  {
    map key | key in RestorableKeys(s.codes, cast, byName, span) ::
      RestorableKeyIff(s.codes, cast, people, byName, span, key);
      RestoredCredit(s, cast, people, key)
  }

  function WithoutCreditsOf(narrow: map<GraphKey, int>, gone: set<int>): map<GraphKey, int> {
    map g | g in narrow && g.personId !in gone :: narrow[g]
  }

  function WithoutIdsOf(externalIds: set<ExternalId>, itemType: string, gone: set<int>): set<ExternalId> {
    set e | e in externalIds && !(e.itemType == itemType && e.itemId in gone)
  }

  function Among(ids: set<int>, span: Span): set<int> {
    set id | id in ids && span.Has(id)
  }

  /** One statement over one span. An insert that meets an existing key replaces the row in the
      backfill and leaves it alone everywhere else; deleting people deletes their graph credits. */
  function Execute(s: Session, st: Statement, db: Database, span: Span): Database
    requires Ready(s, st, db)
  {
    match st
    case BackfillItemCast => db.(cast := db.cast + Payloads(s, db.wide, db.people, span))
    case CopyGraphCredits => db.(narrow := GraphRows(s.codes, db.wide, span) + db.narrow)
    case PurgeExternalIds =>
      db.(externalIds := WithoutIdsOf(db.externalIds, s.codes.personType, Among(db.castOnly, span)))
    case PurgePeople =>
      var gone := Among(db.castOnly, span);
      db.(people := db.people - gone, narrow := WithoutCreditsOf(db.narrow, gone))
    case RestoreGraphCredits => db.(wide := RestoredGraph(s.codes, db.narrow, span) + db.wide)
    case RestoreCastCredits => db.(wide := RestoredCast(s, db.cast, db.people, db.byName, span) + db.wide)
  }

  /** No statement changes what it relies on. */
  lemma StaysReady(s: Session, st: Statement, db: Database, span: Span)
    requires Ready(s, st, db)
    ensures Ready(s, st, Execute(s, st, db, span))
    ensures SourceIds(st, Execute(s, st, db, span)) == SourceIds(st, db)
  {
    hide Payloads, GraphRows, RestoredGraph, RestoredCast, Known, NamesPeople, CastDecodable, GraphDecodable;
  }

  /** The ids whose bounds drive the windows of a statement. */
  function SourceIds(st: Statement, db: Database): set<int> {
    match st
    case BackfillItemCast => set key | key in db.wide :: key.itemId
    case CopyGraphCredits => set key | key in db.wide :: key.itemId
    case PurgeExternalIds => db.castOnly
    case PurgePeople => db.castOnly
    case RestoreGraphCredits => set g | g in db.narrow :: g.itemId
    case RestoreCastCredits => set g | g in db.cast :: g.itemId
  }

  // ---- two adjacent windows are one

  /** `ab` holds exactly the ids of `a` and those of `b`. */
  ghost predicate Joins(a: Span, b: Span, ab: Span) {
    forall id: int :: ab.Has(id) <==> a.Has(id) || b.Has(id)
  }

  /** Two inserts in a row are one, when the rows of the one are those of the two. */
  lemma MergedTwice<K, V>(a: map<K, V>, b: map<K, V>, ab: map<K, V>, base: map<K, V>)
    requires ab.Keys == a.Keys + b.Keys
    requires forall k | k in a :: a[k] == ab[k]
    requires forall k | k in b :: b[k] == ab[k]
    ensures b + (a + base) == ab + base
    ensures base + a + b == base + ab
  {
  }

  lemma TwoSpansAreOne(s: Session, st: Statement, db: Database, a: Span, b: Span, ab: Span)
    requires Ready(s, st, db) && Joins(a, b, ab)
    ensures Ready(s, st, Execute(s, st, db, a))
    ensures Execute(s, st, Execute(s, st, db, a), b) == Execute(s, st, db, ab)
  {
    hide Payloads, GraphRows, RestoredGraph, RestoredCast, WithoutCreditsOf, WithoutIdsOf, Known, NamesPeople,
         CastDecodable, GraphDecodable, Among, Joins;
    StaysReady(s, st, db, a);
    match st
    case BackfillItemCast => PayloadsJoin(s, db.wide, db.people, db.cast, a, b, ab);
    case CopyGraphCredits => GraphRowsJoin(s.codes, db.wide, db.narrow, a, b, ab);
    case PurgeExternalIds => PurgesJoin(db, s.codes.personType, a, b, ab);
    case PurgePeople => PurgesJoin(db, s.codes.personType, a, b, ab);
    case RestoreGraphCredits => RestoredGraphJoins(s.codes, db.narrow, db.wide, a, b, ab);
    case RestoreCastCredits => RestoredCastJoins(s, db, a, b, ab);
  }

  /** The aggregate of a window is the aggregate of the whole table, for the groups the window meets:
      here the grouping by item is what makes windows harmless. */
  lemma PayloadIsWhole(s: Session, wide: map<Key, Credit>, people: map<int, string>, span: Span, g: CastKey)
    requires s.codes.creditTypes <= s.codes.types.Keys
    ensures g in Groups(s.codes, wide, people, span) ==>
      span.Has(g.itemId) && Payload(s, wide, people, span, g) == Payload(s, wide, people, Everything, g)
  {
    hide GroupRows, Groups;
    GroupIsWholeOrAbsent(s.codes, wide, people, span, g);
  }

  lemma PayloadsJoin(s: Session, wide: map<Key, Credit>, people: map<int, string>, base: map<CastKey, seq<Entry>>,
                     a: Span, b: Span, ab: Span)
    requires s.codes.creditTypes <= s.codes.types.Keys && Joins(a, b, ab)
    ensures base + Payloads(s, wide, people, a) + Payloads(s, wide, people, b) == base + Payloads(s, wide, people, ab)
  {
    hide Payload, Groups, Joins;
    GroupsJoin(s.codes, wide, people, a, b, ab);
    forall g | g in Groups(s.codes, wide, people, ab)
      ensures Payload(s, wide, people, ab, g) == Payload(s, wide, people, Everything, g)
    {
      PayloadIsWhole(s, wide, people, ab, g);
    }
    forall g | g in Groups(s.codes, wide, people, a)
      ensures Payload(s, wide, people, a, g) == Payload(s, wide, people, Everything, g)
    {
      PayloadIsWhole(s, wide, people, a, g);
    }
    forall g | g in Groups(s.codes, wide, people, b)
      ensures Payload(s, wide, people, b, g) == Payload(s, wide, people, Everything, g)
    {
      PayloadIsWhole(s, wide, people, b, g);
    }
    MergedTwice(Payloads(s, wide, people, a), Payloads(s, wide, people, b), Payloads(s, wide, people, ab), base);
  }

  lemma GroupsJoin(c: Codes, wide: map<Key, Credit>, people: map<int, string>, a: Span, b: Span, ab: Span)
    requires c.creditTypes <= c.types.Keys && Joins(a, b, ab)
    ensures Groups(c, wide, people, ab) == Groups(c, wide, people, a) + Groups(c, wide, people, b)
  {
  }

  lemma GraphRowsJoin(c: Codes, wide: map<Key, Credit>, base: map<GraphKey, int>, a: Span, b: Span, ab: Span)
    requires c.WellFormed() && Known(c, wide) && Joins(a, b, ab)
    ensures GraphRows(c, wide, b) + (GraphRows(c, wide, a) + base) == GraphRows(c, wide, ab) + base
  {
    hide Known, GraphKeys;
    GraphKeysJoin(c, wide, a, b, ab);
    MergedTwice(GraphRows(c, wide, a), GraphRows(c, wide, b), GraphRows(c, wide, ab), base);
  }

  lemma GraphKeysJoin(c: Codes, wide: map<Key, Credit>, a: Span, b: Span, ab: Span)
    requires c.WellFormed() && Known(c, wide) && Joins(a, b, ab)
    ensures GraphKeys(c, wide, ab) == GraphKeys(c, wide, a) + GraphKeys(c, wide, b)
  {
  }

  lemma PurgesJoin(db: Database, itemType: string, a: Span, b: Span, ab: Span)
    requires Joins(a, b, ab)
    ensures var x, y, xy := Among(db.castOnly, a), Among(db.castOnly, b), Among(db.castOnly, ab);
      && WithoutIdsOf(WithoutIdsOf(db.externalIds, itemType, x), itemType, y)
          == WithoutIdsOf(db.externalIds, itemType, xy)
      && db.people - x - y == db.people - xy
      && WithoutCreditsOf(WithoutCreditsOf(db.narrow, x), y) == WithoutCreditsOf(db.narrow, xy)
  {
    var x, y, xy := Among(db.castOnly, a), Among(db.castOnly, b), Among(db.castOnly, ab);
    assert xy == x + y;
  }

  lemma RestoredGraphJoins(c: Codes, narrow: map<GraphKey, int>, base: map<Key, Credit>, a: Span, b: Span, ab: Span)
    requires c.WellFormed() && GraphDecodable(c, narrow) && Joins(a, b, ab)
    ensures RestoredGraph(c, narrow, b) + (RestoredGraph(c, narrow, a) + base) == RestoredGraph(c, narrow, ab) + base
  {
    hide RestoredGraph;
    RestoredGraphRows(c, narrow, a, b, ab);
    MergedTwice(RestoredGraph(c, narrow, a), RestoredGraph(c, narrow, b), RestoredGraph(c, narrow, ab), base);
  }

  lemma RestoredGraphRows(c: Codes, narrow: map<GraphKey, int>, a: Span, b: Span, ab: Span)
    requires c.WellFormed() && GraphDecodable(c, narrow) && Joins(a, b, ab)
    ensures var x, y, xy := RestoredGraph(c, narrow, a), RestoredGraph(c, narrow, b), RestoredGraph(c, narrow, ab);
      xy.Keys == x.Keys + y.Keys && (forall k | k in x :: x[k] == xy[k]) && (forall k | k in y :: y[k] == xy[k])
  {
    hide WideKeyOf, GraphDecodable;
  }

  lemma RestoredCastJoins(s: Session, db: Database, a: Span, b: Span, ab: Span)
    requires Ready(s, RestoreCastCredits, db) && Joins(a, b, ab)
    ensures RestoredCast(s, db.cast, db.people, db.byName, b)
      + (RestoredCast(s, db.cast, db.people, db.byName, a) + db.wide)
         == RestoredCast(s, db.cast, db.people, db.byName, ab) + db.wide
  {
    hide RestoredCast, Joins;
    var x := RestoredCast(s, db.cast, db.people, db.byName, a);
    var y := RestoredCast(s, db.cast, db.people, db.byName, b);
    var xy := RestoredCast(s, db.cast, db.people, db.byName, ab);
    RestoredCastRows(s, db.cast, db.people, db.byName, a, b, ab);
    MergedTwice(x, y, xy, db.wide);
  }

  lemma RestoredCastRows(s: Session, cast: map<CastKey, seq<Entry>>, people: map<int, string>,
                         byName: map<string, int>, a: Span, b: Span, ab: Span)
    requires s.codes.WellFormed() && CastDecodable(s.codes, cast) && NamesPeople(people, byName) && Joins(a, b, ab)
    ensures var x, y, xy := RestoredCast(s, cast, people, byName, a), RestoredCast(s, cast, people, byName, b),
                            RestoredCast(s, cast, people, byName, ab);
      xy.Keys == x.Keys + y.Keys && (forall k | k in x :: x[k] == xy[k]) && (forall k | k in y :: y[k] == xy[k])
  {
    hide RestorableKeys, CastDecodable, NamesPeople, RestoredCredit, Joins;
    RestorableKeysJoin(s.codes, cast, byName, a, b, ab);
  }

  lemma RestorableKeysJoin(c: Codes, cast: map<CastKey, seq<Entry>>, byName: map<string, int>, a: Span, b: Span,
                           ab: Span)
    requires c.WellFormed() && CastDecodable(c, cast) && Joins(a, b, ab)
    ensures RestorableKeys(c, cast, byName, ab)
      == RestorableKeys(c, cast, byName, a) + RestorableKeys(c, cast, byName, b)
  {
    hide HasName, CastKeyOf;
  }

  // ---- a window around every id is the whole table

  lemma EmptyWindow(s: Session, st: Statement, db: Database, lo: int)
    requires Ready(s, st, db)
    ensures Execute(s, st, db, Window(lo, lo)) == db
  {
    hide Payloads, GraphRows, RestoredGraph, RestoredCast, NamesPeople, CastDecodable, GraphDecodable, Known;
    var span := Window(lo, lo);
    match st
    case BackfillItemCast => NothingInserted(s, db, lo);
    case CopyGraphCredits => NothingInserted(s, db, lo);
    case PurgeExternalIds => assert Among(db.castOnly, span) == {};
    case PurgePeople => assert Among(db.castOnly, span) == {};
    case RestoreGraphCredits => NothingRestored(s, st, db, lo);
    case RestoreCastCredits => NothingRestored(s, st, db, lo);
  }

  lemma NothingInserted(s: Session, db: Database, lo: int)
    requires s.codes.WellFormed()
    ensures Payloads(s, db.wide, db.people, Window(lo, lo)) == map[]
    ensures Known(s.codes, db.wide) ==> GraphRows(s.codes, db.wide, Window(lo, lo)) == map[]
  {
    hide Named, Payload, Known;
    assert Groups(s.codes, db.wide, db.people, Window(lo, lo)) == {};
    if Known(s.codes, db.wide) {
      assert GraphKeys(s.codes, db.wide, Window(lo, lo)) == {};
    }
  }

  lemma NothingRestored(s: Session, st: Statement, db: Database, lo: int)
    requires Ready(s, st, db) && (st.RestoreGraphCredits? || st.RestoreCastCredits?)
    ensures RestoredGraph(s.codes, db.narrow, Window(lo, lo)) == map[]
    ensures st.RestoreCastCredits? ==> RestoredCast(s, db.cast, db.people, db.byName, Window(lo, lo)) == map[]
  {
    hide NamesPeople, CastDecodable, GraphDecodable, HasName, RestoredCredit;
    assert RestorableKeys(s.codes, db.cast, db.byName, Window(lo, lo)) == {};
  }

  lemma PayloadsAroundAll(s: Session, wide: map<Key, Credit>, people: map<int, string>, span: Span)
    requires s.codes.creditTypes <= s.codes.types.Keys && forall key | key in wide :: span.Has(key.itemId)
    ensures Payloads(s, wide, people, span) == Payloads(s, wide, people, Everything)
  {
    hide Named, Payload;
    assert Groups(s.codes, wide, people, span) == Groups(s.codes, wide, people, Everything);
    forall g | g in Groups(s.codes, wide, people, span)
      ensures Payload(s, wide, people, span, g) == Payload(s, wide, people, Everything, g)
    {
      PayloadIsWhole(s, wide, people, span, g);
    }
  }

  lemma WindowAroundAll(s: Session, st: Statement, db: Database, lo: int, hi: int)
    requires Ready(s, st, db)
    requires AllWithin(SourceIds(st, db), lo, hi)
    ensures Execute(s, st, db, Window(lo, hi)) == Execute(s, st, db, Everything)
  {
    hide NamesPeople, CastDecodable, GraphDecodable, Known, HasName, Named, Payloads;
    var span := Window(lo, hi);
    match st
    case BackfillItemCast =>
      assert forall key | key in db.wide :: key.itemId in SourceIds(st, db);
      PayloadsAroundAll(s, db.wide, db.people, span);
    case CopyGraphCredits =>
      assert forall key | key in db.wide :: key.itemId in SourceIds(st, db);
      assert GraphKeys(s.codes, db.wide, span) == GraphKeys(s.codes, db.wide, Everything);
    case PurgeExternalIds =>
      assert forall id | id in db.castOnly :: id in SourceIds(st, db);
      assert Among(db.castOnly, span) == Among(db.castOnly, Everything);
    case PurgePeople =>
      assert forall id | id in db.castOnly :: id in SourceIds(st, db);
      assert Among(db.castOnly, span) == Among(db.castOnly, Everything);
    case RestoreGraphCredits =>
      assert forall g | g in db.narrow :: g.itemId in SourceIds(st, db);
      assert RestoredGraph(s.codes, db.narrow, span) == RestoredGraph(s.codes, db.narrow, Everything);
    case RestoreCastCredits =>
      assert forall g | g in db.cast :: g.itemId in SourceIds(st, db);
      assert RestorableKeys(s.codes, db.cast, db.byName, span)
        == RestorableKeys(s.codes, db.cast, db.byName, Everything);
  }

  predicate LeastOf(ids: set<int>, low: int) {
    forall id | id in ids :: low <= id
  }

  predicate GreatestOf(ids: set<int>, high: int) {
    forall id | id in ids :: id <= high
  }

  predicate AllWithin(ids: set<int>, lo: int, hi: int) {
    forall id | id in ids :: lo <= id < hi
  }

  lemma WithinBounds(ids: set<int>, low: int, high: int)
    requires LeastOf(ids, low) && GreatestOf(ids, high)
    ensures AllWithin(ids, low, high + 1)
  {
  }

  lemma WithinMore(ids: set<int>, lo: int, hi: int, more: int)
    requires AllWithin(ids, lo, hi) && hi <= more
    ensures AllWithin(ids, lo, more)
  {
  }

  lemma BoundsOf(ids: set<int>) returns (low: int, high: int)
    requires ids != {}
    ensures low in ids && high in ids && forall id | id in ids :: low <= id <= high
  {
    var x := SomeMember(ids);
    if ids == {x} {
      return x, x;
    }
    var l, h := BoundsOf(ids - {x});
    low, high := Min(x, l), Max(x, h);
    forall id | id in ids
      ensures low <= id <= high
    {
      assert id == x || id in ids - {x};
    }
  }

  /** A statement run once per window of `width` ids does what it would do in one go, for any width
      and any ids. */
  method WalkWindows(s: Session, st: Statement, db: Database, width: nat) returns (after: Database)
    requires Ready(s, st, db) && width > 0
    ensures after == Execute(s, st, db, Everything)
  {
    hide Execute, Ready, SourceIds;
    after := db;
    var ids := SourceIds(st, db);
    if ids == {} {
      EmptyWindow(s, st, db, 0);
      WindowAroundAll(s, st, db, 0, 0);
      return;
    }
    ghost var l, h := BoundsOf(ids);
    assert LeastOf(ids, l) && GreatestOf(ids, h);
    var low :| low in ids && LeastOf(ids, low);
    var high :| high in ids && GreatestOf(ids, high);
    WithinBounds(ids, low, high);
    var lo := low;
    EmptyWindow(s, st, db, low);
    while lo <= high
      invariant low <= lo && Ready(s, st, after)
      invariant after == Execute(s, st, db, Window(low, lo))
      decreases high - lo
    {
      StaysReady(s, st, after, Window(lo, lo + width));
      TwoSpansAreOne(s, st, db, Window(low, lo), Window(lo, lo + width), Window(low, lo + width));
      after := Execute(s, st, after, Window(lo, lo + width));
      lo := lo + width;
    }
    WithinMore(ids, low, high + 1, lo);
    WindowAroundAll(s, st, db, low, lo);
  }
}
