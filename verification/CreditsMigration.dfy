/** Migration 0037 up and down: the wide credit table split into graph credits and cast payloads, the people
    without a graph credit purged with their external ids, and the way back. The statements and their
    windows are those of `CreditStatements`; what survives the way there and back, and what does not, is
    stated credit by credit. */
module CreditsMigration {
  import opened Common
  import opened CreditTables
  import opened CreditStatements

  const WINDOW: nat := 20_000

  /** Every credit names a person of the people table. */
  ghost predicate Referential(db: Database) {
    forall key | key in db.wide :: key.personId in db.people
  }

  predicate Credited(wide: map<Key, Credit>, person: int) {
    exists key | key in wide :: key.personId == person
  }

  predicate HasGraphRow(c: Codes, wide: map<Key, Credit>, person: int) {
    exists key | key in wide :: key.personId == person && key.role != c.castRole
  }

  /** The people whose only credits are cast credits. */
  function CastOnly(c: Codes, wide: map<Key, Credit>): set<int> {
    set key | key in wide && key.role == c.castRole && !HasGraphRow(c, wide, key.personId) :: key.personId
  }

  predicate IsLeast(people: map<int, string>, name: string, id: int) {
    id in people && people[id] == name && forall other | other in people && people[other] == name :: id <= other
  }

  /** For each name, the least id that carries it. */
  function LeastIdOf(people: map<int, string>, name: string): (id: int)
    requires name in people.Values
    ensures IsLeast(people, name, id)
  {
    LeastIdExists(people, name);
    var id :| id in people && IsLeast(people, name, id);
    id
  }

  lemma LeastIdExists(people: map<int, string>, name: string)
    requires name in people.Values
    ensures exists id :: id in people && IsLeast(people, name, id)
  {
    var ids := set id | id in people && people[id] == name;
    var id := SomeKey(people, name);
    assert id in ids;
    var low, high := BoundsOf(ids);
    assert forall other | other in people && people[other] == name :: other in ids;
    assert IsLeast(people, name, low);
  }

  function ByName(people: map<int, string>): (byName: map<string, int>)
    ensures NamesPeople(people, byName)
  {
    map name | name in people.Values :: LeastIdOf(people, name)
  }

  // ---- where the two directions end

  function Upgraded(s: Session, db: Database): Database
    requires s.Valid() && Known(s.codes, db.wide)
  {
    var gone := CastOnly(s.codes, db.wide);
    Database(map[], GraphRows(s.codes, db.wide, Everything), Payloads(s, db.wide, db.people, Everything),
             db.people - gone, WithoutIdsOf(db.externalIds, s.codes.personType, gone), {}, map[])
  }

  function Downgraded(s: Session, db: Database): Database
    requires s.Valid() && GraphDecodable(s.codes, db.narrow) && CastDecodable(s.codes, db.cast)
  {
    Database(RestoredCast(s, db.cast, db.people, ByName(db.people), Everything)
               + RestoredGraph(s.codes, db.narrow, Everything),
             map[], map[], db.people, db.externalIds, {}, map[])
  }

  class Migration {
    const session: Session
    var db: Database

    constructor (session: Session, db: Database)
      ensures this.session == session && this.db == db
    {
      this.session, this.db := session, db;
    }

    /** Fails, and changes nothing, exactly when a credit uses a type or a role without a code. */
    method Upgrade() returns (r: Result<()>)
      requires session.Valid() && Referential(db)
      modifies this
      ensures r.Err? <==> !Known(session.codes, old(db.wide))
      ensures r.Err? ==> db == old(db)
      ensures r.Ok? ==> db == Upgraded(session, old(db))
    {
      hide GraphRows, Payloads, CastOnly, Known, WithoutIdsOf, Among, WithoutCreditsOf, UnknownTypes, UnknownRoles,
        Referential;
      var c := session.codes;
      KnownIffNothingUnknown(c, db.wide);
      if UnknownTypes(c, db.wide) != {} {
        return Err("credits.item_type holds values this migration cannot map");
      }
      if UnknownRoles(c, db.wide) != {} {
        return Err("credits.role holds values this migration cannot map");
      }
      ghost var was := db;
      db := db.(cast := map[]);
      db := WalkWindows(session, BackfillItemCast, db, WINDOW);
      db := db.(castOnly := CastOnly(c, db.wide), narrow := map[]);
      db := WalkWindows(session, CopyGraphCredits, db, WINDOW);
      FilledIn(session, was, db);
      db := db.(wide := map[]);
      db := WalkWindows(session, PurgeExternalIds, db, WINDOW);
      db := WalkWindows(session, PurgePeople, db, WINDOW);
      db := db.(castOnly := {}, byName := map[]);
      CascadeRemovesNothing(c, was.wide);
      AmongEverything(CastOnly(c, was.wide));
      return Ok(());
    }

    method Downgrade()
      requires session.Valid() && GraphDecodable(session.codes, db.narrow) && CastDecodable(session.codes, db.cast)
      modifies this
      ensures db == Downgraded(session, old(db))
    {
      hide RestoredGraph, RestoredCast, ByName, GraphDecodable, CastDecodable;
      db := db.(wide := map[]);
      db := WalkWindows(session, RestoreGraphCredits, db, WINDOW);
      assert db.wide == RestoredGraph(session.codes, old(db.narrow), Everything);
      db := db.(byName := ByName(db.people));
      db := WalkWindows(session, RestoreCastCredits, db, WINDOW);
      db := db.(byName := map[], narrow := map[], cast := map[], castOnly := {});
    }
  }

  lemma AmongEverything(ids: set<int>)
    ensures Among(ids, Everything) == ids
  {
  }

  /** The tables once both inserts are done. */
  lemma FilledIn(s: Session, was: Database, now: Database)
    requires s.Valid() && Known(s.codes, was.wide)
    ensures var backfilled := Execute(s, BackfillItemCast, was.(cast := map[]), Everything);
      var ready := backfilled.(castOnly := CastOnly(s.codes, was.wide), narrow := map[]);
      now == Execute(s, CopyGraphCredits, ready, Everything) ==>
        now == Database(was.wide, GraphRows(s.codes, was.wide, Everything),
                        Payloads(s, was.wide, was.people, Everything),
                          was.people, was.externalIds, CastOnly(s.codes, was.wide), was.byName)
  {
    hide GraphRows, Payloads, CastOnly, Known;
    assert map[] + Payloads(s, was.wide, was.people, Everything) == Payloads(s, was.wide, was.people, Everything);
    assert GraphRows(s.codes, was.wide, Everything) + map[] == GraphRows(s.codes, was.wide, Everything);
  }

  /** No graph credit belongs to somebody about to be purged. */
  lemma CascadeRemovesNothing(c: Codes, wide: map<Key, Credit>)
    requires c.WellFormed() && Known(c, wide)
    ensures WithoutCreditsOf(GraphRows(c, wide, Everything), CastOnly(c, wide)) == GraphRows(c, wide, Everything)
  {
    var rows := GraphRows(c, wide, Everything);
    forall g | g in rows
      ensures g.personId !in CastOnly(c, wide)
    {
      GraphKeyInverse(c, wide, Everything, g);
      assert HasGraphRow(c, wide, g.personId);
    }
  }

  // ---- nothing is lost on the way up

  /** The rows of the graph are exactly the credits that are not cast, each with its own creation time,
      and each of their people is still there. */
  lemma GraphCreditsMove(s: Session, db: Database, key: Key, g: GraphKey)
    requires s.Valid() && Known(s.codes, db.wide) && Referential(db)
    ensures var u := Upgraded(s, db);
      && (key in db.wide && key.role != s.codes.castRole ==>
        GraphKeyOf(s.codes, key) in u.narrow && u.narrow[GraphKeyOf(s.codes, key)] == db.wide[key].createdAt)
      && (g in u.narrow ==>
        && g.itemType in s.codes.types.Values && g.role in s.codes.roles.Values
        && WideKeyOf(s.codes, g) in db.wide && WideKeyOf(s.codes, g).role != s.codes.castRole
        && g.personId in u.people)
  {
    hide Payloads, WithoutIdsOf, CastOnly;
    var c := s.codes;
    if key in db.wide && key.role != c.castRole {
      GraphKeyInverse(c, db.wide, Everything, GraphKeyOf(c, key));
      assert GraphKeyOf(c, key) in GraphKeys(c, db.wide, Everything);
      GraphKeysDiffer(c, key, WideKeyOf(c, GraphKeyOf(c, key)));
    }
    if g in Upgraded(s, db).narrow {
      GraphKeyInverse(c, db.wide, Everything, g);
      CascadeRemovesNothing(c, db.wide);
      assert g in WithoutCreditsOf(Upgraded(s, db).narrow, CastOnly(c, db.wide));
    }
  }

  /** Position `i` of the payload of `g` was made from the credit `key`. */
  ghost predicate MadeFrom(s: Session, db: Database, g: CastKey, i: nat, key: Key)
    requires s.codes.creditTypes <= s.codes.types.Keys
  {
    var rows := s.list(GroupRows(s.codes, db.wide, db.people, Everything, g));
    && i < |rows| && rows[i].key == key
    && g in Payloads(s, db.wide, db.people, Everything)
    && i < |Payload(s, db.wide, db.people, Everything, g)|
        && Payload(s, db.wide, db.people, Everything, g)[i] == rows[i].entry
  }

  /** An entry says what a credit said: the person's name, the billing order, and the character unless it
      was empty. */
  ghost predicate Tells(entry: Entry, credit: Credit, name: string) {
    && entry.name == name && entry.billing == credit.billing
    && (forall c: string :: entry.character == Some(c) <==> credit.character == Some(c) && c != "")
  }

  lemma EntryTells(c: Codes, wide: map<Key, Credit>, people: map<int, string>, key: Key)
    requires Named(c, wide, people, key)
    ensures Tells(EntryOf(c, wide, people, key), wide[key], people[key.personId])
  {
  }

  /** Each cast credit of a person with a name becomes one payload entry of its item, and only one. */
  lemma CastCreditMoves(s: Session, db: Database, key: Key) returns (i: nat)
    requires s.Valid() && Known(s.codes, db.wide) && Referential(db)
    requires key in db.wide && key.role == s.codes.castRole && db.people[key.personId] != ""
    ensures var g := GroupOf(s.codes, key);
      && MadeFrom(s, db, g, i, key)
      && Tells(Upgraded(s, db).cast[g][i], db.wide[key], db.people[key.personId])
      && (forall h, j | MadeFrom(s, db, h, j, key) :: h == g && j == i)
  {
    EntryTells(s.codes, db.wide, db.people, key);
    var g := GroupOf(s.codes, key);
    var group := GroupRows(s.codes, db.wide, db.people, Everything, g);
    var row := CastRow(key, EntryOf(s.codes, db.wide, db.people, key));
    assert row in group;
    assert g in Groups(s.codes, db.wide, db.people, Everything);
    assert s.Listing(s.list(group), group);
    i :| 0 <= i < |s.list(group)| && s.list(group)[i] == row;
    forall h, j | MadeFrom(s, db, h, j, key)
      ensures h == g && j == i
    {
      MadeFromItsGroup(s, db, h, j, key);
    }
  }

  /** Nothing but the named cast credits of an item is in its payload, in billing order. */
  lemma PayloadHoldsTheCast(s: Session, db: Database, g: CastKey, i: nat)
    requires s.Valid() && Known(s.codes, db.wide)
    requires g in Upgraded(s, db).cast && i < |Upgraded(s, db).cast[g]|
    ensures var payload := Upgraded(s, db).cast[g];
      && (exists key :: MadeFrom(s, db, g, i, key) && HadCredit(s, db, key) && GroupOf(s.codes, key) == g
            && Tells(payload[i], db.wide[key], db.people[key.personId]))
      && (forall j | i < j < |payload| ::
            && (payload[i].billing.None? ==> payload[j].billing.None?)
            && (payload[i].billing.Some? && payload[j].billing.Some? ==>
                  payload[i].billing.value <= payload[j].billing.value)
            && (payload[i].billing == payload[j].billing ==> s.collation(payload[i].name, payload[j].name)))
  {
    var group := GroupRows(s.codes, db.wide, db.people, Everything, g);
    assert s.Listing(s.list(group), group);
    var key := s.list(group)[i].key;
    assert MadeFrom(s, db, g, i, key);
    MadeFromItsGroup(s, db, g, i, key);
    EntryTells(s.codes, db.wide, db.people, key);
    assert HadCredit(s, db, key);
  }

  /** A cast credit of somebody with a name. */
  ghost predicate HadCredit(s: Session, db: Database, key: Key) {
    && key in db.wide && key.role == s.codes.castRole && key.itemType in s.codes.types
    && key.personId in db.people && db.people[key.personId] != ""
  }

  lemma MadeFromItsGroup(s: Session, db: Database, g: CastKey, i: nat, key: Key)
    requires s.Valid() && MadeFrom(s, db, g, i, key)
    ensures Named(s.codes, db.wide, db.people, key) && GroupOf(s.codes, key) == g
    ensures s.list(GroupRows(s.codes, db.wide, db.people, Everything, g))[i]
      == CastRow(key, EntryOf(s.codes, db.wide, db.people, key))
  {
    var group := GroupRows(s.codes, db.wide, db.people, Everything, g);
    assert s.Listing(s.list(group), group);
    assert s.list(group)[i] in s.list(group);
  }

  /** Purged are exactly the people with a cast credit and no other credit, with their external ids and
      nobody else's. */
  lemma PurgeIsExact(s: Session, db: Database, person: int, e: ExternalId)
    requires s.Valid() && Known(s.codes, db.wide) && Referential(db)
    ensures var u := Upgraded(s, db);
      && (person in u.people <==>
            person in db.people && (Credited(db.wide, person) ==> HasGraphRow(s.codes, db.wide, person)))
      && (person in u.people ==> u.people[person] == db.people[person])
      && (e in u.externalIds <==>
            e in db.externalIds && (e.itemType == s.codes.personType && e.itemId in db.people ==> e.itemId in u.people))
  {
    hide GraphRows, Payloads;
    var gone := CastOnly(s.codes, db.wide);
    if Credited(db.wide, person) {
      var key :| key in db.wide && key.personId == person;
      assert !HasGraphRow(s.codes, db.wide, person) ==> key.role == s.codes.castRole && person in gone;
    }
  }

  // ---- what comes back on the way down

  lemma UpgradedIsDecodable(s: Session, db: Database)
    requires s.Valid() && Known(s.codes, db.wide)
    ensures GraphDecodable(s.codes, Upgraded(s, db).narrow) && CastDecodable(s.codes, Upgraded(s, db).cast)
  {
    hide WithoutIdsOf, CastOnly, Payload;
    forall g | g in Upgraded(s, db).narrow
      ensures g.itemType in s.codes.types.Values && g.role in s.codes.roles.Values
    {
      GraphKeyInverse(s.codes, db.wide, Everything, g);
    }
  }

  /** The database after an upgrade and a downgrade. */
  function ThereAndBack(s: Session, db: Database): Database
    requires s.Valid() && Known(s.codes, db.wide)
  {
    UpgradedIsDecodable(s, db);
    Downgraded(s, Upgraded(s, db))
  }

  lemma RestoredGraphKey(c: Codes, wide: map<Key, Credit>, key: Key)
    requires c.WellFormed() && Known(c, wide) && GraphDecodable(c, GraphRows(c, wide, Everything))
    ensures var back := RestoredGraph(c, GraphRows(c, wide, Everything), Everything);
      && (key in back <==> key in wide && key.role != c.castRole)
      && (key in back ==> back[key] == Credit(None, None, wide[key].createdAt))
  {
    hide GraphRows, GraphKeys, GraphDecodable;
    var rows := GraphRows(c, wide, Everything);
    var back := RestoredGraph(c, rows, Everything);
    GraphRowsIff(c, wide);
    if key in wide && key.role != c.castRole {
      var g := GraphKeyOf(c, key);
      assert g in rows;
      GraphKeysDiffer(c, key, WideKeyOf(c, g));
      assert WideKeyOf(c, g) in back;
    }
    if key in back {
      var g :| g in rows && WideKeyOf(c, g) == key;
    }
  }

  lemma GraphRowsIff(c: Codes, wide: map<Key, Credit>)
    requires c.WellFormed() && Known(c, wide)
    ensures var rows := GraphRows(c, wide, Everything);
      && (forall key | key in wide && key.role != c.castRole :: GraphKeyOf(c, key) in rows)
      && (forall g | g in rows :: g.itemType in c.types.Values && g.role in c.roles.Values
           && WideKeyOf(c, g) in wide && WideKeyOf(c, g).role != c.castRole
               && rows[g] == wide[WideKeyOf(c, g)].createdAt)
  {
    var rows := GraphRows(c, wide, Everything);
    forall g | g in rows
      ensures g.itemType in c.types.Values && g.role in c.roles.Values && WideKeyOf(c, g) in wide
        && WideKeyOf(c, g).role != c.castRole
    {
      GraphKeyInverse(c, wide, Everything, g);
    }
  }

  /** Every credit that is not cast is back under its key and with its creation time, and no other; the
      whole row is back exactly when it had neither a character nor a billing order. */
  lemma GraphCreditsComeBack(s: Session, db: Database, key: Key)
    requires s.Valid() && Known(s.codes, db.wide) && key.role != s.codes.castRole
    ensures var back := ThereAndBack(s, db).wide;
      && (key in back <==> key in db.wide)
      && (key in back ==> back[key].createdAt == db.wide[key].createdAt)
      && (key in back ==> (back[key] == db.wide[key] <==>
            db.wide[key].character == None && db.wide[key].billing == None))
  {
    hide RestorableKeys, GraphRows, RestoredGraph, Payloads, WithoutIdsOf, CastOnly, ByName, Known, GraphDecodable,
      CastDecodable;
    UpgradedIsDecodable(s, db);
    var u := Upgraded(s, db);
    RestorableKeyIff(s.codes, u.cast, u.people, ByName(u.people), Everything, key);
    RestoredGraphKey(s.codes, db.wide, key);
  }

  /** The item of `key` had a named cast credit of somebody with this name. */
  ghost predicate HadNamesake(s: Session, db: Database, key: Key, name: string) {
    exists other :: HadCredit(s, db, other) && other.itemType == key.itemType
      && other.itemId == key.itemId && db.people[other.personId] == name
  }

  lemma PayloadNames(s: Session, db: Database, key: Key, name: string)
    requires s.Valid() && Known(s.codes, db.wide) && key.itemType in s.codes.types
    ensures var g, payloads := GroupOf(s.codes, key), Payloads(s, db.wide, db.people, Everything);
      (g in payloads && HasName(payloads[g], name)) <==> HadNamesake(s, db, key, name)
  {
    var c, g := s.codes, GroupOf(s.codes, key);
    var group := GroupRows(c, db.wide, db.people, Everything, g);
    var rows, payload := s.list(group), Payload(s, db.wide, db.people, Everything, g);
    assert s.Listing(rows, group);
    if HasName(payload, name) {
      var i :| 0 <= i < |payload| && payload[i].name == name;
      assert rows[i] in rows;
      var other := rows[i].key;
      assert HadCredit(s, db, other) && other.itemType == key.itemType;
    }
    if HadNamesake(s, db, key, name) {
      var other :| HadCredit(s, db, other) && other.itemType == key.itemType
                   && other.itemId == key.itemId && db.people[other.personId] == name;
      assert GroupOf(c, other) == g && g in Groups(c, db.wide, db.people, Everything);
      var row := CastRow(other, EntryOf(c, db.wide, db.people, other));
      assert row in group;
      var i :| 0 <= i < |rows| && rows[i] == row;
      assert payload[i].name == name;
    }
  }

  /** A cast credit is back exactly for the surviving people who are the first of their name, on the
      items whose cast had somebody of that name: whoever it was. */
  lemma CastCreditsComeBackByName(s: Session, db: Database, key: Key)
    requires s.Valid() && Known(s.codes, db.wide) && key.role == s.codes.castRole
    ensures var back := ThereAndBack(s, db);
      key in back.wide <==>
        && key.personId in back.people
        && LeastIdOf(back.people, back.people[key.personId]) == key.personId
        && HadNamesake(s, db, key, back.people[key.personId])
  {
    hide RestorableKeys, GraphRows, RestoredGraph, Payloads, WithoutIdsOf, CastOnly, Known, GraphDecodable,
      CastDecodable,
         HadNamesake, HasName, LeastIdOf;
    UpgradedIsDecodable(s, db);
    var u := Upgraded(s, db);
    RestorableKeyIff(s.codes, u.cast, u.people, ByName(u.people), Everything, key);
    RestoredGraphKey(s.codes, db.wide, key);
    if key.personId in u.people {
      var name := u.people[key.personId];
      assert name in u.people.Values;
      if key.itemType in s.codes.types {
        PayloadNames(s, db, key, name);
      } else {
        NamesakeHasCode(s, db, key, name);
      }
    }
  }

  lemma NamesakeHasCode(s: Session, db: Database, key: Key, name: string)
    requires s.Valid()
    ensures HadNamesake(s, db, key, name) ==> key.itemType in s.codes.types
  {
  }

  /** What a rebuilt cast credit says is what one of those namesakes' credits said, an empty character
      read as none; when it was created is lost. */
  lemma CastCreditsComeBackWith(s: Session, db: Database, key: Key) returns (other: Key)
    requires s.Valid() && Known(s.codes, db.wide) && key.role == s.codes.castRole && key in ThereAndBack(s, db).wide
    ensures HadCredit(s, db, other) && other.itemType == key.itemType && other.itemId == key.itemId
    ensures key.personId in db.people && db.people[other.personId] == db.people[key.personId]
    ensures var back, was := ThereAndBack(s, db).wide[key], db.wide[other];
      && back.billing == was.billing && back.createdAt == s.now
      && (forall c: string :: back.character == Some(c) <==> was.character == Some(c) && c != "")
  {
    hide RestorableKeys, GraphRows, RestoredGraph, Payloads, WithoutIdsOf, CastOnly, Known, GraphDecodable,
      CastDecodable,
         HadNamesake, HasName, LeastIdOf;
    UpgradedIsDecodable(s, db);
    var u := Upgraded(s, db);
    RestorableKeyIff(s.codes, u.cast, u.people, ByName(u.people), Everything, key);
    RestoredGraphKey(s.codes, db.wide, key);
    var g := GroupOf(s.codes, key);
    var entry := s.pick(u.cast[g], u.people[key.personId]);
    Picked(s, u.cast[g], u.people[key.personId]);
    other := EntryComesFrom(s, db, g, entry);
    TypesDiffer(s.codes, key, other);
    EntryTells(s.codes, db.wide, db.people, other);
  }

  lemma Picked(s: Session, payload: seq<Entry>, name: string)
    requires s.Valid() && HasName(payload, name)
    ensures s.pick(payload, name) in payload && s.pick(payload, name).name == name
  {
  }

  lemma TypesDiffer(c: Codes, a: Key, b: Key)
    requires c.WellFormed() && a.itemType in c.types && b.itemType in c.types && GroupOf(c, a) == GroupOf(c, b)
    ensures a.itemType == b.itemType && a.itemId == b.itemId
  {
  }

  lemma EntryComesFrom(s: Session, db: Database, g: CastKey, entry: Entry) returns (key: Key)
    requires s.Valid()
    requires g in Payloads(s, db.wide, db.people, Everything) && entry in Payloads(s, db.wide, db.people, Everything)[g]
    ensures Named(s.codes, db.wide, db.people, key) && GroupOf(s.codes, key) == g
    ensures entry == EntryOf(s.codes, db.wide, db.people, key)
  {
    var group := GroupRows(s.codes, db.wide, db.people, Everything, g);
    assert s.Listing(s.list(group), group);
    var i :| 0 <= i < |s.list(group)| && EntriesOf(s.list(group))[i] == entry;
    assert s.list(group)[i] in s.list(group);
    key := s.list(group)[i].key;
  }

  /** So a cast credit can come back for somebody who never had it: a surviving namesake of an actor
      whose own row is gone. */
  lemma NamesakeIsCredited(s: Session, name: string, itemType: string, role: string) returns (db: Database, key: Key)
    requires s.Valid() && name != "" && itemType in s.codes.creditTypes && role in s.codes.roles
      && role != s.codes.castRole
    ensures Known(s.codes, db.wide) && Referential(db)
    ensures key !in db.wide && key in ThereAndBack(s, db).wide
  {
    hide ThereAndBack, CastOnly, LeastIdOf;
    var actor, writer := Key(itemType, 1, 1, s.codes.castRole), Key(itemType, 2, 2, role);
    var row := Credit(None, None, 0);
    db := Database(map[actor := row, writer := row], map[], map[], map[1 := name, 2 := name], {}, {}, map[]);
    key := Key(itemType, 1, 2, s.codes.castRole);
    assert db.wide.Keys == {actor, writer};
    TwoNamesakes(s, db, actor, writer, name);
    assert HadCredit(s, db, actor);
    assert HadNamesake(s, db, key, name);
    CastCreditsComeBackByName(s, db, key);
  }

  lemma TwoNamesakes(s: Session, db: Database, actor: Key, writer: Key, name: string)
    requires s.Valid() && Known(s.codes, db.wide) && Referential(db)
    requires db.wide.Keys == {actor, writer} && actor.role == s.codes.castRole && writer.role != s.codes.castRole
    requires actor.personId == 1 && writer.personId == 2 && db.people == map[1 := name, 2 := name]
    ensures var people := ThereAndBack(s, db).people;
      2 in people && people[2] == name && LeastIdOf(people, name) == 2
  {
    hide GraphRows, RestoredGraph, RestoredCast, Payloads, WithoutIdsOf, CastOnly, ByName, Known, GraphDecodable,
      CastDecodable;
    var e := ExternalId(actor.itemType, 0, name);
    PurgeIsExact(s, db, 1, e);
    PurgeIsExact(s, db, 2, e);
    assert actor in db.wide && writer in db.wide;
    var people := ThereAndBack(s, db).people;
    assert people == Upgraded(s, db).people;
    assert 1 !in people && 2 in people;
    assert people.Keys <= {1, 2};
    assert name in people.Values;
  }
}
