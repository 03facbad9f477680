/** Ratings, the aggregates stored on the items, the feed events and moderation, as one state machine. */
module Ratings {
  import opened Common

  /** One rating: at most one per user and item. */
  datatype Row = Row(id: int, user: int, item: Item, score: Option<real>, text: Option<string>, hidden: bool) {
    /** A rating with neither a score nor a text has nothing to show in the feed. */
    predicate HasContent() { score.Some? || text.Some? }
  }

  /** What an item stores about its ratings. */
  datatype Aggregate = Aggregate(mean: Option<real>, count: nat)

  datatype Event = Event(user: int, item: Item)

  datatype Action = HideReview(rating: int) | UnhideReview(rating: int) | BanUser(user: int) | UnbanUser(user: int)

  /** The two ways a mean is rounded to two decimals: in the application and in the database. */
  datatype Rounding = Rounding(app: real -> real, sql: real -> real)

  type Users = map<int, bool>

  datatype Store = Store(
    users: Users,
    items: map<Item, Aggregate>,
    rows: seq<Row>,
    events: map<int, Event>,
    audit: seq<Action>,
    nextId: int)

  // ---- the visible scores of an item

  predicate Visible(row: Row, users: Users) {
    !row.hidden && row.user in users && !users[row.user]
  }

  function ScoreOf(row: Row, users: Users, item: Item): seq<real> {
    if row.item == item && row.score.Some? && Visible(row, users) then [row.score.value] else []
  }

  function Scores(rows: seq<Row>, users: Users, item: Item): seq<real> {
    if rows == [] then [] else Scores(rows[..|rows| - 1], users, item) + ScoreOf(rows[|rows| - 1], users, item)
  }

  function Total(scores: seq<real>): real {
    if scores == [] then 0.0 else Total(scores[..|scores| - 1]) + scores[|scores| - 1]
  }

  function Mean(scores: seq<real>): real
    requires scores != []
  {
    Total(scores) / |scores| as real
  }

  function AggregateOf(scores: seq<real>, round: real -> real): Aggregate {
    if scores == [] then Aggregate(None, 0) else Aggregate(Some(round(Mean(scores))), |scores|)
  }

  /** The stored aggregate is that of the scores, under one of the two roundings. */
  predicate Agrees(a: Aggregate, scores: seq<real>, r: Rounding) {
    a == AggregateOf(scores, r.app) || a == AggregateOf(scores, r.sql)
  }

  // ---- recomputing

  /** One item: an item that does not exist is left alone. */
  function Recalculated(items: map<Item, Aggregate>, rows: seq<Row>, users: Users, item: Item,
                        r: Rounding): map<Item, Aggregate> {
    if item in items then items[item := AggregateOf(Scores(rows, users, item), r.app)] else items
  }

  /** Several items: all reset first, then those that still have a visible score overwritten. */
  function BatchRecalculated(items: map<Item, Aggregate>, rows: seq<Row>, users: Users, list: seq<Item>,
                             r: Rounding): map<Item, Aggregate> {
    map item | item in items :: if item in list then AggregateOf(Scores(rows, users, item), r.sql) else items[item]
  }

  // ---- operations

  function IndexOf(rows: seq<Row>, user: int, item: Item): (i: nat)
    ensures i <= |rows|
    ensures i < |rows| ==> rows[i].user == user && rows[i].item == item
    ensures forall j | 0 <= j < i :: !(rows[j].user == user && rows[j].item == item)
  {
    if rows == [] || (rows[0].user == user && rows[0].item == item) then 0
    else
      assert forall j | 0 < j < |rows| :: rows[1..][j - 1] == rows[j];
      IndexOf(rows[1..], user, item) + 1
  }

  function IndexOfId(rows: seq<Row>, id: int): (i: nat)
    ensures i <= |rows|
    ensures i < |rows| ==> rows[i].id == id
    ensures forall j | 0 <= j < i :: rows[j].id != id
  {
    if rows == [] || rows[0].id == id then 0
    else
      assert forall j | 0 < j < |rows| :: rows[1..][j - 1] == rows[j];
      IndexOfId(rows[1..], id) + 1
  }

  /** The items a user has rated, each once. */
  function RatedItems(rows: seq<Row>, user: int): seq<Item> {
    if rows == [] then []
    else
      var before, last := RatedItems(rows[..|rows| - 1], user), rows[|rows| - 1];
      if last.user == user && last.item !in before then before + [last.item] else before
  }

  lemma {:induction false} RatedItemsIff(rows: seq<Row>, user: int, item: Item)
    ensures item in RatedItems(rows, user) <==>
      exists i | 0 <= i < |rows| :: rows[i].user == user && rows[i].item == item
  {
    if rows != [] {
      var last := |rows| - 1;
      RatedItemsIff(rows[..last], user, item);
      if i :| 0 <= i < |rows| && rows[i].user == user && rows[i].item == item {
        assert i < last ==> rows[..last][i] == rows[i];
      }
      if item in RatedItems(rows[..last], user) {
        var i :| 0 <= i < last && rows[..last][i].user == user && rows[..last][i].item == item;
        assert rows[i].user == user;
      }
    }
  }

  function RowsOfOthers(rows: seq<Row>, user: int): seq<Row> {
    if rows == [] then []
    else RowsOfOthers(rows[..|rows| - 1], user) + if rows[|rows| - 1].user == user then [] else [rows[|rows| - 1]]
  }

  datatype Operation =
    | Rate(user: int, item: Item, score: Option<real>, text: Option<string>)
    | Delete(user: int, item: Item)
    | SetHidden(rating: int, hidden: bool)
    | SetBanned(user: int, banned: bool)
    | Erase(user: int)

  /** An operation on a missing item, rating or user is refused and changes nothing. */
  predicate Accepts(s: Store, op: Operation) {
    match op
    case Rate(user, item, _, _) => user in s.users && item in s.items
    case Delete(user, item) => user in s.users && item in s.items && IndexOf(s.rows, user, item) < |s.rows|
    case SetHidden(rating, _) => IndexOfId(s.rows, rating) < |s.rows|
    case SetBanned(user, _) => user in s.users
    case Erase(user) => user in s.users
  }

  function Rated(s: Store, user: int, item: Item, score: Option<real>, text: Option<string>): (Store, Row) {
    var i := IndexOf(s.rows, user, item);
    if i < |s.rows| then
      var row := s.rows[i].(score := score, text := text);
      (s.(rows := s.rows[i := row]), row)
    else
      var row := Row(s.nextId, user, item, score, text, false);
      (s.(rows := s.rows + [row], nextId := s.nextId + 1), row)
  }

  function Step(s: Store, op: Operation, r: Rounding): Store {
    if !Accepts(s, op) then s
    else
      match op
      case Rate(user, item, score, text) =>
        var (rated, row) := Rated(s, user, item, score, text);
        rated.(items := Recalculated(s.items, rated.rows, s.users, item, r),
               events := if row.HasContent() then
                 (if row.id in s.events then s.events else s.events[row.id := Event(user, item)])
               else s.events - {row.id})
      case Delete(user, item) =>
        var i := IndexOf(s.rows, user, item);
        var rows := Without(s.rows, i);
        s.(rows := rows, items := Recalculated(s.items, rows, s.users, item, r), events := s.events - {s.rows[i].id})
      case SetHidden(rating, hidden) =>
        var i := IndexOfId(s.rows, rating);
        var rows := s.rows[i := s.rows[i].(hidden := hidden)];
        s.(rows := rows, items := Recalculated(s.items, rows, s.users, s.rows[i].item, r),
           audit := s.audit + [if hidden then HideReview(rating) else UnhideReview(rating)])
      case SetBanned(user, banned) =>
        var users := s.users[user := banned];
        s.(users := users, items := BatchRecalculated(s.items, s.rows, users, RatedItems(s.rows, user), r),
           audit := s.audit + [if banned then BanUser(user) else UnbanUser(user)])
      case Erase(user) =>
        var rows, users := RowsOfOthers(s.rows, user), s.users - {user};
        s.(users := users, rows := rows,
           items := BatchRecalculated(s.items, rows, users, RatedItems(s.rows, user), r),
           events := map id | id in s.events && s.events[id].user != user :: s.events[id])
  }

  // ---- the invariant

  ghost predicate OneRatingEach(rows: seq<Row>) {
    forall i, j | 0 <= i < j < |rows| :: rows[i].id != rows[j].id
      && !(rows[i].user == rows[j].user && rows[i].item == rows[j].item)
  }

  ghost predicate FreshIds(rows: seq<Row>, nextId: int) {
    forall i | 0 <= i < |rows| :: rows[i].id < nextId
  }

  ghost predicate AggregatesAgree(items: map<Item, Aggregate>, rows: seq<Row>, users: Users, r: Rounding) {
    forall item | item in items :: Agrees(items[item], Scores(rows, users, item), r)
  }

  /** Row `i` has content, and its event says who rated what. */
  ghost predicate HasEvent(rows: seq<Row>, i: nat, id: int, event: Event)
    requires i < |rows|
  {
    rows[i].id == id && (rows[i].score.Some? || rows[i].text.Some?) && event == Event(rows[i].user, rows[i].item)
  }

  /** The events are exactly those of the ratings with content. */
  ghost predicate EventsAgree(rows: seq<Row>, events: map<int, Event>) {
    && (forall i | 0 <= i < |rows| && (rows[i].score.Some? || rows[i].text.Some?) :: rows[i].id in events)
    && (forall id | id in events :: exists i :: 0 <= i < |rows| && HasEvent(rows, i, id, events[id]))
  }

  ghost predicate Consistent(s: Store, r: Rounding) {
    && OneRatingEach(s.rows) && FreshIds(s.rows, s.nextId)
    && AggregatesAgree(s.items, s.rows, s.users, r)
    && EventsAgree(s.rows, s.events)
  }

  function Steps(s: Store, ops: seq<Operation>, r: Rounding): Store {
    if ops == [] then s else Step(Steps(s, ops[..|ops| - 1], r), ops[|ops| - 1], r)
  }

  // ---- what an operation does to the scores of other items

  lemma {:induction false} ScoresConcat(a: seq<Row>, b: seq<Row>, users: Users, item: Item)
    ensures Scores(a + b, users, item) == Scores(a, users, item) + Scores(b, users, item)
    decreases |b|
  {
    if b == [] {
      assert a + b == a;
    } else {
      var init := b[..|b| - 1];
      assert (a + b)[..|a + b| - 1] == a + init;
      ScoresConcat(a, init, users, item);
      var last := ScoreOf(b[|b| - 1], users, item);
      assert Scores(a, users, item) + (Scores(init, users, item) + last)
        == Scores(a, users, item) + Scores(init, users, item) + last;
    }
  }

  lemma ScoresOne(row: Row, users: Users, item: Item)
    ensures Scores([row], users, item) == ScoreOf(row, users, item)
  {
    assert [row][..0] == [];
  }

  /** Changing or removing a row leaves the scores of the other items as they were. */
  lemma OtherItemsKeepScores(rows: seq<Row>, i: nat, row: Row, users: Users, item: Item)
    requires i < |rows| && rows[i].item != item && row.item != item
    ensures Scores(rows[i := row], users, item) == Scores(rows, users, item)
    ensures Scores(Without(rows, i), users, item) == Scores(rows, users, item)
    ensures Scores(rows + [row], users, item) == Scores(rows, users, item)
  {
    hide Scores;
    var before, after := rows[..i], rows[i + 1..];
    assert rows == before + [rows[i]] + after && rows[i := row] == before + [row] + after;
    ScoresConcat(before + [rows[i]], after, users, item);
    ScoresConcat(before + [row], after, users, item);
    ScoresConcat(before, [rows[i]], users, item);
    ScoresConcat(before, [row], users, item);
    ScoresConcat(before, after, users, item);
    ScoresConcat(rows, [row], users, item);
    ScoresOne(rows[i], users, item);
    ScoresOne(row, users, item);
  }

  lemma NewRowKeepsScores(rows: seq<Row>, row: Row, users: Users, item: Item)
    requires row.item != item
    ensures Scores(rows + [row], users, item) == Scores(rows, users, item)
  {
    hide Scores;
    ScoresConcat(rows, [row], users, item);
    ScoresOne(row, users, item);
  }

  /** Only the items a user has rated notice that the user is banned, unbanned or gone. */
  lemma {:induction false} UnratedItemsKeepScores(rows: seq<Row>, users: Users, other: Users, user: int, item: Item)
    requires forall u | u != user :: (u in users <==> u in other) && (u in users ==> users[u] == other[u])
    requires forall i | 0 <= i < |rows| :: !(rows[i].user == user && rows[i].item == item)
    ensures Scores(rows, other, item) == Scores(rows, users, item)
    ensures Scores(RowsOfOthers(rows, user), other, item) == Scores(rows, users, item)
  {
    if rows != [] {
      var init, last := rows[..|rows| - 1], rows[|rows| - 1];
      UnratedItemsKeepScores(init, users, other, user, item);
      var others := RowsOfOthers(init, user);
      if last.user != user {
        assert (others + [last])[..|others + [last]| - 1] == others;
      } else {
        assert others + [] == others;
      }
    }
  }

  // ---- every operation keeps the invariant

  lemma RecalculatedAgrees(items: map<Item, Aggregate>, rows: seq<Row>, was: seq<Row>, users: Users, item: Item,
                           r: Rounding)
    requires AggregatesAgree(items, was, users, r)
    requires forall other | other != item :: Scores(rows, users, other) == Scores(was, users, other)
    ensures AggregatesAgree(Recalculated(items, rows, users, item, r), rows, users, r)
  {
    hide Scores, AggregateOf;
  }

  lemma BatchAgrees(items: map<Item, Aggregate>, rows: seq<Row>, was: seq<Row>, users: Users, were: Users,
                    list: seq<Item>, r: Rounding)
    requires AggregatesAgree(items, was, were, r)
    requires forall other | other !in list :: Scores(rows, users, other) == Scores(was, were, other)
    ensures AggregatesAgree(BatchRecalculated(items, rows, users, list, r), rows, users, r)
  {
    hide Scores, AggregateOf;
  }

  /** Replacing row `i` by one of the same rating, and its event with it. */
  lemma ChangedRow(rows: seq<Row>, events: map<int, Event>, i: nat, row: Row, after: map<int, Event>)
    requires i < |rows| && OneRatingEach(rows) && EventsAgree(rows, events)
    requires row.id == rows[i].id && row.user == rows[i].user && row.item == rows[i].item
    requires after == if row.HasContent() then
      (if row.id in events then events else events[row.id := Event(row.user, row.item)]) else events - {row.id}
    ensures OneRatingEach(rows[i := row]) && EventsAgree(rows[i := row], after)
  {
    var now := rows[i := row];
    forall id | id in after
      ensures exists k :: 0 <= k < |now| && HasEvent(now, k, id, after[id])
    {
      if id == row.id {
        if id in events {
          var k :| 0 <= k < |rows| && HasEvent(rows, k, id, events[id]);
          assert k == i;
        }
        assert HasEvent(now, i, id, after[id]);
      } else {
        var k :| 0 <= k < |rows| && HasEvent(rows, k, id, events[id]);
        assert HasEvent(now, k, id, after[id]);
      }
    }
  }

  lemma AddedRow(rows: seq<Row>, events: map<int, Event>, row: Row, after: map<int, Event>)
    requires OneRatingEach(rows) && EventsAgree(rows, events) && FreshIds(rows, row.id)
    requires forall j | 0 <= j < |rows| :: !(rows[j].user == row.user && rows[j].item == row.item)
    requires after == if row.HasContent() then
      (if row.id in events then events else events[row.id := Event(row.user, row.item)]) else events - {row.id}
    ensures OneRatingEach(rows + [row]) && EventsAgree(rows + [row], after) && FreshIds(rows + [row], row.id + 1)
  {
    var now := rows + [row];
    assert row.id !in events;
    forall id | id in after
      ensures exists k :: 0 <= k < |now| && HasEvent(now, k, id, after[id])
    {
      if id == row.id {
        assert HasEvent(now, |rows|, id, after[id]);
      } else {
        var k :| 0 <= k < |rows| && HasEvent(rows, k, id, events[id]);
        assert HasEvent(now, k, id, after[id]);
      }
    }
  }

  lemma RateKeeps(s: Store, user: int, item: Item, score: Option<real>, text: Option<string>, r: Rounding)
    requires Consistent(s, r) && Accepts(s, Rate(user, item, score, text))
    ensures Consistent(Step(s, Rate(user, item, score, text), r), r)
  {
    hide Scores, OneRatingEach, EventsAgree, AggregatesAgree, Recalculated;
    var (rated, row) := Rated(s, user, item, score, text);
    var after := Step(s, Rate(user, item, score, text), r);
    var i := IndexOf(s.rows, user, item);
    if i < |s.rows| {
      ChangedRow(s.rows, s.events, i, row, after.events);
      forall other | other != item
        ensures Scores(rated.rows, s.users, other) == Scores(s.rows, s.users, other)
      {
        OtherItemsKeepScores(s.rows, i, row, s.users, other);
      }
    } else {
      AddedRow(s.rows, s.events, row, after.events);
      forall other | other != item
        ensures Scores(rated.rows, s.users, other) == Scores(s.rows, s.users, other)
      {
        NewRowKeepsScores(s.rows, row, s.users, other);
      }
    }
    RecalculatedAgrees(s.items, rated.rows, s.rows, s.users, item, r);
  }

  lemma RemovedRow(rows: seq<Row>, events: map<int, Event>, i: nat, nextId: int)
    requires i < |rows| && OneRatingEach(rows) && EventsAgree(rows, events) && FreshIds(rows, nextId)
    ensures OneRatingEach(Without(rows, i)) && EventsAgree(Without(rows, i), events - {rows[i].id})
      && FreshIds(Without(rows, i), nextId)
  {
    hide EventsAgree;
    RemovedEvents(rows, events, i);
  }

  lemma RemovedEvents(rows: seq<Row>, events: map<int, Event>, i: nat)
    requires i < |rows| && OneRatingEach(rows) && EventsAgree(rows, events)
    ensures EventsAgree(Without(rows, i), events - {rows[i].id})
  {
    var now, after := Without(rows, i), events - {rows[i].id};
    forall k | 0 <= k < |now| && now[k].HasContent()
      ensures now[k].id in after
    {
      assert now[k] == rows[if k < i then k else k + 1];
    }
    forall id | id in after
      ensures exists k :: 0 <= k < |now| && HasEvent(now, k, id, after[id])
    {
      var k :| 0 <= k < |rows| && HasEvent(rows, k, id, events[id]);
      assert HasEvent(now, if k < i then k else k - 1, id, after[id]);
    }
  }

  lemma DeleteKeeps(s: Store, user: int, item: Item, r: Rounding)
    requires Consistent(s, r) && Accepts(s, Delete(user, item))
    ensures Consistent(Step(s, Delete(user, item), r), r)
  {
    hide Scores, OneRatingEach, EventsAgree, AggregatesAgree, Recalculated, FreshIds;
    var i := IndexOf(s.rows, user, item);
    RemovedRow(s.rows, s.events, i, s.nextId);
    forall other | other != item
      ensures Scores(Without(s.rows, i), s.users, other) == Scores(s.rows, s.users, other)
    {
      OtherItemsKeepScores(s.rows, i, s.rows[i], s.users, other);
    }
    RecalculatedAgrees(s.items, Without(s.rows, i), s.rows, s.users, item, r);
  }

  lemma SetHiddenKeeps(s: Store, rating: int, hidden: bool, r: Rounding)
    requires Consistent(s, r) && Accepts(s, SetHidden(rating, hidden))
    ensures Consistent(Step(s, SetHidden(rating, hidden), r), r)
  {
    hide Scores, OneRatingEach, EventsAgree, AggregatesAgree, Recalculated;
    var i := IndexOfId(s.rows, rating);
    var row := s.rows[i].(hidden := hidden);
    SameEvents(s.rows, s.events, i, row);
    ChangedRow(s.rows, s.events, i, row, s.events);
    forall other | other != s.rows[i].item
      ensures Scores(s.rows[i := row], s.users, other) == Scores(s.rows, s.users, other)
    {
      OtherItemsKeepScores(s.rows, i, row, s.users, other);
    }
    RecalculatedAgrees(s.items, s.rows[i := row], s.rows, s.users, s.rows[i].item, r);
  }

  lemma SameEvents(rows: seq<Row>, events: map<int, Event>, i: nat, row: Row)
    requires i < |rows| && OneRatingEach(rows) && EventsAgree(rows, events)
    requires row.id == rows[i].id && row.HasContent() == rows[i].HasContent()
    ensures row.HasContent() <==> row.id in events
    ensures !row.HasContent() ==> events - {row.id} == events
  {
    if row.id in events {
      var k :| 0 <= k < |rows| && HasEvent(rows, k, row.id, events[row.id]);
      assert k == i;
    }
  }

  lemma SetBannedKeeps(s: Store, user: int, banned: bool, r: Rounding)
    requires Consistent(s, r) && Accepts(s, SetBanned(user, banned))
    ensures Consistent(Step(s, SetBanned(user, banned), r), r)
  {
    hide Scores, OneRatingEach, EventsAgree, AggregatesAgree, BatchRecalculated, RatedItems, RowsOfOthers;
    var users, list := s.users[user := banned], RatedItems(s.rows, user);
    forall item | item !in list
      ensures Scores(s.rows, users, item) == Scores(s.rows, s.users, item)
    {
      RatedItemsIff(s.rows, user, item);
      UnratedItemsKeepScores(s.rows, s.users, users, user, item);
    }
    BatchAgrees(s.items, s.rows, s.rows, users, s.users, list, r);
  }

  /** Removing a user's rows keeps the other rows, in order. */
  lemma {:induction false} OthersKept(rows: seq<Row>, user: int, i: nat)
    requires i < |rows|
    ensures rows[i].user != user <==> rows[i] in RowsOfOthers(rows, user)
    ensures forall row | row in RowsOfOthers(rows, user) :: row in rows && row.user != user
    ensures |RowsOfOthers(rows, user)| <= |rows|
  {
    var init := rows[..|rows| - 1];
    assert rows == init + [rows[|rows| - 1]];
    if init != [] {
      OthersKept(init, user, Min(i, |init| - 1));
      assert i < |init| ==> init[i] == rows[i];
    }
  }

  lemma {:induction false} OthersStayDistinct(rows: seq<Row>, user: int, nextId: int)
    requires OneRatingEach(rows) && FreshIds(rows, nextId)
    ensures OneRatingEach(RowsOfOthers(rows, user)) && FreshIds(RowsOfOthers(rows, user), nextId)
  {
    if rows != [] {
      var init, last := rows[..|rows| - 1], rows[|rows| - 1];
      OthersStayDistinct(init, user, nextId);
      var others := RowsOfOthers(init, user);
      forall k | 0 <= k < |others|
        ensures others[k].id != last.id && !(others[k].user == last.user && others[k].item == last.item)
      {
        assert others[k] in others;
        OthersKept(init, user, 0);
        var j :| 0 <= j < |init| && init[j] == others[k];
        assert rows[j] == init[j];
      }
    }
  }

  lemma EraseKeepsEvents(rows: seq<Row>, events: map<int, Event>, user: int)
    requires EventsAgree(rows, events) && OneRatingEach(rows)
    ensures EventsAgree(RowsOfOthers(rows, user), map id | id in events && events[id].user != user :: events[id])
  {
    hide RowsOfOthers;
    var now := RowsOfOthers(rows, user);
    var after := map id | id in events && events[id].user != user :: events[id];
    forall k | 0 <= k < |now| && now[k].HasContent()
      ensures now[k].id in after
    {
      assert now[k] in now;
      if rows == [] {
        NoOthers(user);
      } else {
        OthersKept(rows, user, 0);
        var j :| 0 <= j < |rows| && rows[j] == now[k];
        var m :| 0 <= m < |rows| && HasEvent(rows, m, rows[j].id, events[rows[j].id]);
        assert m == j;
      }
    }
    forall id | id in after
      ensures exists k :: 0 <= k < |now| && HasEvent(now, k, id, after[id])
    {
      var j :| 0 <= j < |rows| && HasEvent(rows, j, id, events[id]);
      OthersKept(rows, user, j);
      var k :| 0 <= k < |now| && now[k] == rows[j];
      assert HasEvent(now, k, id, after[id]);
    }
  }

  lemma NoOthers(user: int)
    ensures RowsOfOthers([], user) == []
  {
  }

  lemma EraseKeeps(s: Store, user: int, r: Rounding)
    requires Consistent(s, r) && Accepts(s, Erase(user))
    ensures Consistent(Step(s, Erase(user), r), r)
  {
    hide Scores, OneRatingEach, EventsAgree, AggregatesAgree, BatchRecalculated, RatedItems, RowsOfOthers, FreshIds;
    var rows, users, list := RowsOfOthers(s.rows, user), s.users - {user}, RatedItems(s.rows, user);
    forall item | item !in list
      ensures Scores(rows, users, item) == Scores(s.rows, s.users, item)
    {
      RatedItemsIff(s.rows, user, item);
      UnratedItemsKeepScores(s.rows, s.users, users, user, item);
    }
    BatchAgrees(s.items, rows, s.rows, users, s.users, list, r);
    OthersStayDistinct(s.rows, user, s.nextId);
    EraseKeepsEvents(s.rows, s.events, user);
  }

  lemma StepKeeps(s: Store, op: Operation, r: Rounding)
    requires Consistent(s, r)
    ensures Consistent(Step(s, op, r), r)
  {
    hide Consistent, Accepts, Step;
    if Accepts(s, op) {
      match op
      case Rate(user, item, score, text) => RateKeeps(s, user, item, score, text, r);
      case Delete(user, item) => DeleteKeeps(s, user, item, r);
      case SetHidden(rating, hidden) => SetHiddenKeeps(s, rating, hidden, r);
      case SetBanned(user, banned) => SetBannedKeeps(s, user, banned, r);
      case Erase(user) => EraseKeeps(s, user, r);
    } else {
      RefusedChangesNothing(s, op, r);
    }
  }

  lemma RefusedChangesNothing(s: Store, op: Operation, r: Rounding)
    ensures !Accepts(s, op) ==> Step(s, op, r) == s
  {
    hide Accepts;
  }

  /** Main result. In every state reachable from a consistent one, each item's stored count and mean are
      those of its visible scored ratings, and the feed events are exactly those of the ratings with a
      score or a text. */
  lemma {:induction false} ReachableIsConsistent(s: Store, ops: seq<Operation>, r: Rounding)
    requires Consistent(s, r)
    ensures Consistent(Steps(s, ops, r), r)
  {
    hide Consistent, Step;
    if ops != [] {
      ReachableIsConsistent(s, ops[..|ops| - 1], r);
      StepKeeps(Steps(s, ops[..|ops| - 1], r), ops[|ops| - 1], r);
    }
  }

  // ---- what an operation does

  /** The ratings an operation is about. */
  predicate Concerns(op: Operation, row: Row) {
    match op
    case Rate(user, item, _, _) => row.user == user && row.item == item
    case Delete(user, item) => row.user == user && row.item == item
    case SetHidden(rating, _) => row.id == rating
    case SetBanned(_, _) => false
    case Erase(user) => row.user == user
  }

  /** No operation touches a rating it is not about. */
  lemma OtherRatingsStay(s: Store, op: Operation, r: Rounding, row: Row)
    requires !Concerns(op, row)
    ensures row in Step(s, op, r).rows <==> row in s.rows
  {
    hide Recalculated, BatchRecalculated, RatedItems, RowsOfOthers;
    if Accepts(s, op) {
      match op
      case Rate(user, item, score, text) =>
        var i := IndexOf(s.rows, user, item);
        var (rated, mine) := Rated(s, user, item, score, text);
        if i < |s.rows| {
          ReplacedMembers(s.rows, i, mine, row);
        }
      case Delete(user, item) =>
        RemovedMembers(s.rows, IndexOf(s.rows, user, item), row);
      case SetHidden(rating, hidden) =>
        var i := IndexOfId(s.rows, rating);
        ReplacedMembers(s.rows, i, s.rows[i].(hidden := hidden), row);
      case SetBanned(user, banned) =>
      case Erase(user) =>
        if s.rows == [] {
          NoOthers(user);
        } else {
          OthersKept(s.rows, user, 0);
          if row in s.rows {
            var j :| 0 <= j < |s.rows| && s.rows[j] == row;
            OthersKept(s.rows, user, j);
          }
        }
    }
  }

  lemma ReplacedMembers(rows: seq<Row>, i: nat, row: Row, other: Row)
    requires i < |rows| && other != row && other != rows[i]
    ensures other in rows[i := row] <==> other in rows
  {
    if other in rows {
      var j :| 0 <= j < |rows| && rows[j] == other;
      assert rows[i := row][j] == other;
    }
  }

  lemma RemovedMembers(rows: seq<Row>, i: nat, other: Row)
    requires i < |rows| && other != rows[i]
    ensures other in Without(rows, i) <==> other in rows
  {
    assert rows == rows[..i] + [rows[i]] + rows[i + 1..];
  }

  /** What becomes of the rating an operation is about: rating replaces score and text and keeps the id
      and the moderation flag, or adds a visible rating; hiding changes the flag alone. */
  lemma OperationTakesEffect(s: Store, op: Operation, r: Rounding, row: Row)
    requires Consistent(s, r) && Accepts(s, op) && (op.Rate? || op.SetHidden?)
    requires Concerns(op, row) && row in Step(s, op, r).rows
    ensures op.Rate? ==> row.score == op.score && row.text == op.text
    ensures op.Rate? && row.id != s.nextId ==>
      exists was | was in s.rows :: Concerns(op, was) && row == was.(score := op.score, text := op.text)
    ensures op.Rate? && row.id == s.nextId ==> !row.hidden && forall was | was in s.rows :: !Concerns(op, was)
    ensures op.SetHidden? ==> exists was | was in s.rows :: row == was.(hidden := op.hidden)
  {
    hide Recalculated, AggregatesAgree, EventsAgree;
    match op
    case Rate(user, item, score, text) =>
      var i := IndexOf(s.rows, user, item);
      var (rated, mine) := Rated(s, user, item, score, text);
      if i < |s.rows| {
        var j :| 0 <= j < |rated.rows| && rated.rows[j] == row;
        assert j == i;
        assert s.rows[i] in s.rows;
      }
    case SetHidden(rating, hidden) =>
      var i := IndexOfId(s.rows, rating);
      var rows := s.rows[i := s.rows[i].(hidden := hidden)];
      var j :| 0 <= j < |rows| && rows[j] == row;
      assert j == i;
      assert s.rows[i] in s.rows;
  }

  /** Deleting and erasing leave no rating they are about, and no event of it. */
  lemma NothingIsLeft(s: Store, op: Operation, r: Rounding, row: Row)
    requires Consistent(s, r) && Accepts(s, op) && (op.Delete? || op.Erase?) && Concerns(op, row)
    ensures row !in Step(s, op, r).rows
    ensures row in s.rows ==> row.id !in Step(s, op, r).events
  {
    hide Recalculated, BatchRecalculated, RatedItems, RowsOfOthers, AggregatesAgree;
    if row in s.rows {
      var j :| 0 <= j < |s.rows| && s.rows[j] == row;
      if row.id in s.events {
        var k :| 0 <= k < |s.rows| && HasEvent(s.rows, k, row.id, s.events[row.id]);
        assert k == j;
      }
    }
    if op.Erase? {
      if s.rows == [] {
        NoOthers(op.user);
      } else {
        OthersKept(s.rows, op.user, 0);
      }
    }
  }

  // ---- what counts, told by what operations do to the aggregates

  /** Rounding that does nothing: it shows the aggregates as they are before they are rounded. */
  const EXACT: Rounding := Rounding(x => x, x => x)

  /** What the scores behind an exact aggregate add up to. */
  function Sum(a: Aggregate): real {
    if a.mean.None? then 0.0 else a.mean.value * a.count as real
  }

  lemma ExactSum(scores: seq<real>)
    ensures Sum(AggregateOf(scores, EXACT.app)) == Total(scores) && AggregateOf(scores, EXACT.app).count == |scores|
    ensures AggregateOf(scores, EXACT.app) == AggregateOf(scores, EXACT.sql)
  {
    hide Total;
    if scores != [] {
      var n := |scores| as real;
      assert Total(scores) / n * n == Total(scores);
    } else {
      NoTotal();
    }
  }

  lemma NoTotal()
    ensures Total([]) == 0.0
  {
  }

  lemma TotalOfOneMore(scores: seq<real>, score: real)
    ensures Total(scores + [score]) == Total(scores) + score
  {
    assert (scores + [score])[..|scores|] == scores;
  }

  /** Rounding touches the mean alone: an aggregate is the exact one with its mean rounded. */
  lemma RoundingTouchesTheMean(scores: seq<real>, round: real -> real)
    ensures var exact, rounded := AggregateOf(scores, EXACT.app), AggregateOf(scores, round);
      && rounded.count == exact.count
      && (rounded.mean.Some? <==> exact.mean.Some?) && (exact.mean.Some? <==> exact.count > 0)
      && (exact.mean.Some? ==> rounded.mean.value == round(exact.mean.value))
  {
    hide Mean;
  }

  /** A user who has not rated an item yet rates it. The rating counts, once and with its score, if and only
      if it has a score and the user is not banned. */
  lemma RatingCounts(s: Store, user: int, item: Item, score: Option<real>, text: Option<string>)
    requires Consistent(s, EXACT) && user in s.users && item in s.items
    requires forall i | 0 <= i < |s.rows| :: !(s.rows[i].user == user && s.rows[i].item == item)
    ensures var was, now := s.items[item], Step(s, Rate(user, item, score, text), EXACT).items[item];
      if score.Some? && !s.users[user] then now.count == was.count + 1 && Sum(now) == Sum(was) + score.value
      else now == was
  {
    hide Scores, AggregateOf, Sum, Total;
    var row := Row(s.nextId, user, item, score, text, false);
    ScoresConcat(s.rows, [row], s.users, item);
    ScoresOne(row, s.users, item);
    var scores := Scores(s.rows, s.users, item);
    assert Agrees(s.items[item], scores, EXACT);
    ExactSum(scores);
    ExactSum(Scores(s.rows + [row], s.users, item));
    if score.Some? && !s.users[user] {
      TotalOfOneMore(scores, score.value);
    } else {
      assert scores + [] == scores;
    }
  }

  /** The first rating of an item that has none counts alone: its mean is its score. */
  lemma FirstRatingIsTheMean(s: Store, user: int, item: Item, score: real, text: Option<string>)
    requires Consistent(s, EXACT) && user in s.users && !s.users[user] && item in s.items
    requires forall i | 0 <= i < |s.rows| :: s.rows[i].item != item
    ensures Step(s, Rate(user, item, Some(score), text), EXACT).items[item] == Aggregate(Some(score), 1)
  {
    hide Scores, AggregateOf;
    RatingCounts(s, user, item, Some(score), text);
    NoRatingsNoScores(s.rows, s.users, item);
    ExactSum([]);
    assert s.items[item] == AggregateOf([], EXACT.app);
    var now := Step(s, Rate(user, item, Some(score), text), EXACT).items[item];
    StepKeeps(s, Rate(user, item, Some(score), text), EXACT);
    var after := Step(s, Rate(user, item, Some(score), text), EXACT);
    ExactSum(Scores(after.rows, after.users, item));
    RoundingTouchesTheMean(Scores(after.rows, after.users, item), EXACT.app);
    assert Agrees(now, Scores(after.rows, after.users, item), EXACT);
  }

  lemma {:induction false} NoRatingsNoScores(rows: seq<Row>, users: Users, item: Item)
    requires forall i | 0 <= i < |rows| :: rows[i].item != item
    ensures Scores(rows, users, item) == []
  {
    if rows != [] {
      NoRatingsNoScores(rows[..|rows| - 1], users, item);
    }
  }

  /** Banning a user leaves on every item the aggregates that erasing the user leaves: none of the user's
      ratings counts. */
  lemma BanningIsLikeErasing(s: Store, user: int, r: Rounding)
    requires user in s.users
    ensures Step(s, SetBanned(user, true), r).items == Step(s, Erase(user), r).items
  {
    hide Scores, RatedItems, RowsOfOthers, AggregateOf;
    forall item: Item
      ensures Scores(s.rows, s.users[user := true], item) == Scores(RowsOfOthers(s.rows, user), s.users - {user}, item)
    {
      BannedScoresAreGone(s.rows, s.users, user, item);
    }
  }

  lemma {:induction false} BannedScoresAreGone(rows: seq<Row>, users: Users, user: int, item: Item)
    requires user in users
    ensures Scores(rows, users[user := true], item) == Scores(RowsOfOthers(rows, user), users - {user}, item)
  {
    if rows != [] {
      var init, last := rows[..|rows| - 1], rows[|rows| - 1];
      BannedScoresAreGone(init, users, user, item);
      var others := RowsOfOthers(init, user);
      if last.user == user {
        assert others + [] == others;
        assert Scores(init, users[user := true], item) + [] == Scores(init, users[user := true], item);
      } else {
        assert (others + [last])[..|others|] == others;
      }
    }
  }

  /** Hiding a rating leaves on every item the aggregates that deleting it leaves. */
  lemma HidingIsLikeDeleting(s: Store, i: nat, r: Rounding)
    requires Consistent(s, r) && i < |s.rows| && s.rows[i].user in s.users && s.rows[i].item in s.items
    ensures Step(s, SetHidden(s.rows[i].id, true), r).items == Step(s, Delete(s.rows[i].user, s.rows[i].item), r).items
  {
    hide Scores, AggregateOf, AggregatesAgree, EventsAgree;
    var row := s.rows[i];
    assert IndexOfId(s.rows, row.id) == i && IndexOf(s.rows, row.user, row.item) == i;
    HiddenScoreIsGone(s.rows, i, s.users, row.item);
  }

  lemma HiddenScoreIsGone(rows: seq<Row>, i: nat, users: Users, item: Item)
    requires i < |rows|
    ensures Scores(rows[i := rows[i].(hidden := true)], users, item) == Scores(Without(rows, i), users, item)
  {
    hide Scores;
    var before, row, after := rows[..i], rows[i].(hidden := true), rows[i + 1..];
    assert rows[i := row] == before + [row] + after;
    ScoresConcat(before + [row], after, users, item);
    ScoresConcat(before, [row], users, item);
    ScoresConcat(before, after, users, item);
    ScoresOne(row, users, item);
    assert Scores(before, users, item) + [] == Scores(before, users, item);
  }

  /** Unbanning a banned user brings back, on every item, the count there was and the mean before rounding;
      with one rounding, the aggregates themselves. */
  lemma UnbanningBringsBack(s: Store, user: int, r: Rounding, item: Item)
    requires Consistent(s, r) && user in s.users && !s.users[user] && item in s.items
    ensures var back := Step(Step(s, SetBanned(user, true), r), SetBanned(user, false), r);
      && back.rows == s.rows && back.users == s.users && back.items.Keys == s.items.Keys
      && back.items[item].count == s.items[item].count
      && (r.app == r.sql ==> back.items[item] == s.items[item])
  {
    hide Scores, RatedItems, AggregateOf, OneRatingEach, EventsAgree;
    var scores := Scores(s.rows, s.users, item);
    assert Agrees(s.items[item], scores, r);
    RoundingTouchesTheMean(scores, r.app);
    RoundingTouchesTheMean(scores, r.sql);
    var banned := Step(s, SetBanned(user, true), r);
    assert banned.users[user := false] == s.users && banned.rows == s.rows;
    if item !in RatedItems(s.rows, user) {
      assert banned.items[item] == s.items[item];
    }
  }

  /** Unhiding a rating brings back the count there was; with one rounding, the aggregate itself. */
  lemma UnhidingBringsBack(s: Store, i: nat, r: Rounding, item: Item)
    requires Consistent(s, r) && i < |s.rows| && !s.rows[i].hidden && item in s.items
    ensures var back := Step(Step(s, SetHidden(s.rows[i].id, true), r), SetHidden(s.rows[i].id, false), r);
      && back.rows == s.rows && back.users == s.users && back.items.Keys == s.items.Keys
      && back.items[item].count == s.items[item].count
      && (r.app == r.sql ==> back.items[item] == s.items[item])
  {
    hide Scores, AggregateOf, EventsAgree;
    var id := s.rows[i].id;
    var scores := Scores(s.rows, s.users, item);
    assert Agrees(s.items[item], scores, r);
    RoundingTouchesTheMean(scores, r.app);
    RoundingTouchesTheMean(scores, r.sql);
    assert IndexOfId(s.rows, id) == i;
    var hidden := Step(s, SetHidden(id, true), r);
    assert hidden.rows == s.rows[i := s.rows[i].(hidden := true)];
    SameIds(s.rows, hidden.rows, id);
    assert hidden.rows[i := hidden.rows[i].(hidden := false)] == s.rows;
  }

  lemma SameIds(a: seq<Row>, b: seq<Row>, id: int)
    requires |a| == |b| && forall k | 0 <= k < |a| :: a[k].id == b[k].id
    ensures IndexOfId(a, id) == IndexOfId(b, id)
  {
    var i, j := IndexOfId(a, id), IndexOfId(b, id);
    assert i < |a| ==> b[i].id == id;
    assert j < |b| ==> a[j].id == id;
  }

  // ---- what the audit trail tells

  /** Whether the last audit row about a rating hid it. */
  function HiddenPer(audit: seq<Action>, rating: int): bool {
    if audit == [] then false
    else
      match audit[|audit| - 1]
      case HideReview(x) => x == rating || HiddenPer(audit[..|audit| - 1], rating)
      case UnhideReview(x) => x != rating && HiddenPer(audit[..|audit| - 1], rating)
      case _ => HiddenPer(audit[..|audit| - 1], rating)
  }

  /** Whether the last audit row about a user banned them. */
  function BannedPer(audit: seq<Action>, user: int): bool {
    if audit == [] then false
    else
      match audit[|audit| - 1]
      case BanUser(x) => x == user || BannedPer(audit[..|audit| - 1], user)
      case UnbanUser(x) => x != user && BannedPer(audit[..|audit| - 1], user)
      case _ => BannedPer(audit[..|audit| - 1], user)
  }

  ghost predicate HiddenAgrees(rows: seq<Row>, audit: seq<Action>) {
    forall i | 0 <= i < |rows| :: rows[i].hidden == HiddenPer(audit, rows[i].id)
  }

  ghost predicate BannedAgrees(users: Users, audit: seq<Action>) {
    forall user | user in users :: users[user] == BannedPer(audit, user)
  }

  /** No rating that is still to come has been moderated. */
  ghost predicate OnlyPastRatings(audit: seq<Action>, nextId: int) {
    forall rating | rating >= nextId :: !HiddenPer(audit, rating)
  }

  /** The moderation flags are what the audit trail says. */
  ghost predicate AuditExplains(s: Store) {
    HiddenAgrees(s.rows, s.audit) && BannedAgrees(s.users, s.audit) && OnlyPastRatings(s.audit, s.nextId)
  }

  function HiddenBy(action: Action, rating: int, before: bool): bool {
    if action == HideReview(rating) then true else if action == UnhideReview(rating) then false else before
  }

  function BannedBy(action: Action, user: int, before: bool): bool {
    if action == BanUser(user) then true else if action == UnbanUser(user) then false else before
  }

  lemma OneMoreAction(audit: seq<Action>, action: Action)
    ensures forall x :: HiddenPer(audit + [action], x) == HiddenBy(action, x, HiddenPer(audit, x))
    ensures forall x :: BannedPer(audit + [action], x) == BannedBy(action, x, BannedPer(audit, x))
  {
    assert (audit + [action])[..|audit + [action]| - 1] == audit;
  }

  lemma StepKeepsAudit(s: Store, op: Operation, r: Rounding)
    requires Consistent(s, r) && AuditExplains(s)
    ensures AuditExplains(Step(s, op, r))
  {
    hide Recalculated, BatchRecalculated, RatedItems, RowsOfOthers, AggregatesAgree, EventsAgree, HiddenPer, BannedPer;
    if Accepts(s, op) {
      match op
      case Rate(user, item, score, text) =>
      case Delete(user, item) =>
        var i := IndexOf(s.rows, user, item);
        forall k | 0 <= k < |Without(s.rows, i)|
          ensures Without(s.rows, i)[k].hidden == HiddenPer(s.audit, Without(s.rows, i)[k].id)
        {
          assert Without(s.rows, i)[k] == s.rows[if k < i then k else k + 1];
        }
      case SetHidden(rating, hidden) =>
        HidingKeepsAudit(s, rating, hidden, r);
      case SetBanned(user, banned) =>
        OneMoreAction(s.audit, if banned then BanUser(user) else UnbanUser(user));
      case Erase(user) =>
        ErasingKeepsAudit(s.rows, s.audit, user);
    }
  }

  lemma HidingKeepsAudit(s: Store, rating: int, hidden: bool, r: Rounding)
    requires Consistent(s, r) && AuditExplains(s) && Accepts(s, SetHidden(rating, hidden))
    ensures AuditExplains(Step(s, SetHidden(rating, hidden), r))
  {
    hide Recalculated, AggregatesAgree, EventsAgree, HiddenPer, BannedPer;
    OneMoreAction(s.audit, if hidden then HideReview(rating) else UnhideReview(rating));
    var i := IndexOfId(s.rows, rating);
    assert s.rows[i].id < s.nextId;
  }

  lemma ErasingKeepsAudit(rows: seq<Row>, audit: seq<Action>, user: int)
    requires HiddenAgrees(rows, audit)
    ensures HiddenAgrees(RowsOfOthers(rows, user), audit)
  {
    hide RowsOfOthers, HiddenPer;
    var others := RowsOfOthers(rows, user);
    forall k | 0 <= k < |others|
      ensures others[k].hidden == HiddenPer(audit, others[k].id)
    {
      assert others[k] in others;
      if rows == [] {
        NoOthers(user);
      } else {
        OthersKept(rows, user, 0);
        var j :| 0 <= j < |rows| && rows[j] == others[k];
      }
    }
  }

  /** A service that has just started: nobody banned, nothing rated, nothing moderated. */
  function Started(users: set<int>, items: set<Item>, nextId: int): Store {
    Store(map user | user in users :: false, map item | item in items :: Aggregate(None, 0), [], map[], [], nextId)
  }

  lemma StartedIsConsistent(users: set<int>, items: set<Item>, nextId: int, r: Rounding)
    ensures Consistent(Started(users, items, nextId), r) && AuditExplains(Started(users, items, nextId))
  {
    forall item | item in items
      ensures Scores([], Started(users, items, nextId).users, item) == []
    {
    }
  }

  /** Main result on moderation. From the start of the service on, whatever is rated, deleted, moderated
      and erased in between, the audit trail alone tells which ratings are hidden and who is banned; and
      the store stays consistent. */
  lemma {:induction false} AuditExplainsFlags(users: set<int>, items: set<Item>, nextId: int, ops: seq<Operation>,
                                              r: Rounding)
    ensures var s := Steps(Started(users, items, nextId), ops, r);
      && Consistent(s, r)
      && (forall i | 0 <= i < |s.rows| :: s.rows[i].hidden == HiddenPer(s.audit, s.rows[i].id))
      && (forall user | user in s.users :: s.users[user] == BannedPer(s.audit, user))
      && OnlyPastRatings(s.audit, s.nextId)
  {
    hide Consistent, Step, HiddenPer, BannedPer;
    var start := Started(users, items, nextId);
    if ops == [] {
      StartedIsConsistent(users, items, nextId, r);
    } else {
      var last := |ops| - 1;
      AuditExplainsFlags(users, items, nextId, ops[..last], r);
      StepKeeps(Steps(start, ops[..last], r), ops[last], r);
      StepKeepsAudit(Steps(start, ops[..last], r), ops[last], r);
    }
  }

  // ---- the database

  /** The ids of a list of items, by type, with the types in order of first appearance. */
  ghost predicate Grouped(list: seq<Item>, types: seq<ItemType>, idsByType: map<ItemType, seq<int>>) {
    && (forall t :: t in types <==> t in idsByType)
    && (forall t, id :: t in idsByType && id in idsByType[t] <==> Item(t, id) in list)
  }

  /** The batch, as far as it has got: the items of the given types are done. */
  function PartRecalculated(items: map<Item, Aggregate>, rows: seq<Row>, users: Users, list: seq<Item>,
      types: seq<ItemType>, r: Rounding): map<Item, Aggregate> {
    map item | item in items ::
      if item in list && item.itemType in types then AggregateOf(Scores(rows, users, item), r.sql) else items[item]
  }

  lemma GroupedAdds(list: seq<Item>, item: Item, types: seq<ItemType>, idsByType: map<ItemType, seq<int>>)
    requires Grouped(list, types, idsByType)
    ensures Grouped(list + [item], if item.itemType in types then types else types + [item.itemType],
      idsByType[item.itemType := (if item.itemType in idsByType then idsByType[item.itemType] else []) + [item.itemId]])
  {
  }

  lemma TypeDone(items: map<Item, Aggregate>, rows: seq<Row>, users: Users, list: seq<Item>,
      types: seq<ItemType>, t: ItemType, ids: seq<int>, r: Rounding)
    requires forall id :: id in ids <==> Item(t, id) in list
    ensures var part := PartRecalculated(items, rows, users, list, types, r);
      Updated(Reset(part, t, ids), rows, users, t, ids, r) == PartRecalculated(items, rows, users, list, types + [t], r)
  {
    hide Scores, Mean;
  }

  lemma AllTypesDone(items: map<Item, Aggregate>, rows: seq<Row>, users: Users, list: seq<Item>, types: seq<ItemType>,
                     r: Rounding)
    requires forall item | item in list :: item.itemType in types
    ensures PartRecalculated(items, rows, users, list, types, r) == BatchRecalculated(items, rows, users, list, r)
    ensures PartRecalculated(items, rows, users, list, [], r) == items
  {
    hide Scores, AggregateOf;
  }

  /** The first update of a type: no mean and no ratings. */
  function Reset(items: map<Item, Aggregate>, t: ItemType, ids: seq<int>): map<Item, Aggregate> {
    map item | item in items :: if item.itemType == t && item.itemId in ids then Aggregate(None, 0) else items[item]
  }

  /** The second: the items that still have a visible scored rating. */
  function Updated(items: map<Item, Aggregate>, rows: seq<Row>, users: Users, t: ItemType, ids: seq<int>,
                   r: Rounding): map<Item, Aggregate> {
    map item | item in items ::
      var scores := Scores(rows, users, item);
      if item.itemType == t && item.itemId in ids && scores != [] then Aggregate(Some(r.sql(Mean(scores))), |scores|)
      else items[item]
  }

  /** The batch as the database runs it: for each type, reset and then update. */
  function BatchByType(items: map<Item, Aggregate>, rows: seq<Row>, users: Users, types: seq<ItemType>,
                       idsByType: map<ItemType, seq<int>>, r: Rounding): map<Item, Aggregate>
    requires forall i | 0 <= i < |types| :: types[i] in idsByType
  {
    if types == [] then items
    else
      var last := |types| - 1;
      var t, before := types[last], BatchByType(items, rows, users, types[..last], idsByType, r);
      Updated(Reset(before, t, idsByType[t]), rows, users, t, idsByType[t], r)
  }

  lemma {:induction false} BatchByTypeIs(items: map<Item, Aggregate>, rows: seq<Row>, users: Users, list: seq<Item>,
                                         types: seq<ItemType>, idsByType: map<ItemType, seq<int>>, r: Rounding)
    requires forall i | 0 <= i < |types| ::
      types[i] in idsByType && forall id :: id in idsByType[types[i]] <==> Item(types[i], id) in list
    ensures BatchByType(items, rows, users, types, idsByType, r) == PartRecalculated(items, rows, users, list, types, r)
  {
    hide PartRecalculated, Reset, Updated;
    if types == [] {
      NothingRecalculated(items, rows, users, list, r);
    } else {
      var last := |types| - 1;
      var init, t := types[..last], types[last];
      BatchByTypeIs(items, rows, users, list, init, idsByType, r);
      TypeDone(items, rows, users, list, init, t, idsByType[t], r);
      assert types == init + [t];
    }
  }

  lemma NothingRecalculated(items: map<Item, Aggregate>, rows: seq<Row>, users: Users, list: seq<Item>, r: Rounding)
    ensures PartRecalculated(items, rows, users, list, [], r) == items
  {
  }

  /** The batch, run as resets and updates type by type, agrees with one recompute per item: both leave
      no mean and no ratings when no visible score is left, and otherwise the same count and the same
      mean, each under its own rounding; items not listed keep what they had. */
  lemma BatchAgreesWithSingle(items: map<Item, Aggregate>, rows: seq<Row>, users: Users, list: seq<Item>,
                              types: seq<ItemType>, idsByType: map<ItemType, seq<int>>, item: Item, r: Rounding)
    requires Grouped(list, types, idsByType) && item in items
    requires forall i | 0 <= i < |types| :: types[i] in idsByType
    ensures var batch, scores := BatchByType(items, rows, users, types, idsByType, r), Scores(rows, users, item);
      && item in batch
      && (item !in list ==> batch[item] == items[item])
      && (item in list ==>
        var single := Recalculated(items, rows, users, item, r)[item];
        if scores == [] then batch[item] == single == Aggregate(None, 0)
        else
          && single == Aggregate(Some(r.app(Mean(scores))), |scores|)
          && batch[item] == Aggregate(Some(r.sql(Mean(scores))), |scores|))
  {
    hide Scores, Mean, BatchByType, Grouped;
    GroupedMeans(list, types, idsByType);
    BatchByTypeIs(items, rows, users, list, types, idsByType, r);
  }

  class RatingDatabase {
    const r: Rounding
    var users: Users
    var items: map<Item, Aggregate>
    var rows: seq<Row>
    var events: map<int, Event>
    var audit: seq<Action>
    var nextId: int

    constructor (r: Rounding, s: Store)
      ensures this.r == r && State() == s
    {
      this.r := r;
      users, items, rows, events, audit, nextId := s.users, s.items, s.rows, s.events, s.audit, s.nextId;
    }

    function State(): Store
      reads this
    {
      Store(users, items, rows, events, audit, nextId)
    }

    method RecalculateItemAggregates(item: Item)
      modifies this`items
      ensures items == Recalculated(old(items), rows, users, item, r)
    {
      var scores := Scores(rows, users, item);
      if item !in items {
        return;
      }
      items := items[item := Aggregate(if scores == [] then None else Some(r.app(Mean(scores))), |scores|)];
    }

    method RecalculateItemAggregatesBatch(list: seq<Item>)
      modifies this`items
      ensures items == BatchRecalculated(old(items), rows, users, list, r)
    {
      hide Scores, Grouped, PartRecalculated, Reset, Updated, AggregateOf, BatchRecalculated;
      var types: seq<ItemType>, idsByType: map<ItemType, seq<int>> := [], map[];
      NothingGrouped();
      assert list[..0] == [];
      for i := 0 to |list|
        invariant items == old(items) && Grouped(list[..i], types, idsByType)
      {
        assert list[..i + 1] == list[..i] + [list[i]];
        GroupedAdds(list[..i], list[i], types, idsByType);
        var t := list[i].itemType;
        types, idsByType := if t in types then types else types + [t],
          idsByType[t := (if t in idsByType then idsByType[t] else []) + [list[i].itemId]];
      }
      assert list[..|list|] == list;
      GroupedMeans(list, types, idsByType);
      AllTypesDone(items, rows, users, list, types, r);
      assert types[..0] == [];
      for k := 0 to |types|
        invariant items == PartRecalculated(old(items), rows, users, list, types[..k], r)
      {
        var t := types[k];
        assert types[..k + 1] == types[..k] + [t];
        TypeDone(old(items), rows, users, list, types[..k], t, idsByType[t], r);
        items := Reset(items, t, idsByType[t]);
        items := Updated(items, rows, users, t, idsByType[t], r);
      }
      assert types[..|types|] == types;
    }

    method RateItem(user: int, item: Item, score: Option<real>, text: Option<string>) returns (found: bool)
      requires user in users
      modifies this
      ensures found <==> item in old(items)
      ensures State() == Step(old(State()), Rate(user, item, score, text), r)
    {
      hide Recalculated;
      if item !in items {
        return false;
      }
      var i := IndexOf(rows, user, item);
      var row;
      if i < |rows| {
        row := rows[i].(score := score, text := text);
        rows := rows[i := row];
      } else {
        row := Row(nextId, user, item, score, text, false);
        rows := rows + [row];
        nextId := nextId + 1;
      }
      RecalculateItemAggregates(item);
      if row.HasContent() {
        if row.id !in events {
          events := events[row.id := Event(user, item)];
        }
      } else {
        events := events - {row.id};
      }
      return true;
    }

    method DeleteItemRating(user: int, item: Item) returns (found: bool)
      requires user in users
      modifies this
      ensures found <==> Accepts(old(State()), Delete(user, item))
      ensures State() == Step(old(State()), Delete(user, item), r)
    {
      hide Recalculated;
      var i := IndexOf(rows, user, item);
      if item !in items || i == |rows| {
        return false;
      }
      events := events - {rows[i].id};
      rows := Without(rows, i);
      RecalculateItemAggregates(item);
      return true;
    }

    method SetReviewHidden(rating: int, hidden: bool) returns (found: bool)
      modifies this
      ensures found <==> Accepts(old(State()), SetHidden(rating, hidden))
      ensures State() == Step(old(State()), SetHidden(rating, hidden), r)
    {
      hide Recalculated;
      var i := IndexOfId(rows, rating);
      if i == |rows| {
        return false;
      }
      if rows[i].hidden != hidden {
        rows := rows[i := rows[i].(hidden := hidden)];
      } else {
        SameRow(rows, i, hidden);
      }
      RecalculateItemAggregates(rows[i].item);
      audit := audit + [if hidden then HideReview(rating) else UnhideReview(rating)];
      return true;
    }

    method SetUserBanned(user: int, banned: bool) returns (found: bool)
      modifies this
      ensures found <==> user in old(users)
      ensures State() == Step(old(State()), SetBanned(user, banned), r)
    {
      hide BatchRecalculated, RatedItems;
      if user !in users {
        return false;
      }
      var rated := RatedItems(rows, user);
      users := users[user := banned];
      RecalculateItemAggregatesBatch(rated);
      audit := audit + [if banned then BanUser(user) else UnbanUser(user)];
      return true;
    }

    method DeleteUser(user: int)
      requires user in users
      modifies this
      ensures State() == Step(old(State()), Erase(user), r)
    {
      hide BatchRecalculated, RatedItems, RowsOfOthers;
      var rated := RatedItems(rows, user);
      users := users - {user};
      rows := RowsOfOthers(rows, user);
      events := map id | id in events && events[id].user != user :: events[id];
      RecalculateItemAggregatesBatch(rated);
    }
  }

  lemma SameRow(rows: seq<Row>, i: nat, hidden: bool)
    requires i < |rows| && rows[i].hidden == hidden
    ensures rows[i := rows[i].(hidden := hidden)] == rows
  {
  }

  lemma NothingGrouped()
    ensures Grouped([], [], map[])
  {
  }

  lemma GroupedMeans(list: seq<Item>, types: seq<ItemType>, idsByType: map<ItemType, seq<int>>)
    requires Grouped(list, types, idsByType)
    ensures forall item | item in list :: item.itemType in types
    ensures forall i | 0 <= i < |types| ::
      types[i] in idsByType && forall id :: id in idsByType[types[i]] <==> Item(types[i], id) in list
  {
    forall item | item in list
      ensures item.itemType in types
    {
      assert Item(item.itemType, item.itemId) in list;
    }
  }
}
