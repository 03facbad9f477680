/** Splitting the embedding cap over the four content types: overrides first, then equal shares that
    are split again whenever a type runs out of items, then the remainder one by one. */
module QuotaAllocation {
  import opened Common

  type Counts = map<ItemType, int>
  type Overrides = map<ItemType, Option<int>>

  function Stock(available: Counts, t: ItemType): int {
    if t in available then available[t] else 0
  }

  function Room(available: Counts, t: ItemType): nat {
    Max(0, Stock(available, t))
  }

  predicate Free(overrides: Overrides, t: ItemType) {
    t !in overrides || overrides[t].None?
  }

  /** An explicit quota, clamped to what the type has. */
  function Pinned(available: Counts, overrides: Overrides, t: ItemType): nat
    requires !Free(overrides, t)
  {
    Min(Max(0, overrides[t].value), Room(available, t))
  }

  ghost predicate Complete(quotas: Counts) {
    forall t: ItemType :: t in quotas
  }

  function OnlyFree(overrides: Overrides, t: ItemType, n: int): int {
    if Free(overrides, t) then n else 0
  }

  function OnlyPinned(overrides: Overrides, t: ItemType, n: int): int {
    if Free(overrides, t) then 0 else n
  }

  /** What the types without an override hold together. */
  function FreeTotal(overrides: Overrides, quotas: Counts): int
    requires Complete(quotas)
  {
    OnlyFree(overrides, Movie, quotas[Movie]) + OnlyFree(overrides, Series, quotas[Series]) +
    OnlyFree(overrides, Book, quotas[Book]) + OnlyFree(overrides, Game, quotas[Game])
  }

  function PinnedTotal(overrides: Overrides, quotas: Counts): int
    requires Complete(quotas)
  {
    OnlyPinned(overrides, Movie, quotas[Movie]) + OnlyPinned(overrides, Series, quotas[Series]) +
    OnlyPinned(overrides, Book, quotas[Book]) + OnlyPinned(overrides, Game, quotas[Game])
  }

  function Total(quotas: Counts): int
    requires Complete(quotas)
  {
    quotas[Movie] + quotas[Series] + quotas[Book] + quotas[Game]
  }

  function Rooms(available: Counts): (rooms: Counts)
    ensures Complete(rooms) && forall t: ItemType :: rooms[t] == Room(available, t)
  {
    EveryTypeHasAPlace();
    map t | t in ITEM_TYPES :: Room(available, t)
  }

  function FreeTypes(overrides: Overrides, ts: seq<ItemType>): seq<ItemType> {
    if ts == [] then []
    else (if Free(overrides, ts[0]) then [ts[0]] else []) + FreeTypes(overrides, ts[1..])
  }

  /** The types of `ts` that have more than `level` items, in order. */
  function OpenOf(available: Counts, ts: seq<ItemType>, level: int): seq<ItemType> {
    if ts == [] then []
    else (if Stock(available, ts[0]) > level then [ts[0]] else []) + OpenOf(available, ts[1..], level)
  }

  /** Every type gets the level or all it has; the first `extra` of those above the level get one more. */
  ghost predicate LevelForm(available: Counts, overrides: Overrides, quotas: Counts, level: nat, extra: nat) {
    var open := OpenOf(available, FreeTypes(overrides, ITEM_TYPES), level);
    && extra <= |open|
    && Complete(quotas)
    && forall t: ItemType ::
         quotas[t] == if !Free(overrides, t) then Pinned(available, overrides, t)
                      else Min(Room(available, t), level) + (if t in open[..extra] then 1 else 0)
  }

  // ---- facts about the lists of types

  lemma {:induction false} OpenConcat(available: Counts, a: seq<ItemType>, b: seq<ItemType>, level: int)
    ensures OpenOf(available, a + b, level) == OpenOf(available, a, level) + OpenOf(available, b, level)
  {
    if a == [] {
      assert a + b == b;
    } else {
      assert (a + b)[1..] == a[1..] + b;
      OpenConcat(available, a[1..], b, level);
      var head := if Stock(available, a[0]) > level then [a[0]] else [];
      assert head + (OpenOf(available, a[1..], level) + OpenOf(available, b, level))
          == head + OpenOf(available, a[1..], level) + OpenOf(available, b, level);
    }
  }

  lemma {:induction false} OpenMembers(available: Counts, ts: seq<ItemType>, level: int)
    ensures forall t :: t in OpenOf(available, ts, level) <==> t in ts && Stock(available, t) > level
    ensures Distinct(ts) ==> Distinct(OpenOf(available, ts, level))
    ensures |OpenOf(available, ts, level)| <= |ts|
    ensures (forall t | t in ts :: Stock(available, t) > level) ==> OpenOf(available, ts, level) == ts
  {
    if ts != [] {
      assert ts == [ts[0]] + ts[1..];
      OpenMembers(available, ts[1..], level);
      if Distinct(ts) {
        DistinctTail(ts);
        if Stock(available, ts[0]) > level {
          DistinctCons(ts[0], OpenOf(available, ts[1..], level));
        }
      }
    }
  }

  lemma {:induction false} OpenTwice(available: Counts, ts: seq<ItemType>, low: int, high: int)
    requires low <= high
    ensures OpenOf(available, OpenOf(available, ts, low), high) == OpenOf(available, ts, high)
  {
    if ts != [] {
      OpenTwice(available, ts[1..], low, high);
      var rest := OpenOf(available, ts[1..], low);
      assert ([ts[0]] + rest)[1..] == rest;
      assert [] + rest == rest;
    }
  }

  lemma FreeTypesAre(overrides: Overrides)
    ensures var free := FreeTypes(overrides, ITEM_TYPES);
      Distinct(free) && forall t: ItemType :: t in free <==> Free(overrides, t)
  {
    EveryTypeHasAPlace();
    FreeMembers(overrides, ITEM_TYPES);
  }

  /** The place of a type in the fixed order. */
  function Place(t: ItemType): nat {
    match t
    case Movie => 0
    case Series => 1
    case Book => 2
    case Game => 3
  }

  lemma EveryTypeHasAPlace()
    ensures |ITEM_TYPES| == 4 && Distinct(ITEM_TYPES)
    ensures forall t: ItemType :: Place(t) < 4 && ITEM_TYPES[Place(t)] == t && t in ITEM_TYPES
    ensures forall i | 0 <= i < 4 :: Place(ITEM_TYPES[i]) == i
  {
  }

  lemma {:induction false} FreeMembers(overrides: Overrides, ts: seq<ItemType>)
    requires Distinct(ts)
    ensures Distinct(FreeTypes(overrides, ts))
    ensures forall t :: t in FreeTypes(overrides, ts) <==> t in ts && Free(overrides, t)
  {
    if ts != [] {
      assert ts == [ts[0]] + ts[1..];
      DistinctTail(ts);
      FreeMembers(overrides, ts[1..]);
      if Free(overrides, ts[0]) {
        DistinctCons(ts[0], FreeTypes(overrides, ts[1..]));
      }
    }
  }

  function RemoveFirst(s: seq<ItemType>, t: ItemType): seq<ItemType> {
    if s == [] then [] else if s[0] == t then s[1..] else [s[0]] + RemoveFirst(s[1..], t)
  }

  lemma {:induction false} RemoveAround(a: seq<ItemType>, t: ItemType, b: seq<ItemType>)
    requires t !in a
    ensures RemoveFirst(a + [t] + b, t) == a + b
  {
    if a == [] {
      assert [] + [t] + b == [t] + b;
    } else {
      var all := a + [t] + b;
      assert all[0] == a[0] && all[1..] == a[1..] + [t] + b;
      RemoveAround(a[1..], t, b);
      assert [a[0]] + (a[1..] + b) == a + b;
    }
  }

  lemma ShareFits(budget: nat, n: nat)
    requires n > 0
    ensures budget / n * n <= budget
    ensures budget / n == 0 <==> budget < n
  {
    assert budget == budget / n * n + budget % n;
  }

  // ---- the allocation

  /** The overrides are set and taken off the top; the rest of the types form the pool. */
  method PinOverrides(cap: int, available: Counts, overrides: Overrides)
    returns (quotas: Counts, budget: nat, pool: seq<ItemType>)
    ensures Complete(quotas)
    ensures forall t: ItemType ::
      quotas[t] == if Free(overrides, t) then 0 else Pinned(available, overrides, t)
    ensures budget == Max(0, Max(0, cap) - PinnedTotal(overrides, quotas))
    ensures pool == FreeTypes(overrides, ITEM_TYPES)
  {
    hide Pinned, Free, FreeTypes, PinnedTotal, PinnedUpTo;
    quotas := map[Movie := 0, Series := 0, Book := 0, Game := 0];
    ZeroQuotas(overrides, quotas);
    PinNothing(available, overrides, quotas);
    var left := Max(0, cap);
    pool := [];
    var i := 0;
    assert ITEM_TYPES[0..] == ITEM_TYPES;
    assert [] + FreeTypes(overrides, ITEM_TYPES) == FreeTypes(overrides, ITEM_TYPES);
    while i < 4
      invariant 0 <= i <= 4
      invariant Complete(quotas)
      invariant PinnedUpTo(available, overrides, quotas, i)
      invariant left == Max(0, cap) - PinnedTotal(overrides, quotas)
      invariant pool + FreeTypes(overrides, ITEM_TYPES[i..]) == FreeTypes(overrides, ITEM_TYPES)
    {
      var itemType := ITEM_TYPES[i];
      FreeStep(overrides, i);
      PinStep(available, overrides, quotas, i);
      if Free(overrides, itemType) {
        pool := pool + [itemType];
      } else {
        var quota := Pinned(available, overrides, itemType);
        AddToPinned(overrides, quotas, itemType, quota);
        quotas := quotas[itemType := quota];
        left := left - quota;
      }
      i := i + 1;
    }
    FreeEnd(overrides);
    PinEnd(available, overrides, quotas);
    budget := Max(0, left);
  }

  /** The first `i` types have their pinned quotas, and the rest nothing yet. */
  ghost predicate PinnedUpTo(available: Counts, overrides: Overrides, quotas: Counts, i: int)
    requires Complete(quotas)
  {
    forall t: ItemType ::
      quotas[t] == if Place(t) < i && !Free(overrides, t) then Pinned(available, overrides, t) else 0
  }

  lemma PinNothing(available: Counts, overrides: Overrides, quotas: Counts)
    requires Complete(quotas) && forall t: ItemType :: quotas[t] == 0
    ensures PinnedUpTo(available, overrides, quotas, 0)
  {
    hide Pinned, Free;
  }

  lemma PinStep(available: Counts, overrides: Overrides, quotas: Counts, i: nat)
    requires i < 4 && Complete(quotas) && PinnedUpTo(available, overrides, quotas, i)
    ensures var t := ITEM_TYPES[i];
      var after := if Free(overrides, t) then quotas else quotas[t := Pinned(available, overrides, t)];
      Complete(after) && quotas[t] == 0 && PinnedUpTo(available, overrides, after, i + 1)
  {
    hide Pinned, Free;
    EveryTypeHasAPlace();
  }

  lemma PinEnd(available: Counts, overrides: Overrides, quotas: Counts)
    requires Complete(quotas) && PinnedUpTo(available, overrides, quotas, 4)
    ensures forall t: ItemType ::
      quotas[t] == if Free(overrides, t) then 0 else Pinned(available, overrides, t)
  {
    hide Pinned, Free;
    EveryTypeHasAPlace();
  }

  lemma AddToPinned(overrides: Overrides, quotas: Counts, t: ItemType, n: int)
    requires Complete(quotas) && !Free(overrides, t)
    ensures Complete(quotas[t := n])
    ensures PinnedTotal(overrides, quotas[t := n]) == PinnedTotal(overrides, quotas) - quotas[t] + n
  {
  }

  lemma ZeroQuotas(overrides: Overrides, quotas: Counts)
    requires quotas == map[Movie := 0, Series := 0, Book := 0, Game := 0]
    ensures Complete(quotas) && forall t: ItemType :: quotas[t] == 0
    ensures PinnedTotal(overrides, quotas) == 0
  {
    forall t: ItemType
      ensures t in quotas && quotas[t] == 0
    {
      match t
      case Movie =>
      case Series =>
      case Book =>
      case Game =>
    }
  }

  lemma FreeStep(overrides: Overrides, i: nat)
    requires i < |ITEM_TYPES|
    ensures FreeTypes(overrides, ITEM_TYPES[i..])
         == (if Free(overrides, ITEM_TYPES[i]) then [ITEM_TYPES[i]] else []) + FreeTypes(overrides, ITEM_TYPES[i + 1..])
  {
    hide Free;
    assert ITEM_TYPES[i..][1..] == ITEM_TYPES[i + 1..];
  }

  lemma FreeEnd(overrides: Overrides)
    ensures FreeTypes(overrides, ITEM_TYPES[4..]) == []
  {
    assert ITEM_TYPES[4..] == [];
  }

  lemma AddToFree(overrides: Overrides, quotas: Counts, t: ItemType, n: int)
    requires Complete(quotas) && Free(overrides, t)
    ensures Complete(quotas[t := n])
    ensures FreeTotal(overrides, quotas[t := n]) == FreeTotal(overrides, quotas) - quotas[t] + n
  {
  }

  lemma OpenStep(available: Counts, ts: seq<ItemType>, i: nat, level: int)
    requires i < |ts|
    ensures OpenOf(available, ts[..i + 1], level)
         == OpenOf(available, ts[..i], level) + (if Stock(available, ts[i]) > level then [ts[i]] else [])
  {
    hide Stock;
    assert ts[..i + 1] == ts[..i] + [ts[i]];
    OpenConcat(available, ts[..i], [ts[i]], level);
    assert [ts[i]][1..] == [];
    assert [ts[i]] + [] == [ts[i]];
  }

  /** The quotas with every type of `ts` raised to the target or to all it has. */
  function Raised(available: Counts, quotas: Counts, ts: seq<ItemType>, target: int): Counts {
    if ts == [] then quotas
    else
      var last := |ts| - 1;
      Raised(available, quotas, ts[..last], target)[ts[last] := Min(Room(available, ts[last]), target)]
  }

  lemma {:induction false} RaisedIs(available: Counts, quotas: Counts, ts: seq<ItemType>, target: int)
    requires Complete(quotas)
    ensures var r := Raised(available, quotas, ts, target);
      Complete(r) && forall t: ItemType :: r[t] == if t in ts then Min(Room(available, t), target) else quotas[t]
  {
    hide Room, Min;
    if ts != [] {
      var last := |ts| - 1;
      RaisedIs(available, quotas, ts[..last], target);
      assert ts == ts[..last] + [ts[last]];
    }
  }

  lemma RaisedStep(available: Counts, quotas: Counts, ts: seq<ItemType>, i: nat, target: int)
    requires i < |ts| && Distinct(ts) && Complete(quotas)
    ensures var r := Raised(available, quotas, ts[..i], target);
      && Complete(r) && r[ts[i]] == quotas[ts[i]]
      && Raised(available, quotas, ts[..i + 1], target) == r[ts[i] := Min(Room(available, ts[i]), target)]
  {
    hide Room, Min;
    RaisedIs(available, quotas, ts[..i], target);
    TakenBefore(ts, i);
    assert ts[..i + 1][..i] == ts[..i];
  }

  /** One round: every type of the pool takes the share or what it has left, and leaves when full. */
  method Round(available: Counts, overrides: Overrides, before: Counts, budgetBefore: nat, poolBefore: seq<ItemType>,
               share: nat, ghost level: nat)
    returns (quotas: Counts, budget: nat, pool: seq<ItemType>, progressed: bool)
    requires Complete(before) && Distinct(poolBefore) && share > 0 && share * |poolBefore| <= budgetBefore
    requires forall t | t in poolBefore ::
      Free(overrides, t) && before[t] == level && (level == 0 || Stock(available, t) > level)
    ensures quotas == Raised(available, before, poolBefore, level + share) && Complete(quotas)
    ensures pool == OpenOf(available, poolBefore, level + share)
    ensures budget + FreeTotal(overrides, quotas) == budgetBefore + FreeTotal(overrides, before)
    ensures progressed <==> budget < budgetBefore
    ensures !progressed ==> budget == budgetBefore && pool == []
  {
    hide Free, FreeTotal, OpenOf, Stock, Room, RemoveFirst, Distinct, Min, Max, Raised;
    quotas, pool, progressed := before, poolBefore, false;
    var left: int := budgetBefore;
    ghost var most := 0;
    var i := 0;
    NothingYet(available, before, level + share, poolBefore);
    while i < |poolBefore|
      invariant 0 <= i <= |poolBefore|
      invariant Complete(quotas)
      invariant quotas == Raised(available, before, poolBefore[..i], level + share)
      invariant pool == OpenOf(available, poolBefore[..i], level + share) + poolBefore[i..]
      invariant left + FreeTotal(overrides, quotas) == budgetBefore + FreeTotal(overrides, before)
      invariant budgetBefore - most <= left <= budgetBefore && most == share * i
      invariant progressed <==> left < budgetBefore
      invariant !progressed ==> forall j | 0 <= j < i :: Stock(available, poolBefore[j]) <= level
    {
      var itemType := poolBefore[i];
      RoundStep(available, overrides, before, poolBefore, i, share, level);
      var room := Stock(available, itemType) - quotas[itemType];
      var take := Min(share, Max(0, room));
      if take != 0 {
        left := left - take;
        progressed := true;
      }
      quotas := quotas[itemType := quotas[itemType] + take];
      if quotas[itemType] >= Stock(available, itemType) {
        pool := RemoveFirst(pool, itemType);
      }
      MulStep(share, i);
      most := most + share;
      i := i + 1;
    }
    assert poolBefore[..i] == poolBefore && poolBefore[i..] == [];
    assert OpenOf(available, poolBefore, level + share) + [] == OpenOf(available, poolBefore, level + share);
    budget := left;
    if !progressed {
      NoneOpen(available, poolBefore, level, share);
    }
  }

  /** What the round does to one type of the pool. */
  lemma RoundStep(available: Counts, overrides: Overrides, before: Counts, ts: seq<ItemType>, i: nat, share: nat,
                  level: nat)
    requires Complete(before) && Distinct(ts) && i < |ts| && share > 0
    requires forall t | t in ts ::
      Free(overrides, t) && before[t] == level && (level == 0 || Stock(available, t) > level)
    ensures var t, quotas := ts[i], Raised(available, before, ts[..i], level + share);
      var take := Min(share, Max(0, Stock(available, t) - level));
      var pool := OpenOf(available, ts[..i], level + share) + ts[i..];
      && Complete(quotas) && quotas[t] == level && 0 <= take <= share
      && (take == 0 <==> Stock(available, t) <= level)
      && Raised(available, before, ts[..i + 1], level + share) == quotas[t := level + take]
      && Complete(quotas[t := level + take])
      && FreeTotal(overrides, quotas[t := level + take]) == FreeTotal(overrides, quotas) + take
      && OpenOf(available, ts[..i + 1], level + share) + ts[i + 1..] ==
        (if level + take >= Stock(available, t) then RemoveFirst(pool, t) else pool)
  {
    hide Free, FreeTotal, OpenOf, Stock, Room, RemoveFirst, Distinct, Min, Max, Raised;
    TakenBefore(ts, i);
    RaisedStep(available, before, ts, i, level + share);
    PoolStep(available, ts, i, level + share);
    Takes(available, ts[i], level, share);
    var quotas := Raised(available, before, ts[..i], level + share);
    AddToFree(overrides, quotas, ts[i], level + Min(share, Max(0, Stock(available, ts[i]) - level)));
  }

  lemma NothingYet(available: Counts, quotas: Counts, target: int, ts: seq<ItemType>)
    ensures Raised(available, quotas, ts[..0], target) == quotas
    ensures OpenOf(available, ts[..0], target) + ts[0..] == ts
  {
  }

  lemma MulStep(share: nat, i: nat)
    ensures share * (i + 1) == share * i + share
  {
  }

  lemma TakenBefore(ts: seq<ItemType>, i: nat)
    requires Distinct(ts) && i < |ts|
    ensures ts[i] !in ts[..i] && ts[i] in ts
  {
  }

  /** What a type takes in a round, and when it is full afterwards. */
  lemma Takes(available: Counts, t: ItemType, level: nat, share: nat)
    requires level == 0 || Stock(available, t) > level
    ensures var take := Min(share, Max(0, Stock(available, t) - level));
      && level + take == Min(Room(available, t), level + share)
      && 0 <= take <= share
      && (share > 0 ==> (take == 0 <==> Stock(available, t) <= level))
      && (level + take >= Stock(available, t) <==> Stock(available, t) <= level + share)
  {
  }

  lemma PoolStep(available: Counts, ts: seq<ItemType>, i: nat, level: int)
    requires i < |ts| && Distinct(ts)
    ensures var pool := OpenOf(available, ts[..i], level) + ts[i..];
      OpenOf(available, ts[..i + 1], level) + ts[i + 1..] ==
      if Stock(available, ts[i]) > level then pool else RemoveFirst(pool, ts[i])
  {
    hide Stock, RemoveFirst, OpenOf, Distinct;
    TakenBefore(ts, i);
    OpenStep(available, ts, i, level);
    OpenMembers(available, ts[..i], level);
    var open, rest := OpenOf(available, ts[..i], level), ts[i + 1..];
    assert ts[i..] == [ts[i]] + rest;
    AroundOne(open, ts[i], rest);
  }

  lemma AroundOne(open: seq<ItemType>, t: ItemType, rest: seq<ItemType>)
    requires t !in open
    ensures open + ([t] + rest) == open + [t] + rest
    ensures open + [] + rest == open + rest
    ensures RemoveFirst(open + ([t] + rest), t) == open + rest
  {
    hide RemoveFirst;
    RemoveAround(open, t, rest);
    assert open + ([t] + rest) == open + [t] + rest;
  }

  lemma {:induction false} NoneOpen(available: Counts, ts: seq<ItemType>, level: int, share: nat)
    requires forall t | t in ts :: Stock(available, t) <= level
    ensures OpenOf(available, ts, level + share) == []
  {
    if ts != [] {
      assert ts == [ts[0]] + ts[1..];
      NoneOpen(available, ts[1..], level, share);
    }
  }

  // ---- the remainder

  /** The quotas with one unit more for every type of `ts`. */
  function Bumped(quotas: Counts, ts: seq<ItemType>): Counts
    requires Complete(quotas)
    ensures Complete(Bumped(quotas, ts))
  {
    if ts == [] then quotas
    else
      var last := |ts| - 1;
      var r := Bumped(quotas, ts[..last]);
      r[ts[last] := r[ts[last]] + 1]
  }

  lemma {:induction false} BumpedIs(overrides: Overrides, quotas: Counts, ts: seq<ItemType>)
    requires Complete(quotas) && Distinct(ts) && forall t | t in ts :: Free(overrides, t)
    ensures var r := Bumped(quotas, ts);
      && (forall t: ItemType :: r[t] == quotas[t] + if t in ts then 1 else 0)
      && FreeTotal(overrides, r) == FreeTotal(overrides, quotas) + |ts|
  {
    hide FreeTotal, Free;
    if ts != [] {
      var last := |ts| - 1;
      BumpedIs(overrides, quotas, ts[..last]);
      assert ts == ts[..last] + [ts[last]];
      TakenBefore(ts, last);
      var r := Bumped(quotas, ts[..last]);
      AddToFree(overrides, r, ts[last], r[ts[last]] + 1);
    }
  }

  /** Fewer units than types: one each, in order, to those that still have room. */
  method Remainder(available: Counts, overrides: Overrides, before: Counts, budgetBefore: nat, pool: seq<ItemType>,
                   ghost level: nat)
    returns (quotas: Counts, ghost extra: nat)
    requires Complete(before) && Distinct(pool) && forall t | t in pool :: Free(overrides, t) && before[t] == level
    ensures extra == Min(budgetBefore, |OpenOf(available, pool, level)|)
    ensures quotas == Bumped(before, OpenOf(available, pool, level)[..extra])
  {
    hide Free, OpenOf, Stock, Bumped, Distinct;
    quotas := before;
    var budget := budgetBefore;
    extra := 0;
    ghost var open := OpenOf(available, pool, level);
    BumpedNone(before, open);
    OpenOfNone(available, pool, level);
    var i := 0;
    while i < |pool|
      invariant 0 <= i <= |pool|
      invariant budget == budgetBefore - extra >= 0
      invariant extra == Min(budgetBefore, |OpenOf(available, pool[..i], level)|)
      invariant extra <= |open| && quotas == Bumped(before, open[..extra])
    {
      OpenGrows(available, pool, i, level);
      OpenStep(available, pool, i, level);
      if budget <= 0 {
        OpenGrows(available, pool, |pool|, level);
        return;
      }
      var itemType := pool[i];
      BumpStep(available, overrides, before, pool, i, level);
      if quotas[itemType] < Stock(available, itemType) {
        quotas := quotas[itemType := quotas[itemType] + 1];
        budget := budget - 1;
        extra := extra + 1;
      }
      i := i + 1;
    }
    assert pool[..i] == pool;
  }

  lemma BumpedNone(quotas: Counts, ts: seq<ItemType>)
    requires Complete(quotas)
    ensures Bumped(quotas, ts[..0]) == quotas
  {
  }

  lemma OpenOfNone(available: Counts, ts: seq<ItemType>, level: int)
    ensures OpenOf(available, ts[..0], level) == []
  {
  }

  lemma OpenGrows(available: Counts, ts: seq<ItemType>, i: nat, level: int)
    requires i <= |ts|
    ensures OpenOf(available, ts[..i], level) <= OpenOf(available, ts, level)
    ensures i < |ts| ==> OpenOf(available, ts[..i + 1], level) <= OpenOf(available, ts, level)
  {
    hide OpenOf;
    assert ts == ts[..i] + ts[i..];
    OpenConcat(available, ts[..i], ts[i..], level);
    if i < |ts| {
      assert ts == ts[..i + 1] + ts[i + 1..];
      OpenConcat(available, ts[..i + 1], ts[i + 1..], level);
    }
  }

  /** Bumping one more type of the pool that is above the level. */
  lemma BumpStep(available: Counts, overrides: Overrides, quotas: Counts, ts: seq<ItemType>, i: nat, level: int)
    requires i < |ts| && Distinct(ts) && Complete(quotas) && forall t | t in ts :: Free(overrides, t)
    ensures var open, n := OpenOf(available, ts, level), |OpenOf(available, ts[..i], level)|;
      && n <= |open|
      && Bumped(quotas, open[..n])[ts[i]] == quotas[ts[i]]
      && (Stock(available, ts[i]) > level ==>
            n < |open| && open[n] == ts[i]
            && Bumped(quotas, open[..n + 1]) == Bumped(quotas, open[..n])[ts[i] := quotas[ts[i]] + 1])
  {
    hide *;
    OpenAt(available, ts, i, level);
    var open, n := OpenOf(available, ts, level), |OpenOf(available, ts[..i], level)|;
    BumpedHead(available, overrides, quotas, ts, i, level, open[..n]);
    if Stock(available, ts[i]) > level {
      BumpedLast(quotas, open, n);
    }
  }

  lemma BumpedHead(available: Counts, overrides: Overrides, quotas: Counts, ts: seq<ItemType>, i: nat, level: int,
                   head: seq<ItemType>)
    requires i < |ts| && Distinct(ts) && Complete(quotas) && forall t | t in ts :: Free(overrides, t)
    requires head == OpenOf(available, ts[..i], level)
    ensures Bumped(quotas, head)[ts[i]] == quotas[ts[i]]
  {
    hide Stock, Free, Bumped, FreeTotal, OpenOf, Distinct;
    DistinctPrefix(ts, i);
    OpenMembers(available, ts[..i], level);
    BumpedIs(overrides, quotas, head);
  }

  /** Where the next open type stands among all the open ones. */
  lemma OpenAt(available: Counts, ts: seq<ItemType>, i: nat, level: int)
    requires i < |ts|
    ensures var open, before := OpenOf(available, ts, level), OpenOf(available, ts[..i], level);
      && before <= open && open[..|before|] == before
      && (Stock(available, ts[i]) > level ==> |before| < |open| && open[|before|] == ts[i])
  {
    hide OpenOf, Stock;
    OpenGrows(available, ts, i, level);
    OpenStep(available, ts, i, level);
  }

  lemma BumpedLast(quotas: Counts, ts: seq<ItemType>, n: nat)
    requires Complete(quotas) && n < |ts|
    ensures var r := Bumped(quotas, ts[..n]);
      Bumped(quotas, ts[..n + 1]) == r[ts[n] := r[ts[n]] + 1]
  {
    assert ts[..n + 1][..n] == ts[..n];
  }

  // ---- the whole allocation

  /** What is left for the pool once the overrides are set. */
  function PoolBudget(cap: int, overrides: Overrides, quotas: Counts): nat
    requires Complete(quotas)
  {
    Max(0, Max(0, cap) - PinnedTotal(overrides, quotas))
  }

  /** What the pool spends of `budget`: all of it up to its stock, except that fewer units than types
      are handed out at most one per type. */
  function Spent(available: Counts, overrides: Overrides, budget: nat): int {
    var free := FreeTypes(overrides, ITEM_TYPES);
    if budget < |free| then Min(budget, |OpenOf(available, free, 0)|)
    else Min(budget, FreeTotal(overrides, Rooms(available)))
  }

  /** The quotas with everything below `level` filled. */
  ghost predicate AtLevel(available: Counts, overrides: Overrides, quotas: Counts, level: nat) {
    && Complete(quotas)
    && forall t: ItemType ::
         quotas[t] == if Free(overrides, t) then Min(Room(available, t), level) else Pinned(available, overrides, t)
  }

  /** The state between two rounds. `started` says that a full round has been made. */
  ghost predicate Pouring(available: Counts, overrides: Overrides, quotas: Counts, pool: seq<ItemType>,
                          level: nat, budget: int, first: nat, started: bool) {
    var free := FreeTypes(overrides, ITEM_TYPES);
    && AtLevel(available, overrides, quotas, level)
    && Distinct(pool) && (forall t | t in pool :: Free(overrides, t))
    && OpenOf(available, pool, level) == OpenOf(available, free, level)
    && budget + FreeTotal(overrides, quotas) == first
    && (if started then |free| <= first && forall t | t in pool :: Stock(available, t) > level
        else level == 0 && pool == free && budget == first)
  }

  lemma PouringStarts(available: Counts, overrides: Overrides, quotas: Counts, budget: nat)
    requires Complete(quotas)
    requires forall t: ItemType :: quotas[t] == if Free(overrides, t) then 0 else Pinned(available, overrides, t)
    ensures Pouring(available, overrides, quotas, FreeTypes(overrides, ITEM_TYPES), 0, budget, budget, false)
  {
    hide Pinned, FreeTypes, OpenOf;
    FreeTypesAre(overrides);
  }

  /** In the pool, everybody holds exactly the level. */
  lemma PoolHoldsLevel(available: Counts, overrides: Overrides, quotas: Counts, pool: seq<ItemType>,
                       level: nat, budget: int, first: nat, started: bool)
    requires Pouring(available, overrides, quotas, pool, level, budget, first, started)
    ensures Complete(quotas) && Distinct(pool)
    ensures forall t | t in pool ::
      Free(overrides, t) && quotas[t] == level && (level == 0 || Stock(available, t) > level)
  {
    hide Pinned, FreeTypes, OpenOf, FreeTotal;
  }

  lemma RoundPours(available: Counts, overrides: Overrides, quotas: Counts, pool: seq<ItemType>,
                   level: nat, budget: nat, first: nat, started: bool, share: nat, left: int)
    requires Pouring(available, overrides, quotas, pool, level, budget, first, started)
    requires |pool| <= budget
    requires var after := Raised(available, quotas, pool, level + share);
      Complete(after) && left + FreeTotal(overrides, after) == budget + FreeTotal(overrides, quotas)
    ensures Pouring(available, overrides, Raised(available, quotas, pool, level + share),
                    OpenOf(available, pool, level + share), level + share, left, first, true)
  {
    hide Pinned, FreeTypes, FreeTotal, OpenOf, Raised, Stock, Distinct;
    var free := FreeTypes(overrides, ITEM_TYPES);
    FreeTypesAre(overrides);
    RaisedIs(available, quotas, pool, level + share);
    OpenMembers(available, pool, level + share);
    OpenMembers(available, pool, level);
    OpenMembers(available, free, level);
    OpenTwice(available, pool, level, level + share);
    OpenTwice(available, free, level, level + share);
    OpenTwice(available, pool, level + share, level + share);
    var after := Raised(available, quotas, pool, level + share);
    forall t: ItemType | Free(overrides, t) && t !in pool
      ensures after[t] == Min(Room(available, t), level + share)
    {
      ClosedIsFull(available, overrides, quotas, pool, level, t);
    }
  }

  lemma ClosedIsFull(available: Counts, overrides: Overrides, quotas: Counts, pool: seq<ItemType>, level: nat,
                     t: ItemType)
    requires OpenOf(available, pool, level) == OpenOf(available, FreeTypes(overrides, ITEM_TYPES), level)
    requires Free(overrides, t) && t !in pool
    ensures Stock(available, t) <= Room(available, t) <= level
  {
    hide OpenOf, FreeTypes;
    FreeTypesAre(overrides);
    OpenMembers(available, pool, level);
    OpenMembers(available, FreeTypes(overrides, ITEM_TYPES), level);
    var free := FreeTypes(overrides, ITEM_TYPES);
    assert t in free;
    assert t !in OpenOf(available, pool, level);
    assert t !in OpenOf(available, free, level);
    assert Stock(available, t) <= level;
  }

  method AllocateQuotas(cap: int, available: Counts, overrides: Overrides)
    returns (quotas: Counts, ghost level: nat, ghost extra: nat)
    ensures LevelForm(available, overrides, quotas, level, extra)
    ensures FreeTotal(overrides, quotas) == Spent(available, overrides, PoolBudget(cap, overrides, quotas))
  {
    hide Pouring, Raised, Bumped, OpenOf, FreeTypes, FreeTotal, PinnedTotal, Spent, LevelForm, Pinned;
    var budget: int, pool;
    quotas, budget, pool := PinOverrides(cap, available, overrides);
    ghost var first: nat, pinned := budget, quotas;
    PouringStarts(available, overrides, quotas, budget);
    level, extra := 0, 0;
    ghost var started := false;
    while budget > 0 && pool != []
      invariant 0 <= budget
      invariant Pouring(available, overrides, quotas, pool, level, budget, first, started)
      decreases budget
    {
      PoolHoldsLevel(available, overrides, quotas, pool, level, budget, first, started);
      ShareFits(budget, |pool|);
      var share := budget / |pool|;
      if share == 0 {
        ghost var flat := quotas;
        quotas, extra := Remainder(available, overrides, quotas, budget, pool, level);
        RemainderSettles(available, overrides, flat, pool, level, budget, first, started);
        SamePinned(available, overrides, pinned, quotas, level, extra);
        return;
      }
      ghost var before := quotas;
      ghost var poolBefore, budgetBefore := pool, budget;
      var progressed;
      quotas, budget, pool, progressed := Round(available, overrides, quotas, budget, pool, share, level);
      RoundPours(available, overrides, before, poolBefore, level, budgetBefore, first, started, share, budget);
      level, started := level + share, true;
      if !progressed {
        break;
      }
    }
    DrySettles(available, overrides, quotas, pool, level, budget, first, started);
    SamePinned(available, overrides, pinned, quotas, level, extra);
  }

  /** The overridden quotas, and with them the pool's budget, never change after they are set. */
  lemma SamePinned(available: Counts, overrides: Overrides, pinned: Counts, quotas: Counts, level: nat, extra: nat)
    requires Complete(pinned) && LevelForm(available, overrides, quotas, level, extra)
    requires forall t: ItemType :: pinned[t] == if Free(overrides, t) then 0 else Pinned(available, overrides, t)
    ensures Complete(quotas) && PinnedTotal(overrides, quotas) == PinnedTotal(overrides, pinned)
  {
    hide Pinned, FreeTypes, OpenOf, FreeTotal;
  }

  /** The pouring ends with nothing left to give or nobody to give it to. */
  lemma DrySettles(available: Counts, overrides: Overrides, quotas: Counts, pool: seq<ItemType>,
                   level: nat, budget: nat, first: nat, started: bool)
    requires Pouring(available, overrides, quotas, pool, level, budget, first, started)
    requires budget == 0 || pool == []
    ensures LevelForm(available, overrides, quotas, level, 0)
    ensures FreeTotal(overrides, quotas) == Spent(available, overrides, first)
  {
    hide Pinned, FreeTypes, OpenOf, Stock;
    var free := FreeTypes(overrides, ITEM_TYPES);
    RoomsBound(available, overrides, quotas, level);
    OpenMembers(available, free, level);
    OpenMembers(available, free, 0);
    assert OpenOf(available, free, level)[..0] == [];
    if pool == [] {
      OpenMembers(available, pool, level);
      forall t: ItemType | Free(overrides, t)
        ensures quotas[t] == Room(available, t)
      {
        ClosedIsFull(available, overrides, quotas, pool, level, t);
      }
      RoomsReached(available, overrides, quotas);
    }
  }

  lemma RoomsBound(available: Counts, overrides: Overrides, quotas: Counts, level: nat)
    requires AtLevel(available, overrides, quotas, level)
    ensures 0 <= FreeTotal(overrides, quotas) <= FreeTotal(overrides, Rooms(available))
  {
    hide Pinned, Room;
  }

  lemma RoomsReached(available: Counts, overrides: Overrides, quotas: Counts)
    requires Complete(quotas) && forall t: ItemType | Free(overrides, t) :: quotas[t] == Room(available, t)
    ensures FreeTotal(overrides, quotas) == FreeTotal(overrides, Rooms(available))
  {
    hide Room;
  }

  /** The remainder ends the pouring. */
  lemma RemainderSettles(available: Counts, overrides: Overrides, flat: Counts, pool: seq<ItemType>,
                         level: nat, budget: nat, first: nat, started: bool)
    requires Pouring(available, overrides, flat, pool, level, budget, first, started)
    requires budget < |pool|
    ensures var open := OpenOf(available, pool, level);
      var extra := Min(budget, |open|);
      && LevelForm(available, overrides, Bumped(flat, open[..extra]), level, extra)
      && FreeTotal(overrides, Bumped(flat, open[..extra])) == Spent(available, overrides, first)
  {
    hide Pinned, FreeTypes, OpenOf, Stock, Bumped, FreeTotal, Distinct, Room;
    var open := OpenOf(available, pool, level);
    var extra := Min(budget, |open|);
    OpenMembers(available, pool, level);
    DistinctPrefix(open, extra);
    assert forall t | t in open[..extra] :: t in open;
    BumpedIs(overrides, flat, open[..extra]);
    if started {
      RoomsBoundAfter(available, overrides, flat, pool, level, budget);
    } else {
      NothingGiven(available, overrides, flat);
    }
  }

  lemma NothingGiven(available: Counts, overrides: Overrides, quotas: Counts)
    requires AtLevel(available, overrides, quotas, 0)
    ensures FreeTotal(overrides, quotas) == 0
  {
    hide Pinned, Room;
  }

  /** When more types are open than units are left, there is stock for all the units. */
  lemma RoomsBoundAfter(available: Counts, overrides: Overrides, flat: Counts, pool: seq<ItemType>, level: nat,
                        budget: nat)
    requires AtLevel(available, overrides, flat, level) && Distinct(pool) && budget <= |pool|
    requires forall t | t in pool :: Free(overrides, t) && Stock(available, t) > level
    ensures FreeTotal(overrides, flat) + budget <= FreeTotal(overrides, Rooms(available))
  {
    hide FreeTotal, Pinned, Bumped;
    BumpedIs(overrides, flat, pool);
    var r := Bumped(flat, pool);
    TotalsCompare(overrides, r, Rooms(available));
  }

  lemma TotalsCompare(overrides: Overrides, a: Counts, b: Counts)
    requires Complete(a) && Complete(b)
    requires forall t: ItemType | Free(overrides, t) :: a[t] <= b[t]
    ensures FreeTotal(overrides, a) <= FreeTotal(overrides, b)
  {
    hide Free;
  }

  // ---- what the allocation guarantees

  /** In level form, nobody gets more than it has. */
  lemma WithinStock(available: Counts, overrides: Overrides, quotas: Counts, level: nat, extra: nat, t: ItemType)
    requires LevelForm(available, overrides, quotas, level, extra)
    ensures 0 <= quotas[t] <= Room(available, t)
    ensures Free(overrides, t) ==> quotas[t] <= level + 1 && (quotas[t] < Room(available, t) ==> quotas[t] >= level)
  {
    hide OpenOf, FreeTypes;
    var open := OpenOf(available, FreeTypes(overrides, ITEM_TYPES), level);
    OpenMembers(available, FreeTypes(overrides, ITEM_TYPES), level);
    assert t in open[..extra] ==> t in open;
  }

  /** The pool never spends more than its budget. */
  lemma SpentWithinBudget(available: Counts, overrides: Overrides, budget: nat)
    ensures 0 <= Spent(available, overrides, budget) <= budget
  {
    hide FreeTypes, OpenOf;
  }

  /** The pool's budget is fully spent, up to its stock, exactly unless it is smaller than the pool,
      fewer types have stock than there are units, and some type has more than one item. */
  lemma FullySpentExactly(available: Counts, overrides: Overrides, budget: nat)
    ensures var free := FreeTypes(overrides, ITEM_TYPES);
      var stocked := |OpenOf(available, free, 0)|;
      var stock := FreeTotal(overrides, Rooms(available));
      && stocked <= stock
      && (Spent(available, overrides, budget) == Min(budget, stock) <==>
            !(budget < |free| && stocked < budget && stocked < stock))
  {
    hide FreeTypes, OpenOf, FreeTotal, Bumped, Room;
    var free := FreeTypes(overrides, ITEM_TYPES);
    var open := OpenOf(available, free, 0);
    FreeTypesAre(overrides);
    OpenMembers(available, free, 0);
    var none: Counts := map t | t in ITEM_TYPES :: 0;
    EveryTypeHasAPlace();
    NothingAtAll(overrides, none);
    BumpedIs(overrides, none, open);
    HeldWithinRooms(available, overrides, Bumped(none, open), open);
  }

  lemma NothingAtAll(overrides: Overrides, none: Counts)
    requires Complete(none) && forall t: ItemType :: none[t] == 0
    ensures FreeTotal(overrides, none) == 0
  {
  }

  lemma HeldWithinRooms(available: Counts, overrides: Overrides, held: Counts, open: seq<ItemType>)
    requires Complete(held) && forall t: ItemType :: held[t] == if t in open then 1 else 0
    requires forall t | t in open :: Stock(available, t) > 0
    ensures FreeTotal(overrides, held) <= FreeTotal(overrides, Rooms(available))
  {
    hide FreeTotal;
    TotalsCompare(overrides, held, Rooms(available));
  }

  /** Main result, max-min fairness. When the pool's budget is fully spent, no other way to spend it
      gives a type more without giving less to some type that had at most one unit more than it. */
  lemma MaxMinFair(available: Counts, overrides: Overrides, quotas: Counts, level: nat, extra: nat,
                   other: Counts, t: ItemType)
    returns (u: ItemType)
    requires LevelForm(available, overrides, quotas, level, extra)
    requires Complete(other) && forall v: ItemType :: 0 <= other[v] <= Room(available, v)
    requires FreeTotal(overrides, other) <= FreeTotal(overrides, quotas)
    requires Free(overrides, t) && other[t] > quotas[t]
    ensures Free(overrides, u) && other[u] < quotas[u] <= quotas[t] + 1
  {
    hide FreeTotal, OpenOf, FreeTypes, Room;
    if v: ItemType :| Free(overrides, v) && other[v] < quotas[v] {
      u := v;
    } else {
      TotalsCompareStrictly(overrides, quotas, other, t);
      assert false;
    }
    WithinStock(available, overrides, quotas, level, extra, t);
    WithinStock(available, overrides, quotas, level, extra, u);
  }

  lemma TotalsCompareStrictly(overrides: Overrides, a: Counts, b: Counts, t: ItemType)
    requires Complete(a) && Complete(b) && Free(overrides, t) && a[t] < b[t]
    requires forall u: ItemType | Free(overrides, u) :: a[u] <= b[u]
    ensures FreeTotal(overrides, a) < FreeTotal(overrides, b)
  {
    hide Free;
  }

  /** Main result: what `AllocateQuotas` returns obeys the cap, the stock and the fairness rule at once. */
  lemma AllocationIsFair(cap: int, available: Counts, overrides: Overrides, quotas: Counts, level: nat, extra: nat)
    requires LevelForm(available, overrides, quotas, level, extra)
    requires FreeTotal(overrides, quotas) == Spent(available, overrides, PoolBudget(cap, overrides, quotas))
    ensures forall t: ItemType :: 0 <= quotas[t] <= Room(available, t)
    ensures forall t: ItemType | !Free(overrides, t) :: quotas[t] == Pinned(available, overrides, t)
    ensures Total(quotas) <= Max(cap, PinnedTotal(overrides, quotas))
    ensures forall t: ItemType, u: ItemType
      | Free(overrides, t) && Free(overrides, u) && quotas[t] < Room(available, t) ::
      quotas[u] <= quotas[t] + 1
  {
    hide Spent, OpenOf, FreeTypes;
    forall t: ItemType
      ensures 0 <= quotas[t] <= Room(available, t)
      ensures Free(overrides, t) ==> quotas[t] <= level + 1 && (quotas[t] < Room(available, t) ==> quotas[t] >= level)
    {
      WithinStock(available, overrides, quotas, level, extra, t);
    }
    SpentWithinBudget(available, overrides, PoolBudget(cap, overrides, quotas));
    TotalSplits(overrides, quotas);
  }

  lemma TotalSplits(overrides: Overrides, quotas: Counts)
    requires Complete(quotas)
    ensures Total(quotas) == FreeTotal(overrides, quotas) + PinnedTotal(overrides, quotas)
    ensures (forall t: ItemType :: 0 <= quotas[t]) ==> PinnedTotal(overrides, quotas) >= 0
  {
    hide Free;
  }

  // ---- the answer, over the stock and the overrides alone

  predicate Overridden(overrides: Overrides, t: ItemType) {
    t in overrides && overrides[t] != None
  }

  function Has(available: Counts, t: ItemType): int {
    if t in available then available[t] else 0
  }

  /** What the overridden types hold together. */
  function TakenOffTheTop(overrides: Overrides, quotas: Counts): int
    requires Complete(quotas)
  {
    (if Overridden(overrides, Movie) then quotas[Movie] else 0) +
    (if Overridden(overrides, Series) then quotas[Series] else 0) +
    (if Overridden(overrides, Book) then quotas[Book] else 0) +
    (if Overridden(overrides, Game) then quotas[Game] else 0)
  }

  ghost predicate Ordered(ts: seq<ItemType>) {
    forall i, j | 0 <= i < j < |ts| :: Place(ts[i]) < Place(ts[j])
  }

  lemma OrderedCons(t: ItemType, ts: seq<ItemType>)
    requires Ordered(ts) && forall u | u in ts :: Place(t) < Place(u)
    ensures Ordered([t] + ts)
  {
    var all := [t] + ts;
    forall i, j | 0 <= i < j < |all|
      ensures Place(all[i]) < Place(all[j])
    {
      assert ts[j - 1] in ts;
    }
  }

  lemma OrderedTail(ts: seq<ItemType>)
    requires Ordered(ts) && ts != []
    ensures Ordered(ts[1..]) && forall u | u in ts[1..] :: Place(ts[0]) < Place(u)
  {
  }

  lemma {:induction false} FreeOrdered(overrides: Overrides, ts: seq<ItemType>)
    requires Ordered(ts)
    ensures Ordered(FreeTypes(overrides, ts)) && forall t | t in FreeTypes(overrides, ts) :: t in ts
  {
    hide Ordered, Place, Free;
    if ts != [] {
      OrderedTail(ts);
      FreeOrdered(overrides, ts[1..]);
      OrderedCons(ts[0], FreeTypes(overrides, ts[1..]));
      assert [] + FreeTypes(overrides, ts[1..]) == FreeTypes(overrides, ts[1..]);
    } else {
      assert Ordered([]) by { NothingOrdered(); }
    }
  }

  lemma {:induction false} OpenOrdered(available: Counts, ts: seq<ItemType>, level: int)
    requires Ordered(ts)
    ensures Ordered(OpenOf(available, ts, level)) && forall t | t in OpenOf(available, ts, level) :: t in ts
  {
    hide Ordered, Place, Stock;
    if ts != [] {
      OrderedTail(ts);
      OpenOrdered(available, ts[1..], level);
      OrderedCons(ts[0], OpenOf(available, ts[1..], level));
      assert [] + OpenOf(available, ts[1..], level) == OpenOf(available, ts[1..], level);
    } else {
      assert Ordered([]) by { NothingOrdered(); }
    }
  }

  lemma NothingOrdered()
    ensures Ordered([])
  {
  }

  /** In level form the spare units go to the types that come first in the fixed order. */
  lemma SpareInOrder(available: Counts, overrides: Overrides, quotas: Counts, level: nat, extra: nat,
                     t: ItemType, u: ItemType)
    requires LevelForm(available, overrides, quotas, level, extra)
    requires Free(overrides, t) && Free(overrides, u) && quotas[t] < Room(available, t) && quotas[u] > quotas[t]
    ensures quotas[u] == quotas[t] + 1 && Place(u) < Place(t)
  {
    hide OpenOf, FreeTypes, Place, Free, LevelForm, Ordered;
    var open := OpenOf(available, FreeTypes(overrides, ITEM_TYPES), level);
    LevelAt(available, overrides, quotas, level, extra, t);
    LevelAt(available, overrides, quotas, level, extra, u);
    OpenInOrder(available, overrides, level);
    FirstComeFirst(open, extra, t, u);
  }

  /** What level form says of one type. */
  lemma LevelAt(available: Counts, overrides: Overrides, quotas: Counts, level: nat, extra: nat, t: ItemType)
    requires LevelForm(available, overrides, quotas, level, extra) && Free(overrides, t)
    ensures var open := OpenOf(available, FreeTypes(overrides, ITEM_TYPES), level);
      && extra <= |open| && (t in open <==> Stock(available, t) > level)
      && quotas[t] == Min(Room(available, t), level) + if t in open[..extra] then 1 else 0
  {
    hide OpenOf, FreeTypes;
    FreeTypesAre(overrides);
    OpenMembers(available, FreeTypes(overrides, ITEM_TYPES), level);
  }

  lemma OpenInOrder(available: Counts, overrides: Overrides, level: int)
    ensures Ordered(OpenOf(available, FreeTypes(overrides, ITEM_TYPES), level))
  {
    hide OpenOf, FreeTypes;
    assert Ordered(ITEM_TYPES) by {
      EveryTypeHasAPlace();
    }
    FreeOrdered(overrides, ITEM_TYPES);
    OpenOrdered(available, FreeTypes(overrides, ITEM_TYPES), level);
  }

  lemma FirstComeFirst(open: seq<ItemType>, extra: nat, t: ItemType, u: ItemType)
    requires Ordered(open) && extra <= |open| && t in open && u in open[..extra] && t !in open[..extra]
    ensures Place(u) < Place(t)
  {
    hide Place;
    var i :| 0 <= i < |open| && open[i] == t;
    var j :| 0 <= j < extra && open[..extra][j] == u;
    forall k | 0 <= k < extra
      ensures open[k] != t
    {
      assert open[k] in open[..extra];
    }
  }

  /** Main result: an override is honoured up to what its type has; the other types are levelled, the spare
      units going to those that come first; a type that has items left over means that the cap is spent, unless
      fewer units are left than there are types to share them. */
  lemma AllocationAnswers(cap: int, available: Counts, overrides: Overrides, quotas: Counts, level: nat, extra: nat)
    requires LevelForm(available, overrides, quotas, level, extra)
    requires FreeTotal(overrides, quotas) == Spent(available, overrides, PoolBudget(cap, overrides, quotas))
    ensures forall t: ItemType | Overridden(overrides, t) ::
      var asked, has := overrides[t].value, Has(available, t);
      quotas[t] == if asked <= 0 || has <= 0 then 0 else if asked <= has then asked else has
    ensures forall t: ItemType | !Overridden(overrides, t) ::
      0 <= quotas[t] && (quotas[t] <= Has(available, t) || quotas[t] == 0)
    ensures forall t: ItemType, u: ItemType
      | !Overridden(overrides, t) && !Overridden(overrides, u)
        && quotas[t] < Has(available, t) && quotas[u] > quotas[t] ::
      quotas[u] == quotas[t] + 1 && Place(u) < Place(t)
    ensures var held := TakenOffTheTop(overrides, quotas);
      && Total(quotas) <= Max(cap, held)
      && (cap - held >= 4 ==>
            Total(quotas) == cap || forall t: ItemType | !Overridden(overrides, t) :: quotas[t] >= Has(available, t))
  {
    hide Spent, OpenOf, FreeTypes, Place, PinnedTotal, FreeTotal;
    AllocationIsFair(cap, available, overrides, quotas, level, extra);
    forall t: ItemType, u: ItemType
      | !Overridden(overrides, t) && !Overridden(overrides, u)
        && quotas[t] < Has(available, t) && quotas[u] > quotas[t]
      ensures quotas[u] == quotas[t] + 1 && Place(u) < Place(t)
    {
      SpareInOrder(available, overrides, quotas, level, extra, t, u);
    }
    SamePinnedTotal(overrides, quotas);
    TotalSplits(overrides, quotas);
    var held := TakenOffTheTop(overrides, quotas);
    if cap - held >= 4 && Total(quotas) != cap {
      forall t: ItemType | !Overridden(overrides, t)
        ensures quotas[t] >= Has(available, t)
      {
        if quotas[t] < Has(available, t) {
          LeftOverMeansSpent(cap, available, overrides, quotas, level, extra, t);
        }
      }
    }
  }

  lemma SamePinnedTotal(overrides: Overrides, quotas: Counts)
    requires Complete(quotas)
    ensures TakenOffTheTop(overrides, quotas) == PinnedTotal(overrides, quotas)
  {
  }

  lemma LeftOverMeansSpent(cap: int, available: Counts, overrides: Overrides, quotas: Counts, level: nat, extra: nat,
                           t: ItemType)
    requires LevelForm(available, overrides, quotas, level, extra)
    requires FreeTotal(overrides, quotas) == Spent(available, overrides, PoolBudget(cap, overrides, quotas))
    requires Free(overrides, t) && quotas[t] < Stock(available, t) && cap - PinnedTotal(overrides, quotas) >= 4
    requires 0 <= PinnedTotal(overrides, quotas)
    ensures FreeTotal(overrides, quotas) == cap - PinnedTotal(overrides, quotas)
  {
    hide OpenOf, FreeTypes, FreeTotal, PinnedTotal, Pinned, LevelForm;
    assert Complete(quotas) by {
      CompleteIn(available, overrides, quotas, level, extra);
    }
    forall u: ItemType
      ensures quotas[u] <= Room(available, u)
    {
      WithinStock(available, overrides, quotas, level, extra, u);
    }
    AtMostFourFree(overrides, ITEM_TYPES);
    TotalsCompareStrictly(overrides, quotas, Rooms(available), t);
  }

  lemma CompleteIn(available: Counts, overrides: Overrides, quotas: Counts, level: nat, extra: nat)
    requires LevelForm(available, overrides, quotas, level, extra)
    ensures Complete(quotas)
  {
    hide OpenOf, FreeTypes, Pinned;
  }

  lemma {:induction false} AtMostFourFree(overrides: Overrides, ts: seq<ItemType>)
    ensures |FreeTypes(overrides, ts)| <= |ts|
  {
    if ts != [] {
      AtMostFourFree(overrides, ts[1..]);
    }
  }
}
