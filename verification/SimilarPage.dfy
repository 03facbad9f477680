/** `/similar` end to end: the pool of neighbours, their catalog rows, and the ranked page. The pool is one
    read of the vector index, or two that are merged when slots are reserved for other types; neighbours
    without a catalog row are dropped, and what the ranker promises about candidates is carried over to the
    page that is served. */
module SimilarPage {
  import opened Common
  import opened SimilarRanking
  import opened CrossTypeQuota

  type ItemKey = (ItemType, int)

  datatype Neighbour = Neighbour(item: ItemKey, score: real)

  /** The vector index asked for the neighbours of one item: at most `limit` of the given types. */
  type Index = (int, set<ItemType>) -> seq<Neighbour>

  const ALL_TYPES: set<ItemType> := {Movie, Series, Book, Game}

  /** What the index promises: no neighbour twice, only the types asked for. */
  ghost predicate Faithful(index: Index) {
    forall limit, types ::
      && Distinct(Items(index(limit, types)))
      && forall n | n in index(limit, types) :: n.item.0 in types
  }

  lemma FaithfulIndexExists()
    ensures exists index: Index :: Faithful(index)
  {
    var index: Index := (limit, types) => [];
    assert Faithful(index);
  }

  function Items(ns: seq<Neighbour>): seq<ItemKey> {
    seq(|ns|, i requires 0 <= i < |ns| => ns[i].item)
  }

  function QuotaFor(setting: int, limit: int): int {
    Max(0, Min(setting, limit))
  }

  /** The neighbours that are not in `seen`, in order. */
  function Unseen(ns: seq<Neighbour>, seen: set<ItemKey>): seq<Neighbour> {
    if ns == [] then [] else (if ns[0].item in seen then [] else [ns[0]]) + Unseen(ns[1..], seen)
  }

  method Neighbours(index: Index, anchor: ItemType, limit: int, quota: int) returns (pool: seq<Neighbour>)
    ensures pool == Pool(index, anchor, limit, quota)
  {
    if quota <= 0 {
      return index(limit, {anchor});
    }
    pool := index(limit, ALL_TYPES);
    if pool == [] {
      return;
    }
    var cross := index(limit, ALL_TYPES - {anchor});
    var seen := set n | n in pool :: n.item;
    var i := 0;
    ghost var first := pool;
    while i < |cross|
      invariant 0 <= i <= |cross|
      invariant pool + Unseen(cross[i..], seen) == first + Unseen(cross, seen)
    {
      assert cross[i..][0] == cross[i] && cross[i..][1..] == cross[i + 1..];
      if cross[i].item !in seen {
        pool := pool + [cross[i]];
      }
      i := i + 1;
    }
    assert cross[i..] == [];
  }

  function Pool(index: Index, anchor: ItemType, limit: int, quota: int): seq<Neighbour> {
    if quota <= 0 then index(limit, {anchor})
    else
      var pool := index(limit, ALL_TYPES);
      if pool == [] then []
      else pool + Unseen(index(limit, ALL_TYPES - {anchor}), set n | n in pool :: n.item)
  }

  lemma {:induction false} UnseenIsDistinct(ns: seq<Neighbour>, seen: set<ItemKey>)
    requires Distinct(Items(ns))
    ensures Distinct(Items(Unseen(ns, seen)))
    ensures forall n :: n in Unseen(ns, seen) <==> n in ns && n.item !in seen
  {
    if ns != [] {
      assert Items(ns)[1..] == Items(ns[1..]);
      DistinctTail(Items(ns));
      UnseenIsDistinct(ns[1..], seen);
      var rest := Unseen(ns[1..], seen);
      if ns[0].item in Items(rest) {
        var j :| 0 <= j < |rest| && Items(rest)[j] == ns[0].item;
        assert rest[j] in rest;
        ItemsHave(ns[1..], rest[j]);
      }
      DistinctCons(ns[0].item, Items(rest));
      assert Items([ns[0]] + rest) == [ns[0].item] + Items(rest);
      assert ns == [ns[0]] + ns[1..];
      assert [] + rest == rest;
    }
  }

  lemma ItemsHave(ns: seq<Neighbour>, n: Neighbour)
    requires n in ns
    ensures n.item in Items(ns)
  {
    var k :| 0 <= k < |ns| && ns[k] == n;
    assert Items(ns)[k] == n.item;
  }

  /** The merged pool names no item twice; every neighbour the narrowed walk finds is in it, after all those
      of the walk over every type. */
  lemma PoolIsDistinct(index: Index, anchor: ItemType, limit: int, quota: int)
    requires Faithful(index)
    ensures var pool := Pool(index, anchor, limit, quota);
      && Distinct(Items(pool))
      && (quota <= 0 ==> forall n | n in pool :: n.item.0 == anchor)
      && (quota > 0 && pool != [] ==> forall n | n in index(limit, ALL_TYPES - {anchor}) :: n.item in Items(pool))
      && (quota > 0 ==> index(limit, {Movie, Series, Book, Game}) <= pool)
  {
    hide Items, Distinct, Unseen;
    if quota > 0 && index(limit, ALL_TYPES) != [] {
      MergedPool(index(limit, ALL_TYPES), index(limit, ALL_TYPES - {anchor}));
    }
  }

  /** Two reads merged: nobody twice, and everybody of the second. */
  lemma MergedPool(first: seq<Neighbour>, cross: seq<Neighbour>)
    requires Distinct(Items(first)) && Distinct(Items(cross))
    ensures var pool := first + Unseen(cross, set n | n in first :: n.item);
      Distinct(Items(pool)) && forall n | n in cross :: n.item in Items(pool)
  {
    hide Items, Distinct, Unseen;
    var seen := set n | n in first :: n.item;
    var rest := Unseen(cross, seen);
    UnseenIsDistinct(cross, seen);
    JoinedIsDistinct(first, rest);
    forall n | n in cross
      ensures n.item in Items(first + rest)
    {
      if n.item in seen {
        var m :| m in first && m.item == n.item;
        ItemsHave(first + rest, m);
      } else {
        ItemsHave(first + rest, n);
      }
    }
  }

  lemma JoinedIsDistinct(a: seq<Neighbour>, b: seq<Neighbour>)
    requires Distinct(Items(a)) && Distinct(Items(b))
    requires forall m, n | m in a && n in b :: m.item != n.item
    ensures Distinct(Items(a + b))
  {
    assert Items(a + b) == Items(a) + Items(b);
    forall i, j | 0 <= i < j < |Items(a + b)|
      ensures Items(a + b)[i] != Items(a + b)[j]
    {
      if i < |a| <= j {
        assert a[i] in a && b[j - |a|] in b;
      }
    }
  }

  /** A catalog row, as the ranker needs it. */
  datatype Row = Row(title: string, creatorIds: set<int>)

  function CandidateOf(n: Neighbour, row: Row): Candidate {
    Candidate(n.item.0, n.item.1, row.title, n.score, row.creatorIds)
  }

  /** The candidates of the neighbours other than the anchor that still have a catalog row. */
  function Hydrated(ns: seq<Neighbour>, rows: map<ItemKey, Row>, anchor: ItemKey): seq<Candidate> {
    if ns == [] then []
    else
      var rest := Hydrated(ns[1..], rows, anchor);
      if ns[0].item == anchor || ns[0].item !in rows then rest
      else [CandidateOf(ns[0], rows[ns[0].item])] + rest
  }

  function RankSimilar(franchise: FranchiseKey, anchor: ItemType, cs: seq<Candidate>, limit: int, quota: int,
                       penalty: real): seq<Candidate> {
    if cs == [] then [] else CrossTypeQuotaApplied(anchor, Diversified(franchise, cs, penalty), limit, quota)
  }

  /** The pool is asked for `multiplier` times the page, and never less than the page. */
  function PoolSize(limit: int, multiplier: int): int {
    Max(limit, limit * Max(1, multiplier))
  }

  function CandidatesFor(index: Index, rows: map<ItemKey, Row>, anchor: ItemKey, limit: int, quota: int,
                         multiplier: int): seq<Candidate> {
    Hydrated(Pool(index, anchor.0, PoolSize(limit, multiplier), quota), rows, anchor)
  }

  method GetSemanticSimilar(index: Index, rows: map<ItemKey, Row>, franchise: FranchiseKey, anchor: ItemKey,
                            limit: int, setting: int, multiplier: int, penalty: real)
    returns (page: Option<seq<Candidate>>)
    ensures var quota := QuotaFor(setting, limit);
      var cs := CandidatesFor(index, rows, anchor, limit, quota, multiplier);
      page == if cs == [] then None else Some(RankSimilar(franchise, anchor.0, cs, limit, quota, penalty))
  {
    hide Pool, Diversified, CrossTypeQuotaApplied, QuotaFor, PoolSize;
    var quota := QuotaFor(setting, limit);
    var neighbours := Neighbours(index, anchor.0, PoolSize(limit, multiplier), quota);
    var candidates: seq<Candidate> := [];
    var i := 0;
    while i < |neighbours|
      invariant 0 <= i <= |neighbours|
      invariant candidates + Hydrated(neighbours[i..], rows, anchor) == Hydrated(neighbours, rows, anchor)
    {
      assert neighbours[i..][0] == neighbours[i] && neighbours[i..][1..] == neighbours[i + 1..];
      var neighbour := neighbours[i];
      if neighbour.item != anchor && neighbour.item in rows {
        candidates := candidates + [CandidateOf(neighbour, rows[neighbour.item])];
      }
      i := i + 1;
    }
    assert neighbours[i..] == [];
    assert candidates + [] == candidates;
    assert candidates == CandidatesFor(index, rows, anchor, limit, quota, multiplier);
    if candidates == [] {
      return None;
    }
    var diversified := Diversify(franchise, candidates, penalty);
    var ranked := ApplyCrossTypeQuota(anchor.0, diversified, limit, quota);
    return Some(ranked);
  }

  // ---- what the page guarantees

  function KeyOf(c: Candidate): ItemKey { (c.itemType, c.itemId) }

  function Keys(cs: seq<Candidate>): seq<ItemKey> {
    seq(|cs|, i requires 0 <= i < |cs| => KeyOf(cs[i]))
  }

  lemma {:induction false} HydratedAreDistinct(ns: seq<Neighbour>, rows: map<ItemKey, Row>, anchor: ItemKey)
    requires Distinct(Items(ns))
    ensures var cs := Hydrated(ns, rows, anchor);
      && Distinct(Keys(cs))
      && (forall c | c in cs :: KeyOf(c) != anchor && KeyOf(c) in rows && KeyOf(c) in Items(ns))
      && (forall item | item in Items(ns) && item != anchor && item in rows :: item in Keys(cs))
  {
    if ns != [] {
      assert Items(ns) == [ns[0].item] + Items(ns[1..]);
      assert Items(ns)[1..] == Items(ns[1..]);
      DistinctTail(Items(ns));
      HydratedAreDistinct(ns[1..], rows, anchor);
      var rest := Hydrated(ns[1..], rows, anchor);
      if ns[0].item == anchor || ns[0].item !in rows {
        assert Hydrated(ns, rows, anchor) == rest;
      } else {
        var c := CandidateOf(ns[0], rows[ns[0].item]);
        forall j | 0 <= j < |rest|
          ensures Keys(rest)[j] != KeyOf(c)
        {
          assert rest[j] in rest;
        }
        DistinctCons(KeyOf(c), Keys(rest));
        assert Hydrated(ns, rows, anchor) == [c] + rest;
        assert Keys([c] + rest) == [KeyOf(c)] + Keys(rest);
      }
    }
  }

  lemma PermutedKeysStayDistinct(a: seq<Candidate>, b: seq<Candidate>)
    requires multiset(a) == multiset(b) && Distinct(Keys(a))
    ensures Distinct(Keys(b)) && |a| == |b|
    ensures forall c :: c in a <==> c in b
  {
    assert |multiset(a)| == |multiset(b)|;
    forall c
      ensures c in a <==> c in b
    {
      assert c in a <==> c in multiset(a);
      assert c in b <==> c in multiset(b);
    }
    forall i, j | 0 <= i < j < |b|
      ensures Keys(b)[i] != Keys(b)[j]
    {
      if KeyOf(b[i]) == KeyOf(b[j]) {
        assert b[i] in a && b[j] in a;
        var k :| 0 <= k < |a| && a[k] == b[i];
        var m :| 0 <= m < |a| && a[m] == b[j];
        assert Keys(a)[k] == Keys(a)[m];
        assert b[i] == b[j];
        TwiceInMultiset(b, i, j);
        OnceInMultiset(a, k);
      }
    }
  }

  lemma TwiceInMultiset(s: seq<Candidate>, i: nat, j: nat)
    requires i < j < |s| && s[i] == s[j]
    ensures multiset(s)[s[i]] >= 2
  {
    assert s == s[..i] + [s[i]] + s[i + 1..j] + [s[j]] + s[j + 1..];
  }

  lemma OnceInMultiset(s: seq<Candidate>, k: nat)
    requires k < |s| && Distinct(Keys(s))
    ensures multiset(s)[s[k]] == 1
  {
    assert s == s[..k] + [s[k]] + s[k + 1..];
    forall i | 0 <= i < |s| && i != k
      ensures s[i] != s[k]
    {
      assert Keys(s)[i] == KeyOf(s[i]) && Keys(s)[k] == KeyOf(s[k]);
    }
    assert s[k] !in s[..k] && s[k] !in s[k + 1..];
  }

  function CountCross(anchor: ItemType, cs: seq<Candidate>): nat {
    CrossBefore(anchor, cs, |cs|)
  }

  lemma {:induction false} CountCrossIsMultiset(anchor: ItemType, a: seq<Candidate>, b: seq<Candidate>)
    requires multiset(a) == multiset(b)
    ensures CountCross(anchor, a) == CountCross(anchor, b)
    decreases |a|
  {
    hide Without, CountCross;
    assert |multiset(a)| == |multiset(b)|;
    if a == [] {
      assert b == [];
    } else {
      var last := a[|a| - 1];
      assert last in multiset(b);
      var k :| 0 <= k < |b| && b[k] == last;
      WithoutInMultiset(b, k);
      WithoutInMultiset(a, |a| - 1);
      CountCrossIsMultiset(anchor, Without(a, |a| - 1), Without(b, k));
      CountCrossWithout(anchor, a, |a| - 1);
      CountCrossWithout(anchor, b, k);
    }
  }

  lemma WithoutInMultiset(s: seq<Candidate>, k: nat)
    requires k < |s|
    ensures multiset(Without(s, k)) == multiset(s) - multiset{s[k]}
    ensures |Without(s, k)| == |s| - 1
  {
    assert s == s[..k] + [s[k]] + s[k + 1..];
  }

  lemma {:induction false} CrossBeforeOfPrefix(anchor: ItemType, s: seq<Candidate>, n: nat, p: nat)
    requires p <= n <= |s|
    ensures CrossBefore(anchor, s[..n], p) == CrossBefore(anchor, s, p)
  {
    if p > 0 {
      CrossBeforeOfPrefix(anchor, s, n, p - 1);
    }
  }

  lemma CountCrossWithout(anchor: ItemType, s: seq<Candidate>, k: nat)
    requires k < |s|
    ensures CountCross(anchor, s) == CountCross(anchor, Without(s, k)) + if IsCross(anchor, s, k) then 1 else 0
  {
    ShiftedAfter(anchor, s, k, |s|);
  }

  lemma {:induction false} ShiftedAfter(anchor: ItemType, s: seq<Candidate>, k: nat, p: nat)
    requires k < |s| && k < p <= |s|
    ensures CrossBefore(anchor, s, p)
         == CrossBefore(anchor, Without(s, k), p - 1) + if IsCross(anchor, s, k) then 1 else 0
  {
    if p == k + 1 {
      CrossBeforeOfPrefix(anchor, s, k, k);
      CrossBeforeOfPrefix(anchor, Without(s, k), k, k);
      assert Without(s, k)[..k] == s[..k];
    } else {
      ShiftedAfter(anchor, s, k, p - 1);
    }
  }

  lemma {:induction false} CrossOfPicked(anchor: ItemType, ranked: seq<Candidate>, positions: seq<nat>, n: nat)
    requires n <= |positions| && forall p | p in positions :: p < |ranked|
    ensures CrossBefore(anchor, PickAt(ranked, positions), n) == CrossAmong(anchor, ranked, positions[..n])
  {
    if n > 0 {
      CrossOfPicked(anchor, ranked, positions, n - 1);
      assert positions[n - 1] in positions;
      assert positions[..n][..n - 1] == positions[..n - 1];
    }
  }

  /** Main result: a page is as full as its candidates allow, never repeats an item or shows the
      anchor, shows only items with a catalog row, and keeps the promised cross-type slots. */
  lemma PageIsSound(index: Index, rows: map<ItemKey, Row>, franchise: FranchiseKey, anchor: ItemKey,
                    limit: int, setting: int, multiplier: int, penalty: real)
    requires Faithful(index)
    ensures var quota := QuotaFor(setting, limit);
      var cs := CandidatesFor(index, rows, anchor, limit, quota, multiplier);
      var page := RankSimilar(franchise, anchor.0, cs, limit, quota, penalty);
      && |page| == Max(0, Min(limit, |cs|))
      && Distinct(Keys(page))
      && (forall c | c in page :: KeyOf(c) != anchor && KeyOf(c) in rows && c in cs)
      && Others(anchor.0, page) >= Min(quota, Others(anchor.0, cs))
      && (quota == 0 ==> forall c | c in page :: c.itemType == anchor.0)
  {
    var quota := QuotaFor(setting, limit);
    var pool := Pool(index, anchor.0, PoolSize(limit, multiplier), quota);
    var cs := CandidatesFor(index, rows, anchor, limit, quota, multiplier);
    PoolIsDistinct(index, anchor.0, PoolSize(limit, multiplier), quota);
    HydratedAreDistinct(pool, rows, anchor);
    RankedPageIsSound(franchise, anchor.0, cs, limit, quota, penalty);
    var page := RankSimilar(franchise, anchor.0, cs, limit, quota, penalty);
    OthersCounted(anchor.0, page);
    OthersCounted(anchor.0, cs);
    hide *;
    forall c | c in page
      ensures KeyOf(c) != anchor && KeyOf(c) in rows && c in cs
    {
    }
    if quota == 0 {
      forall c | c in page
        ensures c.itemType == anchor.0
      {
        OfAnchorType(pool, anchor, KeyOf(c));
        SameType(c);
      }
    }
  }

  lemma SameType(c: Candidate)
    ensures KeyOf(c).0 == c.itemType
  {
  }

  lemma OfAnchorType(pool: seq<Neighbour>, anchor: ItemKey, item: ItemKey)
    requires forall n | n in pool :: n.item.0 == anchor.0
    requires item in Items(pool)
    ensures item.0 == anchor.0
  {
    var k :| 0 <= k < |pool| && Items(pool)[k] == item;
    assert pool[k] in pool;
  }

  /** The ranker on its own: what it makes of candidates that name no item twice. */
  lemma RankedPageIsSound(franchise: FranchiseKey, anchor: ItemType, cs: seq<Candidate>, limit: int, quota: int,
                          penalty: real)
    requires Distinct(Keys(cs))
    ensures var page := RankSimilar(franchise, anchor, cs, limit, quota, penalty);
      && |page| == Max(0, Min(limit, |cs|))
      && Distinct(Keys(page))
      && (forall c | c in page :: c in cs)
      && CountCross(anchor, page) >= Max(0, Min(Min(quota, limit), CountCross(anchor, cs)))
  {
    if cs != [] {
      var ranked := Diversified(franchise, cs, penalty);
      DiversifiedPermutes(franchise, cs, penalty);
      hide Diversified, Positions;
      PermutedKeysStayDistinct(cs, ranked);
      CountCrossIsMultiset(anchor, cs, ranked);
      QuotaIsHonoured(anchor, ranked, limit, quota);
      var positions := Positions(anchor, ranked, limit, quota);
      PickedIsDistinct(ranked, positions);
      CrossOfPicked(anchor, ranked, positions, |positions|);
      assert positions[..|positions|] == positions;
    }
  }

  lemma PickedIsDistinct(ranked: seq<Candidate>, positions: seq<nat>)
    requires Distinct(Keys(ranked)) && Ascending(positions) && forall p | p in positions :: p < |ranked|
    ensures Distinct(Keys(PickAt(ranked, positions)))
    ensures forall c | c in PickAt(ranked, positions) :: c in ranked
  {
    var picked := PickAt(ranked, positions);
    forall i, j | 0 <= i < j < |picked|
      ensures Keys(picked)[i] != Keys(picked)[j]
    {
      assert positions[i] in positions && positions[j] in positions;
      assert Keys(ranked)[positions[i]] != Keys(ranked)[positions[j]];
    }
    forall c | c in picked
      ensures c in ranked
    {
      var i :| 0 <= i < |picked| && picked[i] == c;
      assert positions[i] in positions;
    }
  }

  // ---- the page, over the index and the rows alone

  /** What is read of the index for `size` neighbours: the anchor's own type, or, with a quota, all types and
      then, of the other types, whom the first read has not named. */
  ghost predicate IsRead(index: Index, anchor: ItemType, size: int, withQuota: bool, n: Neighbour) {
    if !withQuota then n in index(size, {anchor})
    else
      var all := index(size, {Movie, Series, Book, Game});
      || n in all
      || (all != [] && n in index(size, {Movie, Series, Book, Game} - {anchor})
          && forall m | m in all :: m.item != n.item)
  }

  /** The neighbours that can be shown: not the anchor, and with a catalog row. */
  ghost predicate CanShow(rows: map<ItemKey, Row>, anchor: ItemKey, n: Neighbour) {
    n.item != anchor && n.item in rows
  }

  /** An entry has the score of its neighbour and the title and the creators of its row. */
  ghost predicate Tells(rows: map<ItemKey, Row>, n: Neighbour, c: Candidate) {
    && n.item == (c.itemType, c.itemId) && n.score == c.score
    && n.item in rows && rows[n.item].title == c.title && rows[n.item].creatorIds == c.creatorIds
  }

  ghost predicate Shows(page: seq<Candidate>, item: ItemKey) {
    exists c :: c in page && (c.itemType, c.itemId) == item
  }

  /** How many entries are of another type than the anchor. */
  function Others(anchor: ItemType, page: seq<Candidate>): nat {
    if page == [] then 0
    else Others(anchor, page[..|page| - 1]) + if page[|page| - 1].itemType != anchor then 1 else 0
  }

  lemma InPool(index: Index, anchor: ItemType, size: int, quota: int, n: Neighbour)
    requires Faithful(index)
    ensures n in Pool(index, anchor, size, quota) <==> IsRead(index, anchor, size, quota > 0, n)
  {
    if quota > 0 {
      var all, cross := index(size, ALL_TYPES), index(size, ALL_TYPES - {anchor});
      UnseenIsDistinct(cross, set m | m in all :: m.item);
    }
  }

  lemma {:induction false} HydratedTell(ns: seq<Neighbour>, rows: map<ItemKey, Row>, anchor: ItemKey)
    ensures forall c | c in Hydrated(ns, rows, anchor) ::
      exists n :: n in ns && CanShow(rows, anchor, n) && Tells(rows, n, c)
    ensures forall n | n in ns && CanShow(rows, anchor, n) ::
      exists c :: c in Hydrated(ns, rows, anchor) && Tells(rows, n, c)
  {
    if ns != [] {
      var head, rest := ns[0], ns[1..];
      HydratedTell(rest, rows, anchor);
      assert ns == [head] + rest;
      var cs, more := Hydrated(ns, rows, anchor), Hydrated(rest, rows, anchor);
      forall c | c in cs
        ensures exists n :: n in ns && CanShow(rows, anchor, n) && Tells(rows, n, c)
      {
        if c in more {
          var n :| n in rest && CanShow(rows, anchor, n) && Tells(rows, n, c);
          assert n in ns;
        } else {
          assert head in ns && CanShow(rows, anchor, head) && Tells(rows, head, c);
        }
      }
      forall n | n in ns && CanShow(rows, anchor, n)
        ensures exists c :: c in cs && Tells(rows, n, c)
      {
        if n in rest {
          var c :| c in more && Tells(rows, n, c);
          assert c in cs;
        } else {
          assert Tells(rows, n, cs[0]);
        }
      }
    }
  }

  /** Main result: there is a page exactly when some neighbour can be shown, and each entry tells the score
      the index gave and what its row says, whatever the quota and the penalty. */
  lemma EntriesTell(index: Index, rows: map<ItemKey, Row>, franchise: FranchiseKey, anchor: ItemKey, limit: int,
                    setting: int, multiplier: int, penalty: real)
    requires Faithful(index)
    ensures var size := Max(limit, limit * Max(1, multiplier));
      var quota := QuotaFor(setting, limit);
      var cs := CandidatesFor(index, rows, anchor, limit, quota, multiplier);
      var withQuota := setting > 0 && limit > 0;
      && (cs != [] <==> exists n :: IsRead(index, anchor.0, size, withQuota, n) && CanShow(rows, anchor, n))
      && forall c | c in RankSimilar(franchise, anchor.0, cs, limit, quota, penalty) ::
           exists n ::
             IsRead(index, anchor.0, size, withQuota, n) && CanShow(rows, anchor, n) && Tells(rows, n, c)
  {
    hide *;
    var size := Max(limit, limit * Max(1, multiplier));
    var quota := QuotaFor(setting, limit);
    var pool := Pool(index, anchor.0, size, quota);
    var cs := CandidatesFor(index, rows, anchor, limit, quota, multiplier);
    var page := RankSimilar(franchise, anchor.0, cs, limit, quota, penalty);
    var withQuota := setting > 0 && limit > 0;
    SettingDecides(index, rows, anchor, limit, setting, multiplier);
    HydratedTell(pool, rows, anchor);
    PageIsSound(index, rows, franchise, anchor, limit, setting, multiplier, penalty);
    forall c | c in cs
      ensures exists n :: IsRead(index, anchor.0, size, withQuota, n) && CanShow(rows, anchor, n) && Tells(rows, n, c)
    {
      var n :| n in pool && CanShow(rows, anchor, n) && Tells(rows, n, c);
      InPool(index, anchor.0, size, quota, n);
    }
    if cs != [] {
      assert cs[0] in cs;
    }
    forall n | IsRead(index, anchor.0, size, setting > 0 && limit > 0, n) && CanShow(rows, anchor, n)
      ensures cs != []
    {
      InPool(index, anchor.0, size, quota, n);
    }
  }

  lemma SettingDecides(index: Index, rows: map<ItemKey, Row>, anchor: ItemKey, limit: int, setting: int,
                       multiplier: int)
    ensures var size := Max(limit, limit * Max(1, multiplier));
      var quota := QuotaFor(setting, limit);
      && CandidatesFor(index, rows, anchor, limit, quota, multiplier)
         == Hydrated(Pool(index, anchor.0, size, quota), rows, anchor)
      && (quota > 0 <==> setting > 0 && limit > 0)
  {
    hide Pool, Hydrated;
  }

  // ---- the nearest neighbours make the page

  lemma {:induction false} OthersCounted(anchor: ItemType, page: seq<Candidate>)
    ensures Others(anchor, page) == CountCross(anchor, page)
  {
    if page != [] {
      OthersCounted(anchor, page[..|page| - 1]);
      CrossBeforeOfPrefix(anchor, page, |page| - 1, |page| - 1);
    }
  }

  /** Ascending positions that leave one out are fewer than all. */
  lemma {:induction false} OneLeftOut(positions: seq<nat>, n: nat, p: nat)
    requires Ascending(positions) && (forall x | x in positions :: x < n) && p < n && p !in positions
    ensures |positions| < n
  {
    if positions != [] {
      var init, last := positions[..|positions| - 1], positions[|positions| - 1];
      assert last in positions;
      if last < p {
        FitBelow(positions, p);
      } else {
        OneLeftOut(init, last, p);
      }
    }
  }

  lemma {:induction false} FitBelow(positions: seq<nat>, n: nat)
    requires Ascending(positions) && forall x | x in positions :: x < n
    ensures |positions| <= n
  {
    if positions != [] {
      var init, last := positions[..|positions| - 1], positions[|positions| - 1];
      assert last in positions;
      FitBelow(init, last);
    }
  }

  /** Of the ranked list, the page leaves out only whom its entries outrank, or what the promise costs. */
  lemma PageAgainst(ranked: seq<Candidate>, anchor: ItemType, limit: int, quota: int, left: Candidate)
    requires Sorted(ranked) && left in ranked && left !in CrossTypeQuotaApplied(anchor, ranked, limit, quota)
    ensures var page := CrossTypeQuotaApplied(anchor, ranked, limit, quota);
      && |page| == Max(0, limit)
      && forall c | c in page :: c.score >= left.score
           || (left.itemType == anchor && c.itemType != anchor && CountCross(anchor, page) <= Min(quota, limit))
  {
    hide Positions, CrossTypeQuotaApplied, CrossAmong, CrossBefore, Ascending, Promised;
    var page := CrossTypeQuotaApplied(anchor, ranked, limit, quota);
    var positions := Positions(anchor, ranked, limit, quota);
    QuotaIsHonoured(anchor, ranked, limit, quota);
    var p :| 0 <= p < |ranked| && ranked[p] == left;
    if p in positions {
      PickedHas(ranked, positions, p);
    }
    OneLeftOut(positions, |ranked|, p);
    CrossOfPicked(anchor, ranked, positions, |positions|);
    assert positions[..|positions|] == positions;
    forall c | c in page
      ensures c.score >= left.score
        || (left.itemType == anchor && c.itemType != anchor && CountCross(anchor, page) <= Min(quota, limit))
    {
      var i :| 0 <= i < |page| && page[i] == c;
      var q := positions[i];
      assert q in positions && ranked[q] == c;
      if q < p {
        assert RanksBefore(ranked[q], ranked[p]);
      } else {
        OnlyThePromiseOvertakes(anchor, ranked, limit, quota, p, q);
      }
    }
  }

  lemma PickedHas(ranked: seq<Candidate>, positions: seq<nat>, p: nat)
    requires (forall x | x in positions :: x < |ranked|) && p in positions
    ensures ranked[p] in PickAt(ranked, positions)
  {
    var i :| 0 <= i < |positions| && positions[i] == p;
    assert PickAt(ranked, positions)[i] == ranked[p];
  }

  lemma PageDescends(ranked: seq<Candidate>, anchor: ItemType, limit: int, quota: int)
    requires Sorted(ranked)
    ensures var page := CrossTypeQuotaApplied(anchor, ranked, limit, quota);
      forall i, j | 0 <= i < j < |page| :: NoWorse(page[i], page[j])
  {
    hide Positions, CrossTypeQuotaApplied, CrossAmong, Promised;
    QuotaIsHonoured(anchor, ranked, limit, quota);
    var page := CrossTypeQuotaApplied(anchor, ranked, limit, quota);
    var positions := Positions(anchor, ranked, limit, quota);
    forall i, j | 0 <= i < j < |page|
      ensures NoWorse(page[i], page[j])
    {
      assert positions[i] in positions && positions[j] in positions;
      assert RanksBefore(ranked[positions[i]], ranked[positions[j]]);
      RanksAreNoWorse(page[i], page[j]);
    }
  }

  /** A neighbour that could have been shown and is not. */
  ghost predicate LeftOut(index: Index, rows: map<ItemKey, Row>, anchor: ItemKey, limit: int, setting: int,
                          multiplier: int, page: seq<Candidate>, n: Neighbour) {
    && IsRead(index, anchor.0, Max(limit, limit * Max(1, multiplier)), setting > 0 && limit > 0, n)
    && CanShow(rows, anchor, n) && !Shows(page, n.item)
  }

  /** An entry that outscores what was left out, or one of another type that the promise put there. */
  predicate Deserves(c: Candidate, n: Neighbour, anchor: ItemType, setting: int, page: seq<Candidate>) {
    || c.score >= n.score
    || (n.item.0 == anchor && c.itemType != anchor && 0 < Others(anchor, page) <= setting)
  }

  /** Main result: without a penalty the page lists the nearest neighbours that can be shown, nearest first.
      One is left out only of a full page, and outscores an entry only if it is of the anchor's type, the
      entry is not, and the page has no more of those than the setting asks for. */
  lemma NearestAreShown(index: Index, rows: map<ItemKey, Row>, franchise: FranchiseKey, anchor: ItemKey, limit: int,
                        setting: int, multiplier: int, penalty: real)
    requires Faithful(index) && penalty <= 0.0
    ensures var cs := CandidatesFor(index, rows, anchor, limit, QuotaFor(setting, limit), multiplier);
      var page := RankSimilar(franchise, anchor.0, cs, limit, QuotaFor(setting, limit), penalty);
      && (forall i, j | 0 <= i < j < |page| :: NoWorse(page[i], page[j]))
      && forall n | LeftOut(index, rows, anchor, limit, setting, multiplier, page, n) ::
           && |page| == Max(0, limit)
           && forall c | c in page :: Deserves(c, n, anchor.0, setting, page)
  {
    hide *;
    var quota := QuotaFor(setting, limit);
    var cs := CandidatesFor(index, rows, anchor, limit, quota, multiplier);
    var page := RankSimilar(franchise, anchor.0, cs, limit, quota, penalty);
    RankSimilarPlain(franchise, anchor.0, cs, limit, quota, penalty);
    RankedSorts(cs);
    PageDescends(Ranked(cs), anchor.0, limit, quota);
    forall n | LeftOut(index, rows, anchor, limit, setting, multiplier, page, n)
      ensures |page| == Max(0, limit) && forall c | c in page :: Deserves(c, n, anchor.0, setting, page)
    {
      var left := CandidateLeftOut(index, rows, anchor, limit, setting, multiplier, page, n);
      assert left in multiset(cs) && left in multiset(Ranked(cs));
      PageAgainst(Ranked(cs), anchor.0, limit, quota, left);
      AgainstNeighbour(anchor.0, limit, setting, page, left, n);
    }
  }

  /** The candidate that was made of a neighbour left out. */
  lemma CandidateLeftOut(index: Index, rows: map<ItemKey, Row>, anchor: ItemKey, limit: int, setting: int,
                         multiplier: int, page: seq<Candidate>, n: Neighbour) returns (left: Candidate)
    requires Faithful(index) && LeftOut(index, rows, anchor, limit, setting, multiplier, page, n)
    ensures left in CandidatesFor(index, rows, anchor, limit, QuotaFor(setting, limit), multiplier)
    ensures left !in page && left.score == n.score && left.itemType == n.item.0
  {
    hide Pool, Hydrated, IsRead, Faithful, CandidatesFor, QuotaFor;
    var size := Max(limit, limit * Max(1, multiplier));
    var quota := QuotaFor(setting, limit);
    SettingDecides(index, rows, anchor, limit, setting, multiplier);
    InPool(index, anchor.0, size, quota, n);
    HydratedTell(Pool(index, anchor.0, size, quota), rows, anchor);
    left :| left in CandidatesFor(index, rows, anchor, limit, quota, multiplier) && Tells(rows, n, left);
  }

  lemma AgainstNeighbour(anchor: ItemType, limit: int, setting: int, page: seq<Candidate>, left: Candidate,
                         n: Neighbour)
    requires |page| == Max(0, limit) && left.score == n.score && left.itemType == n.item.0
    requires forall c | c in page ::
      || c.score >= left.score
      || (left.itemType == anchor && c.itemType != anchor
          && CountCross(anchor, page) <= Min(QuotaFor(setting, limit), limit))
    ensures forall c | c in page :: Deserves(c, n, anchor, setting, page)
  {
    hide CountCross, Others;
    OthersCounted(anchor, page);
    forall c | c in page
      ensures Deserves(c, n, anchor, setting, page)
    {
      if c.itemType != anchor {
        OthersHas(anchor, page, c);
      }
    }
  }

  lemma {:induction false} OthersHas(anchor: ItemType, page: seq<Candidate>, c: Candidate)
    requires c in page && c.itemType != anchor
    ensures Others(anchor, page) > 0
  {
    var last := |page| - 1;
    if page[last] != c {
      OthersHas(anchor, page[..last], c);
    }
  }

  lemma RankSimilarPlain(franchise: FranchiseKey, anchor: ItemType, cs: seq<Candidate>, limit: int, quota: int,
                         penalty: real)
    requires penalty <= 0.0
    ensures RankSimilar(franchise, anchor, cs, limit, quota, penalty)
         == CrossTypeQuotaApplied(anchor, Ranked(cs), limit, quota)
  {
    hide CrossTypeQuotaApplied, Diversified, Ranked;
    NoSharedGroupNoChange(franchise, cs, penalty);
    EmptyRanked(anchor, limit, quota);
  }

  lemma EmptyRanked(anchor: ItemType, limit: int, quota: int)
    ensures CrossTypeQuotaApplied(anchor, Ranked([]), limit, quota) == []
  {
    hide Positions;
    QuotaIsHonoured(anchor, Ranked([]), limit, quota);
  }
}
