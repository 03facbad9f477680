/** The cross-type quota of `/similar`: which positions of the diversified order make the page. */
module CrossTypeQuota {
  import opened Common
  import opened SimilarRanking

  predicate IsCross(anchor: ItemType, ranked: seq<Candidate>, p: nat) {
    p < |ranked| && ranked[p].itemType != anchor
  }

  /** How many of the first `p` candidates are of another type than the anchor. */
  function CrossBefore(anchor: ItemType, ranked: seq<Candidate>, p: nat): nat
    requires p <= |ranked|
  {
    if p == 0 then 0 else CrossBefore(anchor, ranked, p - 1) + if IsCross(anchor, ranked, p - 1) then 1 else 0
  }

  /** The promise: as many cross-type slots as asked for, as fit, and as exist. */
  function Promised(anchor: ItemType, ranked: seq<Candidate>, limit: int, quota: int): nat {
    Max(0, Min(Min(quota, limit), CrossBefore(anchor, ranked, |ranked|)))
  }

  // ---- the reference: one pass that skips a same-type item only when the reserve needs the slot

  function OnePass(anchor: ItemType, ranked: seq<Candidate>, p: nat, slots: int, need: nat): seq<nat>
    requires p <= |ranked|
    decreases |ranked| - p
  {
    if p == |ranked| || slots <= 0 then []
    else if IsCross(anchor, ranked, p) then [p] + OnePass(anchor, ranked, p + 1, slots - 1, Max(0, need - 1))
    else if slots > need then [p] + OnePass(anchor, ranked, p + 1, slots - 1, need)
    else OnePass(anchor, ranked, p + 1, slots, need)
  }

  function Positions(anchor: ItemType, ranked: seq<Candidate>, limit: int, quota: int): seq<nat> {
    OnePass(anchor, ranked, 0, limit, Promised(anchor, ranked, limit, quota))
  }

  function PickAt(ranked: seq<Candidate>, positions: seq<nat>): seq<Candidate>
    requires forall p | p in positions :: p < |ranked|
  {
    seq(|positions|, i requires 0 <= i < |positions| => assert positions[i] in positions; ranked[positions[i]])
  }

  // ---- the positions that are kept, in closed form

  /** With `reserved` slots held for the first cross-type items and `room` for the rest: how many of
      the first `p` positions are reserved ones. */
  function ReservedBefore(anchor: ItemType, ranked: seq<Candidate>, reserved: nat, p: nat): (r: nat)
    requires p <= |ranked|
    ensures r <= p
  {
    CrossAtMost(anchor, ranked, p);
    Min(reserved, CrossBefore(anchor, ranked, p))
  }

  lemma {:induction false} CrossAtMost(anchor: ItemType, ranked: seq<Candidate>, p: nat)
    requires p <= |ranked|
    ensures CrossBefore(anchor, ranked, p) <= p
  {
    if p > 0 {
      CrossAtMost(anchor, ranked, p - 1);
    }
  }

  predicate IsReserved(anchor: ItemType, ranked: seq<Candidate>, reserved: nat, p: nat)
    requires p < |ranked|
  {
    IsCross(anchor, ranked, p) && CrossBefore(anchor, ranked, p) < reserved
  }

  predicate Kept(anchor: ItemType, ranked: seq<Candidate>, reserved: nat, room: int, p: nat)
    requires p < |ranked|
  {
    IsReserved(anchor, ranked, reserved, p) || p - ReservedBefore(anchor, ranked, reserved, p) < room
  }

  /** The kept positions below `p`, in order. */
  function KeptBelow(anchor: ItemType, ranked: seq<Candidate>, reserved: nat, room: int, p: nat): seq<nat>
    requires p <= |ranked|
  {
    if p == 0 then []
    else KeptBelow(anchor, ranked, reserved, room, p - 1) +
         (if Kept(anchor, ranked, reserved, room, p - 1) then [p - 1] else [])
  }

  lemma {:induction false} KeptCount(anchor: ItemType, ranked: seq<Candidate>, reserved: nat, room: nat, p: nat)
    requires p <= |ranked|
    ensures var before := ReservedBefore(anchor, ranked, reserved, p);
      |KeptBelow(anchor, ranked, reserved, room, p)| == before + Min(room, p - before)
  {
    if p > 0 {
      KeptCount(anchor, ranked, reserved, room, p - 1);
    }
  }

  lemma {:induction false} KeptBelowExtends(anchor: ItemType, ranked: seq<Candidate>, reserved: nat, room: int,
                                            p: nat, q: nat)
    requires p <= q <= |ranked|
    ensures KeptBelow(anchor, ranked, reserved, room, p) <= KeptBelow(anchor, ranked, reserved, room, q)
    decreases q
  {
    hide Kept;
    if p < q {
      KeptBelowExtends(anchor, ranked, reserved, room, p, q - 1);
    }
  }

  lemma {:induction false} KeptBelowAscends(anchor: ItemType, ranked: seq<Candidate>, reserved: nat, room: int, p: nat)
    requires p <= |ranked|
    ensures var kept := KeptBelow(anchor, ranked, reserved, room, p);
      Ascending(kept) && forall i | 0 <= i < |kept| :: kept[i] < p
  {
    hide Kept;
    if p > 0 {
      KeptBelowAscends(anchor, ranked, reserved, room, p - 1);
    }
  }

  /** The one pass, from position `p` on, keeps what the closed form keeps. */
  lemma {:induction false} OnePassKeeps(anchor: ItemType, ranked: seq<Candidate>, reserved: nat, room: nat, p: nat)
    requires p <= |ranked| && reserved <= CrossBefore(anchor, ranked, |ranked|)
    ensures var before := ReservedBefore(anchor, ranked, reserved, p);
      var need := reserved - before;
      KeptBelow(anchor, ranked, reserved, room, |ranked|) ==
      KeptBelow(anchor, ranked, reserved, room, p)
        + OnePass(anchor, ranked, p, need + Max(0, room - (p - before)), need)
    decreases |ranked| - p
  {
    hide OnePass, KeptBelow;
    var before := ReservedBefore(anchor, ranked, reserved, p);
    var need := reserved - before;
    var slots := need + Max(0, room - (p - before));
    OnePassStep(anchor, ranked, p, slots, need);
    if p == |ranked| {
    } else {
      OnePassKeeps(anchor, ranked, reserved, room, p + 1);
      var kept := KeptBelow(anchor, ranked, reserved, room, p);
      KeptStep(anchor, ranked, reserved, room, p);
      var before' := ReservedBefore(anchor, ranked, reserved, p + 1);
      var rest := OnePass(anchor, ranked, p + 1, reserved - before' + Max(0, room - (p + 1 - before')),
                          reserved - before');
      assert kept + [p] + rest == kept + ([p] + rest);
      assert kept + [] == kept;
      if slots == 0 {
        OnePassStep(anchor, ranked, p + 1, 0, 0);
      }
    }
  }

  lemma KeptStep(anchor: ItemType, ranked: seq<Candidate>, reserved: nat, room: int, p: nat)
    requires p < |ranked|
    ensures KeptBelow(anchor, ranked, reserved, room, p + 1) ==
      KeptBelow(anchor, ranked, reserved, room, p) + (if Kept(anchor, ranked, reserved, room, p) then [p] else [])
  {
    hide Kept;
  }

  lemma OnePassStep(anchor: ItemType, ranked: seq<Candidate>, p: nat, slots: int, need: nat)
    requires p <= |ranked|
    ensures OnePass(anchor, ranked, p, slots, need) ==
      if p == |ranked| || slots <= 0 then []
      else if IsCross(anchor, ranked, p) then [p] + OnePass(anchor, ranked, p + 1, slots - 1, Max(0, need - 1))
      else if slots > need then [p] + OnePass(anchor, ranked, p + 1, slots - 1, need)
      else OnePass(anchor, ranked, p + 1, slots, need)
  {
  }

  // ---- the code: reserve, fill the room, read off in order

  /** The positions of the cross-type candidates, in order. */
  function CrossPositions(anchor: ItemType, ranked: seq<Candidate>, p: nat): seq<nat>
    requires p <= |ranked|
  {
    if p == 0 then []
    else CrossPositions(anchor, ranked, p - 1) + (if IsCross(anchor, ranked, p - 1) then [p - 1] else [])
  }

  lemma {:induction false} CrossPositionsAre(anchor: ItemType, ranked: seq<Candidate>, p: nat)
    requires p <= |ranked|
    ensures |CrossPositions(anchor, ranked, p)| == CrossBefore(anchor, ranked, p)
    ensures forall k | 0 <= k < |CrossPositions(anchor, ranked, p)| ::
      var x := CrossPositions(anchor, ranked, p)[k];
      x < p && IsCross(anchor, ranked, x) && CrossBefore(anchor, ranked, x) == k
    ensures forall x | 0 <= x < p && IsCross(anchor, ranked, x) ::
      CrossBefore(anchor, ranked, x) < |CrossPositions(anchor, ranked, p)|
      && CrossPositions(anchor, ranked, p)[CrossBefore(anchor, ranked, x)] == x
  {
    if p > 0 {
      CrossPositionsAre(anchor, ranked, p - 1);
    }
  }

  /** The members of a set of positions below `p`, in order: `sorted(chosen)`. */
  function SortedBelow(chosen: set<nat>, p: nat): seq<nat> {
    if p == 0 then [] else SortedBelow(chosen, p - 1) + if p - 1 in chosen then [p - 1] else []
  }

  lemma {:induction false} SortedIsKept(anchor: ItemType, ranked: seq<Candidate>, reserved: nat, room: int,
                                        chosen: set<nat>, p: nat)
    requires p <= |ranked|
    requires forall q: nat | q < p :: q in chosen <==> Kept(anchor, ranked, reserved, room, q)
    ensures SortedBelow(chosen, p) == KeptBelow(anchor, ranked, reserved, room, p)
  {
    hide Kept;
    if p > 0 {
      SortedIsKept(anchor, ranked, reserved, room, chosen, p - 1);
    }
  }

  /** The first cross-type positions are the reserved ones, each once. */
  lemma FirstAreReserved(anchor: ItemType, ranked: seq<Candidate>, reserved: nat, first: seq<nat>)
    requires var all := CrossPositions(anchor, ranked, |ranked|); first == all[..Min(reserved, |all|)]
    ensures |first| == Min(reserved, CrossBefore(anchor, ranked, |ranked|))
    ensures Distinct(first)
    ensures forall q: nat :: q in first <==> q < |ranked| && IsReserved(anchor, ranked, reserved, q)
  {
    CrossPositionsAre(anchor, ranked, |ranked|);
    hide CrossPositions, CrossBefore, IsCross;
    var all := CrossPositions(anchor, ranked, |ranked|);
    forall i, j | 0 <= i < j < |first|
      ensures first[i] != first[j]
    {
      assert first[i] == all[i] && first[j] == all[j];
    }
    forall q: nat
      ensures q in first <==> q < |ranked| && IsReserved(anchor, ranked, reserved, q)
    {
      if q < |ranked| && IsReserved(anchor, ranked, reserved, q) {
        assert first[CrossBefore(anchor, ranked, q)] == q;
      }
      if k :| 0 <= k < |first| && first[k] == q {
        assert all[k] == q;
      }
    }
  }

  /** The set of the first `reserved` cross-type positions. */
  method Reserve(anchor: ItemType, ranked: seq<Candidate>, reserved: nat) returns (chosen: set<nat>)
    ensures forall q: nat :: q in chosen <==> q < |ranked| && IsReserved(anchor, ranked, reserved, q)
    ensures |chosen| == Min(reserved, CrossBefore(anchor, ranked, |ranked|))
  {
    hide CrossPositions, CrossBefore, IsReserved;
    var crossPositions := CrossPositions(anchor, ranked, |ranked|);
    var first := crossPositions[..Min(reserved, |crossPositions|)];
    FirstAreReserved(anchor, ranked, reserved, first);
    chosen := {};
    for k := 0 to |first|
      invariant forall q :: q in chosen <==> q in first[..k]
      invariant |chosen| == k
    {
      assert first[..k + 1] == first[..k] + [first[k]];
      chosen := chosen + {first[k]};
    }
    assert first[..|first|] == first;
  }

  lemma NonReservedGrow(anchor: ItemType, ranked: seq<Candidate>, reserved: nat, p: nat, q: nat)
    requires p <= q <= |ranked|
    ensures p - ReservedBefore(anchor, ranked, reserved, p) <= q - ReservedBefore(anchor, ranked, reserved, q)
    decreases q - p
  {
    if p < q {
      NonReservedGrow(anchor, ranked, reserved, p, q - 1);
    }
  }

  method Fill(anchor: ItemType, ranked: seq<Candidate>, reserved: nat, free: nat,
              first: set<nat>)
    returns (chosen: set<nat>)
    requires forall q: nat :: q in first <==> q < |ranked| && IsReserved(anchor, ranked, reserved, q)
    ensures forall q: nat | q < |ranked| :: q in chosen <==> Kept(anchor, ranked, reserved, free, q)
  {
    chosen := first;
    var room := free;
    var position := 0;
    while position < |ranked|
      invariant 0 <= position <= |ranked|
      invariant room == Max(0, free - (position - ReservedBefore(anchor, ranked, reserved, position)))
      invariant forall q: nat | q < |ranked| ::
        q in chosen <==> q in first || (q < position && Kept(anchor, ranked, reserved, free, q))
    {
      if room <= 0 {
        break;
      }
      if position !in chosen {
        chosen := chosen + {position};
        room := room - 1;
      }
      position := position + 1;
    }
    forall q: nat | position <= q < |ranked|
      ensures Kept(anchor, ranked, reserved, free, q) <==> q in first
    {
      NonReservedGrow(anchor, ranked, reserved, position, q);
    }
  }

  lemma PositionsAreKept(anchor: ItemType, ranked: seq<Candidate>, limit: nat, quota: int)
    ensures var reserved := Promised(anchor, ranked, limit, quota);
      Positions(anchor, ranked, limit, quota) == KeptBelow(anchor, ranked, reserved, limit - reserved, |ranked|)
    ensures forall p | p in Positions(anchor, ranked, limit, quota) :: p < |ranked|
  {
    hide Kept, KeptBelow, OnePass;
    var reserved := Promised(anchor, ranked, limit, quota);
    OnePassKeeps(anchor, ranked, reserved, limit - reserved, 0);
    KeptOfNone(anchor, ranked, reserved, limit - reserved);
    KeptBelowAscends(anchor, ranked, reserved, limit - reserved, |ranked|);
  }

  lemma KeptOfNone(anchor: ItemType, ranked: seq<Candidate>, reserved: nat, room: int)
    ensures KeptBelow(anchor, ranked, reserved, room, 0) == []
    ensures ReservedBefore(anchor, ranked, reserved, 0) == 0
  {
  }

  lemma PositionsInRange(anchor: ItemType, ranked: seq<Candidate>, limit: int, quota: int)
    ensures forall p | p in Positions(anchor, ranked, limit, quota) :: p < |ranked|
  {
    if limit > 0 {
      PositionsAreKept(anchor, ranked, limit, quota);
    }
  }

  function CrossTypeQuotaApplied(anchor: ItemType, ranked: seq<Candidate>, limit: int, quota: int): seq<Candidate> {
    PositionsInRange(anchor, ranked, limit, quota);
    PickAt(ranked, Positions(anchor, ranked, limit, quota))
  }

  method ApplyCrossTypeQuota(anchor: ItemType, ranked: seq<Candidate>, limit: int,
                             quota: int)
    returns (page: seq<Candidate>)
    ensures page == CrossTypeQuotaApplied(anchor, ranked, limit, quota)
  {
    PositionsInRange(anchor, ranked, limit, quota);
    if limit <= 0 {
      assert Positions(anchor, ranked, limit, quota) == [];
      return [];
    }
    PositionsAreKept(anchor, ranked, limit, quota);
    if quota <= 0 {
      FirstOnes(anchor, ranked, limit, |ranked|);
      return ranked[..Min(limit, |ranked|)];
    }
    hide Kept, KeptBelow, IsReserved, Positions;
    var reserved := Min(quota, limit);
    ReservedIsPromised(anchor, ranked, limit, quota);
    var chosen := Reserve(anchor, ranked, reserved);
    chosen := Fill(anchor, ranked, reserved, limit - |chosen|, chosen);
    SortedIsKept(anchor, ranked, reserved, limit - Promised(anchor, ranked, limit, quota), chosen, |ranked|);
    page := PickAt(ranked, SortedBelow(chosen, |ranked|));
  }

  /** Reserving more slots than there are cross-type items changes nothing. */
  lemma ReservedIsPromised(anchor: ItemType, ranked: seq<Candidate>, limit: int, quota: int)
    requires limit > 0 && quota > 0
    ensures var promised := Promised(anchor, ranked, limit, quota);
      && Min(Min(quota, limit), CrossBefore(anchor, ranked, |ranked|)) == promised
      && forall room: int :: KeptBelow(anchor, ranked, Min(quota, limit), room, |ranked|)
                          == KeptBelow(anchor, ranked, promised, room, |ranked|)
  {
    forall room: int
      ensures KeptBelow(anchor, ranked, Min(quota, limit), room, |ranked|)
           == KeptBelow(anchor, ranked, Promised(anchor, ranked, limit, quota), room, |ranked|)
    {
      SameKept(anchor, ranked, Min(quota, limit), room, |ranked|);
    }
  }

  lemma {:induction false} SameKept(anchor: ItemType, ranked: seq<Candidate>, reserved: nat, room: int, p: nat)
    requires p <= |ranked|
    ensures var promised := Min(reserved, CrossBefore(anchor, ranked, |ranked|));
      KeptBelow(anchor, ranked, reserved, room, p) == KeptBelow(anchor, ranked, promised, room, p)
  {
    if p > 0 {
      SameKept(anchor, ranked, reserved, room, p - 1);
      CrossBeforeGrows(anchor, ranked, p, |ranked|);
      CrossBeforeGrows(anchor, ranked, p - 1, |ranked|);
    }
  }

  lemma {:induction false} CrossBeforeGrows(anchor: ItemType, ranked: seq<Candidate>, p: nat, q: nat)
    requires p <= q <= |ranked|
    ensures CrossBefore(anchor, ranked, p) <= CrossBefore(anchor, ranked, q)
    decreases q
  {
    if p < q {
      CrossBeforeGrows(anchor, ranked, p, q - 1);
    }
  }

  /** With nothing reserved, the kept positions are the first `limit`. */
  lemma {:induction false} FirstOnes(anchor: ItemType, ranked: seq<Candidate>, limit: nat, p: nat)
    requires p <= |ranked|
    ensures KeptBelow(anchor, ranked, 0, limit, p) == seq(Min(limit, p), i => i)
  {
    if p > 0 {
      FirstOnes(anchor, ranked, limit, p - 1);
    }
  }

  // ---- what the quota guarantees

  /** How many of the positions are of another type. */
  function CrossAmong(anchor: ItemType, ranked: seq<Candidate>, positions: seq<nat>): nat {
    if positions == [] then 0
    else
      var last := |positions| - 1;
      CrossAmong(anchor, ranked, positions[..last]) + if IsCross(anchor, ranked, positions[last]) then 1 else 0
  }

  lemma {:induction false} KeptCross(anchor: ItemType, ranked: seq<Candidate>, reserved: nat, room: int, p: nat)
    requires p <= |ranked|
    ensures CrossAmong(anchor, ranked, KeptBelow(anchor, ranked, reserved, room, p))
         >= Min(reserved, CrossBefore(anchor, ranked, p))
  {
    hide KeptBelow, CrossAmong;
    if p == 0 {
      KeptOfNone(anchor, ranked, reserved, room);
    } else {
      KeptCross(anchor, ranked, reserved, room, p - 1);
      KeptStep(anchor, ranked, reserved, room, p - 1);
      var kept := KeptBelow(anchor, ranked, reserved, room, p - 1);
      CrossAmongStep(anchor, ranked, kept, p - 1);
      assert kept + [] == kept;
    }
  }

  lemma CrossAmongStep(anchor: ItemType, ranked: seq<Candidate>, positions: seq<nat>, p: nat)
    ensures CrossAmong(anchor, ranked, positions + [p])
         == CrossAmong(anchor, ranked, positions) + if IsCross(anchor, ranked, p) then 1 else 0
  {
    assert (positions + [p])[..|positions|] == positions;
  }

  /** The page holds everything the limit allows, and the reserved cross-type items. */
  lemma KeptTotal(anchor: ItemType, ranked: seq<Candidate>, limit: nat, reserved: nat)
    requires reserved <= limit && reserved <= CrossBefore(anchor, ranked, |ranked|)
    ensures var kept := KeptBelow(anchor, ranked, reserved, limit - reserved, |ranked|);
      |kept| == Min(limit, |ranked|) && CrossAmong(anchor, ranked, kept) >= reserved
  {
    hide Kept, KeptBelow, CrossAmong, CrossBefore;
    KeptCount(anchor, ranked, reserved, limit - reserved, |ranked|);
    KeptCross(anchor, ranked, reserved, limit - reserved, |ranked|);
  }

  lemma PromisedBounds(anchor: ItemType, ranked: seq<Candidate>, limit: nat, quota: int)
    ensures Promised(anchor, ranked, limit, quota) <= limit
    ensures Promised(anchor, ranked, limit, quota) <= CrossBefore(anchor, ranked, |ranked|)
  {
  }

  /** Main result: the page is a subsequence of the ranked list, as long as it can be, with the
      promised number of cross-type items. */
  lemma QuotaIsHonoured(anchor: ItemType, ranked: seq<Candidate>, limit: int, quota: int)
    ensures var positions := Positions(anchor, ranked, limit, quota);
      && Ascending(positions) && (forall p | p in positions :: p < |ranked|)
      && |positions| == Max(0, Min(limit, |ranked|))
      && CrossAmong(anchor, ranked, positions) >= Promised(anchor, ranked, limit, quota)
      && CrossTypeQuotaApplied(anchor, ranked, limit, quota) == PickAt(ranked, positions)
  {
    hide CrossTypeQuotaApplied, Positions, PickAt, CrossAmong, Promised, Ascending;
    if limit <= 0 {
      EmptyPage(anchor, ranked, limit, quota);
    } else {
      FullPage(anchor, ranked, limit, quota);
    }
  }

  lemma EmptyPage(anchor: ItemType, ranked: seq<Candidate>, limit: int, quota: int)
    requires limit <= 0
    ensures Positions(anchor, ranked, limit, quota) == [] && Ascending([])
    ensures CrossAmong(anchor, ranked, []) >= Promised(anchor, ranked, limit, quota)
    ensures CrossTypeQuotaApplied(anchor, ranked, limit, quota) == PickAt(ranked, [])
  {
    hide CrossBefore;
  }

  lemma FullPage(anchor: ItemType, ranked: seq<Candidate>, limit: nat, quota: int)
    requires limit > 0
    ensures var positions := Positions(anchor, ranked, limit, quota);
      && Ascending(positions) && (forall p | p in positions :: p < |ranked|)
      && |positions| == Min(limit, |ranked|)
      && CrossAmong(anchor, ranked, positions) >= Promised(anchor, ranked, limit, quota)
      && CrossTypeQuotaApplied(anchor, ranked, limit, quota) == PickAt(ranked, positions)
  {
    hide Kept, KeptBelow, OnePass, CrossAmong, CrossBefore, Promised, Ascending, PickAt;
    var reserved := Promised(anchor, ranked, limit, quota);
    PromisedBounds(anchor, ranked, limit, quota);
    PositionsAreKept(anchor, ranked, limit, quota);
    KeptTotal(anchor, ranked, limit, reserved);
    KeptBelowAscends(anchor, ranked, reserved, limit - reserved, |ranked|);
  }

  lemma {:induction false} CrossAmongPrefix(anchor: ItemType, ranked: seq<Candidate>, positions: seq<nat>, k: nat)
    requires k <= |positions|
    ensures CrossAmong(anchor, ranked, positions) <= CrossAmong(anchor, ranked, positions[..k]) + (|positions| - k)
    decreases |positions|
  {
    if k < |positions| {
      var last := |positions| - 1;
      CrossAmongPrefix(anchor, ranked, positions[..last], k);
      assert positions[..last][..k] == positions[..k];
    } else {
      assert positions[..k] == positions;
    }
  }

  lemma {:induction false} CrossAmongBelow(anchor: ItemType, ranked: seq<Candidate>, positions: seq<nat>, p: nat)
    requires Ascending(positions) && p <= |ranked| && forall x | x in positions :: x < p
    ensures CrossAmong(anchor, ranked, positions) <= CrossBefore(anchor, ranked, p)
    ensures |positions| <= p
  {
    if positions != [] {
      var last := |positions| - 1;
      var x := positions[last];
      assert x in positions;
      CrossAmongBelow(anchor, ranked, positions[..last], x);
      CrossBeforeGrows(anchor, ranked, x + 1, p);
    }
  }

  /** Main result, optimality: any other choice of as many positions with the promised number of
      cross-type items is, place by place, no further up the list. */
  lemma QuotaIsOptimal(anchor: ItemType, ranked: seq<Candidate>, limit: int, quota: int, other: seq<nat>, k: nat)
    requires Ascending(other) && (forall p | p in other :: p < |ranked|)
    requires |other| == Max(0, Min(limit, |ranked|))
    requires CrossAmong(anchor, ranked, other) >= Promised(anchor, ranked, limit, quota)
    requires k < |other|
    ensures |Positions(anchor, ranked, limit, quota)| == |other|
    ensures Positions(anchor, ranked, limit, quota)[k] <= other[k]
  {
    hide Kept, KeptBelow, OnePass, Positions, CrossAmong, CrossBefore, CrossTypeQuotaApplied, Promised, PickAt;
    PromisedBounds(anchor, ranked, limit, quota);
    QuotaIsHonoured(anchor, ranked, limit, quota);
    PositionsAreKept(anchor, ranked, limit, quota);
    var reserved := Promised(anchor, ranked, limit, quota);
    assert other[k] in other;
    var p := other[k] + 1;
    KeptAtLeast(anchor, ranked, limit, reserved, other, k);
    KeptBelowExtends(anchor, ranked, reserved, limit - reserved, p, |ranked|);
    KeptBelowAscends(anchor, ranked, reserved, limit - reserved, p);
    var below := KeptBelow(anchor, ranked, reserved, limit - reserved, p);
    assert below[k] < p;
    PrefixAt(below, KeptBelow(anchor, ranked, reserved, limit - reserved, |ranked|), k);
  }

  lemma PrefixAt(a: seq<nat>, b: seq<nat>, k: nat)
    requires a <= b && k < |a|
    ensures k < |b| && a[k] == b[k]
  {
  }

  /** Up to its place `k`, another choice has no more positions than the kept ones. */
  lemma KeptAtLeast(anchor: ItemType, ranked: seq<Candidate>, limit: nat, reserved: nat, other: seq<nat>, k: nat)
    requires Ascending(other) && k < |other| == Min(limit, |ranked|) && other[k] < |ranked|
    requires reserved <= limit && CrossAmong(anchor, ranked, other) >= reserved
    ensures |KeptBelow(anchor, ranked, reserved, limit - reserved, other[k] + 1)| > k
  {
    hide Kept, KeptBelow, CrossAmong, CrossBefore;
    var p := other[k] + 1;
    var head := other[..k + 1];
    CrossAmongPrefix(anchor, ranked, other, k + 1);
    assert forall x | x in head :: x < p;
    CrossAmongBelow(anchor, ranked, head, p);
    KeptCount(anchor, ranked, reserved, limit - reserved, p);
  }

  // ---- who may be outranked

  lemma {:induction false} InKeptBelow(anchor: ItemType, ranked: seq<Candidate>, reserved: nat, room: int, p: nat)
    requires p <= |ranked|
    ensures forall q: nat ::
      q in KeptBelow(anchor, ranked, reserved, room, p) <==> q < p && Kept(anchor, ranked, reserved, room, q)
  {
    hide Kept;
    if p > 0 {
      InKeptBelow(anchor, ranked, reserved, room, p - 1);
    }
  }

  /** Once a position is left out, only reserved ones are kept. */
  lemma {:induction false} OnlyReservedAfter(anchor: ItemType, ranked: seq<Candidate>, reserved: nat, room: int,
                                             p: nat, n: nat)
    requires p <= n <= |ranked| && p < |ranked|
    requires !Kept(anchor, ranked, reserved, room, p) && CrossBefore(anchor, ranked, p) <= reserved
    ensures CrossAmong(anchor, ranked, KeptBelow(anchor, ranked, reserved, room, n)) <= reserved
    ensures CrossAmong(anchor, ranked, KeptBelow(anchor, ranked, reserved, room, n)) <= CrossBefore(anchor, ranked, n)
    decreases n
  {
    hide CrossAmong, KeptBelow, Ascending;
    KeptBelowAscends(anchor, ranked, reserved, room, n);
    var kept := KeptBelow(anchor, ranked, reserved, room, n);
    assert forall x | x in kept :: x < n;
    CrossAmongBelow(anchor, ranked, kept, n);
    if p < n {
      OnlyReservedAfter(anchor, ranked, reserved, room, p, n - 1);
      KeptStep(anchor, ranked, reserved, room, n - 1);
      NonReservedGrow(anchor, ranked, reserved, p, n - 1);
      var before := KeptBelow(anchor, ranked, reserved, room, n - 1);
      CrossAmongStep(anchor, ranked, before, n - 1);
      assert before + [] == before;
    }
  }

  /** Main result: a candidate left out is outranked by everything kept, save that one of the anchor's type
      may give way to one of another type, and only on a page with no more of those than it must have. */
  lemma OnlyThePromiseOvertakes(anchor: ItemType, ranked: seq<Candidate>, limit: int, quota: int, p: nat, q: nat)
    requires p < q < |ranked|
    requires var positions := Positions(anchor, ranked, limit, quota); p !in positions && q in positions
    ensures ranked[p].itemType == anchor && ranked[q].itemType != anchor
    ensures CrossAmong(anchor, ranked, Positions(anchor, ranked, limit, quota)) <= Min(quota, limit)
  {
    hide Positions, KeptBelow, CrossAmong, CrossBefore;
    if limit <= 0 {
      EmptyPage(anchor, ranked, limit, quota);
    } else {
      var reserved := Promised(anchor, ranked, limit, quota);
      var room := limit - reserved;
      PositionsAreKept(anchor, ranked, limit, quota);
      InKeptBelow(anchor, ranked, reserved, room, |ranked|);
      NonReservedGrow(anchor, ranked, reserved, p, q);
      CrossBeforeGrows(anchor, ranked, p, q);
      OnlyReservedAfter(anchor, ranked, reserved, room, p, |ranked|);
    }
  }
}
