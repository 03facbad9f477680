/** The diversifying re-rank of `/similar`: a greedy pick with a penalty that compounds for every
    group (creator or franchise) a candidate shares with something already picked. */
module SimilarRanking {
  import opened Common

  datatype Candidate = Candidate(itemType: ItemType, itemId: int, title: string, score: real, creatorIds: set<int>)

  datatype GroupKey = Creator(personId: int) | Franchise(name: string)

  /** How a title names its franchise, if it does. */
  type FranchiseKey = string -> Option<string>

  function GroupKeys(franchise: FranchiseKey, c: Candidate): set<GroupKey> {
    (set personId | personId in c.creatorIds :: Creator(personId)) +
    (if franchise(c.title).Some? then {Franchise(franchise(c.title).value)} else {})
  }

  // ---- the score order

  /** Type names compare alphabetically. */
  function TypeRank(t: ItemType): int {
    match t
    case Book => 0
    case Game => 1
    case Movie => 2
    case Series => 3
  }

  /** The sort key is score descending, then type, then id. */
  predicate RanksBefore(a: Candidate, b: Candidate) {
    || a.score > b.score
    || (a.score == b.score && TypeRank(a.itemType) < TypeRank(b.itemType))
    || (a.score == b.score && TypeRank(a.itemType) == TypeRank(b.itemType) && a.itemId <= b.itemId)
  }

  predicate Sorted(s: seq<Candidate>) {
    forall i, j | 0 <= i < j < |s| :: RanksBefore(s[i], s[j])
  }

  function Insert(c: Candidate, s: seq<Candidate>): seq<Candidate> {
    if s == [] || RanksBefore(c, s[0]) then [c] + s else [s[0]] + Insert(c, s[1..])
  }

  /** The stable sort of the candidates by the key. */
  function Ranked(cs: seq<Candidate>): seq<Candidate> {
    if cs == [] then [] else Insert(cs[0], Ranked(cs[1..]))
  }

  lemma {:induction false} InsertSorts(c: Candidate, s: seq<Candidate>)
    requires Sorted(s)
    ensures Sorted(Insert(c, s))
    ensures multiset(Insert(c, s)) == multiset{c} + multiset(s)
  {
    hide RanksBefore, Sorted;
    if s == [] {
      SortedCons(c, s);
    } else {
      var head, rest := s[0], s[1..];
      assert s == [head] + rest;
      SortedTail(s);
      if RanksBefore(c, head) {
        RanksBeforeAll(c, s);
        SortedCons(c, s);
      } else {
        InsertSorts(c, rest);
        RanksOneWay(c, head);
        var r := Insert(c, rest);
        forall x | x in r
          ensures RanksBefore(head, x)
        {
          assert x in multiset(r);
          assert x == c || x in rest;
        }
        SortedCons(head, r);
      }
    }
  }

  lemma RanksOneWay(a: Candidate, b: Candidate)
    ensures RanksBefore(a, b) || RanksBefore(b, a)
  {
  }

  lemma SortedCons(c: Candidate, s: seq<Candidate>)
    requires Sorted(s) && forall x | x in s :: RanksBefore(c, x)
    ensures Sorted([c] + s)
  {
    hide RanksBefore;
    var all := [c] + s;
    forall i, j | 0 <= i < j < |all|
      ensures RanksBefore(all[i], all[j])
    {
      assert all[j] == s[j - 1] && s[j - 1] in s;
      assert i > 0 ==> all[i] == s[i - 1];
    }
  }

  lemma SortedTail(s: seq<Candidate>)
    requires Sorted(s) && s != []
    ensures Sorted(s[1..]) && forall x | x in s[1..] :: RanksBefore(s[0], x)
  {
    hide RanksBefore;
    var rest := s[1..];
    forall i, j | 0 <= i < j < |rest|
      ensures RanksBefore(rest[i], rest[j])
    {
      assert rest[i] == s[i + 1] && rest[j] == s[j + 1];
    }
    forall x | x in rest
      ensures RanksBefore(s[0], x)
    {
      var j :| 0 <= j < |rest| && rest[j] == x;
      assert s[j + 1] == x;
    }
  }

  lemma RanksBeforeAll(c: Candidate, s: seq<Candidate>)
    requires Sorted(s) && s != [] && RanksBefore(c, s[0])
    ensures forall x | x in s :: RanksBefore(c, x)
  {
    forall x | x in s
      ensures RanksBefore(c, x)
    {
      var j :| 0 <= j < |s| && s[j] == x;
      assert j > 0 ==> RanksBefore(s[0], s[j]);
    }
  }

  lemma {:induction false} RankedSorts(cs: seq<Candidate>)
    ensures Sorted(Ranked(cs))
    ensures multiset(Ranked(cs)) == multiset(cs)
  {
    if cs != [] {
      assert cs == [cs[0]] + cs[1..];
      RankedSorts(cs[1..]);
      InsertSorts(cs[0], Ranked(cs[1..]));
    }
  }

  // ---- the penalty

  function Power(base: real, n: nat): real {
    if n == 0 then 1.0 else base * Power(base, n - 1)
  }

  lemma {:induction false} PowerInUnit(base: real, n: nat)
    requires 0.0 <= base <= 1.0
    ensures 0.0 <= Power(base, n) <= 1.0
  {
    if n > 0 {
      PowerInUnit(base, n - 1);
      var p := Power(base, n - 1);
      assert 0.0 <= base * p;
      assert base * p <= 1.0 * p;
    }
  }

  /** How many group memberships of `taken` fall on one of `keys`, each counted. */
  function Repeats(franchise: FranchiseKey, keys: set<GroupKey>, taken: seq<Candidate>): nat {
    if taken == [] then 0
    else
      var last := |taken| - 1;
      Repeats(franchise, keys, taken[..last]) + |keys * GroupKeys(franchise, taken[last])|
  }

  function Penalised(score: real, factor: real, repeats: nat): real {
    score * Power(factor, repeats)
  }

  lemma Monotone(a: real, b: real, f: real)
    requires a <= b && 0.0 <= f
    ensures a * f <= b * f
  {
  }

  lemma PenaltyOnlyLowers(score: real, factor: real, repeats: nat)
    requires 0.0 <= factor <= 1.0
    ensures repeats == 0 ==> Penalised(score, factor, repeats) == score
    ensures score >= 0.0 ==> Penalised(score, factor, repeats) <= score
  {
    PowerInUnit(factor, repeats);
    if score >= 0.0 {
      Monotone(Power(factor, repeats), 1.0, score);
    }
  }

  lemma {:induction false} PowerBelowOne(base: real, n: nat)
    requires 0.0 <= base < 1.0 && n > 0
    ensures 0.0 <= Power(base, n) < 1.0
  {
    PowerInUnit(base, n - 1);
    var p := Power(base, n - 1);
    Monotone(p, 1.0, base);
  }

  /** With a penalty in force the score order is kept from above exactly for the scores that are not
      negative: a negative one is lifted by it. */
  lemma PenaltyLowersExactly(score: real, factor: real, repeats: nat)
    requires 0.0 <= factor < 1.0 && repeats > 0
    ensures Penalised(score, factor, repeats) <= score <==> score >= 0.0
  {
    PowerBelowOne(factor, repeats);
    var p := Power(factor, repeats);
    if score >= 0.0 {
      Monotone(p, 1.0, score);
    } else {
      StrictlyMonotone(p, 1.0, -score);
    }
  }

  lemma StrictlyMonotone(a: real, b: real, f: real)
    requires a < b && 0.0 < f
    ensures a * f < b * f
  {
  }

  lemma PenaltyKeepsOrder(a: real, b: real, factor: real, repeats: nat)
    requires 0.0 <= factor <= 1.0 && a <= b
    ensures Penalised(a, factor, repeats) <= Penalised(b, factor, repeats)
  {
    PowerInUnit(factor, repeats);
    Monotone(a, b, Power(factor, repeats));
  }

  /** The score of `c` after the penalties that `taken` brings on it. */
  function Adjusted(franchise: FranchiseKey, factor: real, c: Candidate, taken: seq<Candidate>): real {
    Penalised(c.score, factor, Repeats(franchise, GroupKeys(franchise, c), taken))
  }

  /** The first index with the highest adjusted score among the first `n`. */
  function BestIndex(franchise: FranchiseKey, factor: real, rest: seq<Candidate>, taken: seq<Candidate>,
                     n: nat): (b: nat)
    requires 1 <= n <= |rest|
    ensures b < n
  {
    if n == 1 then 0
    else
      var b := BestIndex(franchise, factor, rest, taken, n - 1);
      if Adjusted(franchise, factor, rest[n - 1], taken) > Adjusted(franchise, factor, rest[b], taken) then n - 1 else b
  }

  lemma {:induction false} BestIndexIsBest(franchise: FranchiseKey, factor: real, rest: seq<Candidate>,
                                           taken: seq<Candidate>, n: nat)
    requires 1 <= n <= |rest|
    ensures var b := BestIndex(franchise, factor, rest, taken, n);
      && (forall j | 0 <= j < n ::
            Adjusted(franchise, factor, rest[j], taken) <= Adjusted(franchise, factor, rest[b], taken))
      && (forall j | 0 <= j < b ::
            Adjusted(franchise, factor, rest[j], taken) < Adjusted(franchise, factor, rest[b], taken))
  {
    hide Adjusted;
    if n > 1 {
      BestIndexIsBest(franchise, factor, rest, taken, n - 1);
    }
  }

  function Greedy(franchise: FranchiseKey, factor: real, rest: seq<Candidate>, taken: seq<Candidate>): seq<Candidate>
    decreases |rest|
  {
    if rest == [] then []
    else
      var b := BestIndex(franchise, factor, rest, taken, |rest|);
      [rest[b]] + Greedy(franchise, factor, Without(rest, b), taken + [rest[b]])
  }

  function Factor(penalty: real): real {
    if 1.0 - penalty > 0.0 then 1.0 - penalty else 0.0
  }

  function Diversified(franchise: FranchiseKey, cs: seq<Candidate>, penalty: real): seq<Candidate> {
    if penalty <= 0.0 || |cs| < 2 then Ranked(cs) else Greedy(franchise, Factor(penalty), Ranked(cs), [])
  }

  // ---- the loop, with its dictionary of taken groups

  ghost function TakenCount(franchise: FranchiseKey, key: GroupKey, taken: seq<Candidate>): nat {
    Repeats(franchise, {key}, taken)
  }

  lemma {:induction false} RepeatsAdds(franchise: FranchiseKey, keys: set<GroupKey>, key: GroupKey,
                                       taken: seq<Candidate>)
    requires key !in keys
    ensures Repeats(franchise, keys + {key}, taken)
         == Repeats(franchise, keys, taken) + TakenCount(franchise, key, taken)
  {
    if taken != [] {
      var last := |taken| - 1;
      RepeatsAdds(franchise, keys, key, taken[..last]);
      var g := GroupKeys(franchise, taken[last]);
      assert (keys + {key}) * g == keys * g + {key} * g;
    }
  }

  lemma {:induction false} RepeatsOfNone(franchise: FranchiseKey, taken: seq<Candidate>)
    ensures Repeats(franchise, {}, taken) == 0
  {
    if taken != [] {
      RepeatsOfNone(franchise, taken[..|taken| - 1]);
      assert {} * GroupKeys(franchise, taken[|taken| - 1]) == {};
    }
  }

  function CountOf(takenGroups: map<GroupKey, nat>, key: GroupKey): nat {
    if key in takenGroups then takenGroups[key] else 0
  }

  /** The dictionary holds, for each group, how many of the selected candidates are in it. */
  ghost predicate Counts(franchise: FranchiseKey, takenGroups: map<GroupKey, nat>, selected: seq<Candidate>) {
    forall key :: CountOf(takenGroups, key) == TakenCount(franchise, key, selected)
  }

  lemma CountsOfNothing(franchise: FranchiseKey)
    ensures Counts(franchise, map[], [])
  {
  }

  method CountRepeats(franchise: FranchiseKey, c: Candidate, takenGroups: map<GroupKey, nat>,
                      ghost selected: seq<Candidate>)
    returns (repeats: nat)
    requires Counts(franchise, takenGroups, selected)
    ensures repeats == Repeats(franchise, GroupKeys(franchise, c), selected)
  {
    var keys := GroupKeys(franchise, c);
    repeats := 0;
    var rest := keys;
    RepeatsOfNone(franchise, selected);
    while rest != {}
      invariant rest <= keys
      invariant repeats == Repeats(franchise, keys - rest, selected)
      decreases rest
    {
      var key :| key in rest;
      RepeatsAdds(franchise, keys - rest, key, selected);
      assert keys - (rest - {key}) == keys - rest + {key};
      repeats := repeats + CountOf(takenGroups, key);
      rest := rest - {key};
    }
    assert keys - rest == keys;
  }

  method TakeGroups(franchise: FranchiseKey, chosen: Candidate, takenGroups: map<GroupKey, nat>,
                    ghost selected: seq<Candidate>)
    returns (after: map<GroupKey, nat>)
    requires Counts(franchise, takenGroups, selected)
    ensures Counts(franchise, after, selected + [chosen])
  {
    after := takenGroups;
    hide GroupKeys;
    var keys := GroupKeys(franchise, chosen);
    var rest := keys;
    while rest != {}
      invariant rest <= keys
      invariant forall key ::
        CountOf(after, key) == CountOf(takenGroups, key) + (if key in keys - rest then 1 else 0)
      decreases rest
    {
      var key :| key in rest;
      after := after[key := CountOf(after, key) + 1];
      rest := rest - {key};
    }
    forall key
      ensures TakenCount(franchise, key, selected + [chosen])
           == TakenCount(franchise, key, selected) + (if key in keys then 1 else 0)
    {
      assert (selected + [chosen])[..|selected|] == selected;
      assert {key} * keys == if key in keys then {key} else {};
    }
  }

  method PickBest(franchise: FranchiseKey, factor: real, remaining: seq<Candidate>,
                  takenGroups: map<GroupKey, nat>, ghost selected: seq<Candidate>)
    returns (bestIndex: nat)
    requires remaining != [] && Counts(franchise, takenGroups, selected)
    ensures bestIndex == BestIndex(franchise, factor, remaining, selected, |remaining|)
  {
    hide Repeats, Penalised, Counts, GroupKeys;
    bestIndex := 0;
    var bestScore: Option<real> := None;
    var index := 0;
    while index < |remaining|
      invariant 0 <= index <= |remaining|
      invariant bestScore.None? <==> index == 0
      invariant index > 0 ==> bestIndex == BestIndex(franchise, factor, remaining, selected, index)
      invariant index > 0 ==> bestScore.value == Adjusted(franchise, factor, remaining[bestIndex], selected)
    {
      var repeats := CountRepeats(franchise, remaining[index], takenGroups, selected);
      var adjusted := Penalised(remaining[index].score, factor, repeats);
      if bestScore.None? || adjusted > bestScore.value {
        bestScore := Some(adjusted);
        bestIndex := index;
      }
      index := index + 1;
    }
  }

  method Diversify(franchise: FranchiseKey, candidates: seq<Candidate>,
                   penalty: real)
    returns (selected: seq<Candidate>)
    ensures selected == Diversified(franchise, candidates, penalty)
  {
    hide Counts, GroupKeys, Ranked, Adjusted, BestIndex, Sorted;
    var ranked := Ranked(candidates);
    RankedSorts(candidates);
    assert |ranked| == |candidates| by {
      assert |multiset(ranked)| == |multiset(candidates)|;
    }
    if penalty <= 0.0 || |ranked| < 2 {
      return ranked;
    }
    var factor := Factor(penalty);
    var remaining := ranked;
    var takenGroups: map<GroupKey, nat> := map[];
    selected := [];
    CountsOfNothing(franchise);
    while remaining != []
      invariant Counts(franchise, takenGroups, selected)
      invariant selected + Greedy(franchise, factor, remaining, selected) == Greedy(franchise, factor, ranked, [])
      decreases |remaining|
    {
      var bestIndex := PickBest(franchise, factor, remaining, takenGroups, selected);
      var chosen := remaining[bestIndex];
      remaining := Without(remaining, bestIndex);
      takenGroups := TakeGroups(franchise, chosen, takenGroups, selected);
      selected := selected + [chosen];
    }
  }

  // ---- what the re-rank guarantees

  lemma {:induction false} GreedyPermutes(franchise: FranchiseKey, factor: real, rest: seq<Candidate>,
                                          taken: seq<Candidate>)
    ensures multiset(Greedy(franchise, factor, rest, taken)) == multiset(rest)
    decreases |rest|
  {
    hide BestIndex, Adjusted, GroupKeys;
    if rest != [] {
      var b := BestIndex(franchise, factor, rest, taken, |rest|);
      GreedyPermutes(franchise, factor, Without(rest, b), taken + [rest[b]]);
      assert rest == rest[..b] + [rest[b]] + rest[b + 1..];
    }
  }

  /** Main result: the re-rank demotes and never drops or repeats a candidate. */
  lemma DiversifiedPermutes(franchise: FranchiseKey, cs: seq<Candidate>, penalty: real)
    ensures multiset(Diversified(franchise, cs, penalty)) == multiset(cs)
  {
    RankedSorts(cs);
    GreedyPermutes(franchise, Factor(penalty), Ranked(cs), []);
  }

  /** Each pick is at least as good, at the penalties then in force, as everything picked later. */
  lemma {:induction false} EveryPickIsBest(franchise: FranchiseKey, factor: real, rest: seq<Candidate>,
                                           taken: seq<Candidate>, j: nat, k: nat)
    requires j < k < |Greedy(franchise, factor, rest, taken)|
    ensures var out := Greedy(franchise, factor, rest, taken);
      Adjusted(franchise, factor, out[k], taken + out[..j]) <= Adjusted(franchise, factor, out[j], taken + out[..j])
    decreases |rest|
  {
    hide BestIndex, Adjusted, GroupKeys;
    var out := Greedy(franchise, factor, rest, taken);
    var b := BestIndex(franchise, factor, rest, taken, |rest|);
    var tail := Greedy(franchise, factor, Without(rest, b), taken + [rest[b]]);
    if j == 0 {
      BestIndexIsBest(franchise, factor, rest, taken, |rest|);
      GreedyPermutes(franchise, factor, rest, taken);
      assert out[k] in multiset(out);
      assert out[k] in rest;
      assert taken + out[..0] == taken;
    } else {
      EveryPickIsBest(franchise, factor, Without(rest, b), taken + [rest[b]], j - 1, k - 1);
      assert taken + out[..j] == taken + [rest[b]] + tail[..j - 1];
    }
  }

  lemma {:induction false} RepeatsOfStrangers(franchise: FranchiseKey, keys: set<GroupKey>, taken: seq<Candidate>)
    requires forall i | 0 <= i < |taken| :: keys !! GroupKeys(franchise, taken[i])
    ensures Repeats(franchise, keys, taken) == 0
  {
    if taken != [] {
      RepeatsOfStrangers(franchise, keys, taken[..|taken| - 1]);
      assert keys * GroupKeys(franchise, taken[|taken| - 1]) == {};
    }
  }

  /** Position `k` shares no group with any other position. */
  ghost predicate Alone(franchise: FranchiseKey, s: seq<Candidate>, k: nat)
    requires k < |s|
  {
    forall i | 0 <= i < |s| && i != k :: GroupKeys(franchise, s[k]) !! GroupKeys(franchise, s[i])
  }

  /** Main result: a candidate that shares no group with any other is preceded only by candidates
      scoring at least as high, or by repeated candidates whose score is negative, which the penalty
      lifts instead of lowering. With no negative score only the first case is left. */
  lemma LonersAreNotOvertaken(franchise: FranchiseKey, cs: seq<Candidate>, penalty: real, j: nat, k: nat)
    requires j < k < |Diversified(franchise, cs, penalty)|
    requires Alone(franchise, Diversified(franchise, cs, penalty), k)
    ensures var out := Diversified(franchise, cs, penalty);
      || out[j].score >= out[k].score
      || (out[j].score < 0.0 && Repeats(franchise, GroupKeys(franchise, out[j]), out[..j]) > 0)
  {
    hide Greedy, Penalised, GroupKeys, Ranked, Repeats;
    var out := Diversified(franchise, cs, penalty);
    RankedSorts(cs);
    if penalty <= 0.0 || |cs| < 2 {
      assert RanksBefore(out[j], out[k]);
    } else {
      var factor := Factor(penalty);
      EveryPickIsBest(franchise, factor, Ranked(cs), [], j, k);
      assert [] + out[..j] == out[..j];
      RepeatsOfStrangers(franchise, GroupKeys(franchise, out[k]), out[..j]);
      PenaltyOnlyLowers(out[j].score, factor, Repeats(franchise, GroupKeys(franchise, out[j]), out[..j]));
      PenaltyOnlyLowers(out[k].score, factor, 0);
    }
  }

  // ---- exactly when a loner can be overtaken

  lemma BestIsFirstBest(franchise: FranchiseKey, factor: real, rest: seq<Candidate>, taken: seq<Candidate>,
                        other: Candidate)
    requires Sorted(rest) && rest != []
    requires other in Without(rest, BestIndex(franchise, factor, rest, taken, |rest|))
    ensures var best := rest[BestIndex(franchise, factor, rest, taken, |rest|)];
      Adjusted(franchise, factor, other, taken) < Adjusted(franchise, factor, best, taken) || RanksBefore(best, other)
  {
    hide BestIndex, Adjusted, RanksBefore;
    BestIndexIsBest(franchise, factor, rest, taken, |rest|);
    var b := BestIndex(franchise, factor, rest, taken, |rest|);
    var m :| 0 <= m < |Without(rest, b)| && Without(rest, b)[m] == other;
    assert other == rest[if m < b then m else m + 1];
  }

  /** As `EveryPickIsBest`, and between equals the one that ranks first is picked. */
  lemma {:induction false} EveryPickIsFirstBest(franchise: FranchiseKey, factor: real, rest: seq<Candidate>,
                                                taken: seq<Candidate>, j: nat, k: nat)
    requires Sorted(rest) && j < k < |Greedy(franchise, factor, rest, taken)|
    ensures var out := Greedy(franchise, factor, rest, taken);
      || Adjusted(franchise, factor, out[k], taken + out[..j]) < Adjusted(franchise, factor, out[j], taken + out[..j])
      || RanksBefore(out[j], out[k])
    decreases |rest|
  {
    hide BestIndex, Adjusted, GroupKeys, RanksBefore, Sorted;
    var out := Greedy(franchise, factor, rest, taken);
    var b := BestIndex(franchise, factor, rest, taken, |rest|);
    var left := Without(rest, b);
    var tail := Greedy(franchise, factor, left, taken + [rest[b]]);
    if j == 0 {
      GreedyPermutes(franchise, factor, left, taken + [rest[b]]);
      assert out[k] == tail[k - 1] && tail[k - 1] in multiset(tail);
      BestIsFirstBest(franchise, factor, rest, taken, out[k]);
      assert taken + out[..0] == taken;
    } else {
      WithoutStaysSorted(rest, b);
      EveryPickIsFirstBest(franchise, factor, left, taken + [rest[b]], j - 1, k - 1);
      assert taken + out[..j] == taken + [rest[b]] + tail[..j - 1];
    }
  }

  lemma WithoutStaysSorted(rest: seq<Candidate>, b: nat)
    requires Sorted(rest) && b < |rest|
    ensures Sorted(Without(rest, b))
  {
    hide RanksBefore;
    var left := Without(rest, b);
    forall i, j | 0 <= i < j < |left|
      ensures RanksBefore(left[i], left[j])
    {
      assert left[i] == rest[if i < b then i else i + 1] && left[j] == rest[if j < b then j else j + 1];
    }
  }

  /** The first pick is the top of the score order, and the rest is a permutation of the rest. */
  lemma FirstPickIsTop(franchise: FranchiseKey, factor: real, rest: seq<Candidate>)
    requires Sorted(rest) && rest != []
    ensures var out := Greedy(franchise, factor, rest, []);
      out != [] && out[0] == rest[0] && multiset(out[1..]) == multiset(rest[1..])
  {
    hide BestIndex, GroupKeys;
    BestIndexIsBest(franchise, factor, rest, [], |rest|);
    var b := BestIndex(franchise, factor, rest, [], |rest|);
    assert Adjusted(franchise, factor, rest[0], []) == rest[0].score
      && Adjusted(franchise, factor, rest[b], []) == rest[b].score;
    assert b > 0 ==> RanksBefore(rest[0], rest[b]);
    assert Without(rest, 0) == rest[1..];
    GreedyPermutes(franchise, factor, rest[1..], [] + [rest[0]]);
    assert Greedy(franchise, factor, rest, [])[1..] == Greedy(franchise, factor, rest[1..], [] + [rest[0]]);
  }

  /** No candidate is preceded by a lower score with which, or with anything else, it shares a group. */
  ghost predicate LonersSafe(franchise: FranchiseKey, out: seq<Candidate>) {
    forall a, b | 0 <= a < b < |out| && Alone(franchise, out, b) :: out[a].score >= out[b].score
  }

  /** Two negative scores below the top of the score order, the second lower than the first. */
  ghost predicate Overtakable(ranked: seq<Candidate>) {
    exists j, k :: 0 < j < k < |ranked| && ranked[k].score < ranked[j].score < 0.0
  }

  /** The same candidates with other groups: nothing but the creators may differ, place by place. */
  ghost predicate Regrouped(cs: seq<Candidate>, ds: seq<Candidate>) {
    && |Ranked(ds)| == |Ranked(cs)|
    && forall i | 0 <= i < |Ranked(cs)| :: Ranked(ds)[i] == Ranked(cs)[i].(creatorIds := Ranked(ds)[i].creatorIds)
  }

  lemma OvertakenNeedsTwoNegatives(franchise: FranchiseKey, cs: seq<Candidate>, penalty: real, a: nat, b: nat)
    requires penalty > 0.0 && a < b < |Diversified(franchise, cs, penalty)|
    requires var out := Diversified(franchise, cs, penalty); Alone(franchise, out, b) && out[a].score < out[b].score
    ensures Overtakable(Ranked(cs))
  {
    hide Greedy, Penalised, GroupKeys, Ranked, Repeats;
    var out, rest, factor := Diversified(franchise, cs, penalty), Ranked(cs), Factor(penalty);
    RankedSorts(cs);
    if |cs| >= 2 {
      LonersAreNotOvertaken(franchise, cs, penalty, a, b);
      EveryPickIsFirstBest(franchise, factor, rest, [], a, b);
      assert [] + out[..a] == out[..a];
      RepeatsOfStrangers(franchise, GroupKeys(franchise, out[b]), out[..a]);
      PenaltyOnlyLowers(out[b].score, factor, 0);
      PenaltyKeepsOrder(out[a].score, 0.0, factor, Repeats(franchise, GroupKeys(franchise, out[a]), out[..a]));
      PenaltyOnlyLowers(0.0, factor, Repeats(franchise, GroupKeys(franchise, out[a]), out[..a]));
      assert out[b].score < 0.0;
      if a == 0 {
        RepeatsOfNobody(franchise, GroupKeys(franchise, out[a]));
        assert false;
      }
      assert rest != [];
      FirstPickIsTop(franchise, factor, rest);
      var j := PlaceBelowTop(out, rest, b);
      var k := PlaceBelowTop(out, rest, a);
      assert 0 < j < k < |rest| && rest[k].score < rest[j].score < 0.0;
    }
  }

  lemma RepeatsOfNobody(franchise: FranchiseKey, keys: set<GroupKey>)
    ensures Repeats(franchise, keys, []) == 0
  {
  }

  lemma PlaceBelowTop(out: seq<Candidate>, rest: seq<Candidate>, p: nat) returns (m: nat)
    requires 0 < p < |out| && rest != [] && multiset(out[1..]) == multiset(rest[1..])
    ensures 0 < m < |rest| && rest[m] == out[p]
  {
    assert out[1..][p - 1] == out[p] && out[1..][p - 1] in multiset(out[1..]);
    var i :| 0 <= i < |rest[1..]| && rest[1..][i] == out[p];
    m := i + 1;
  }

  // ---- the grouping that overtakes

  function FirstCreators(n: nat): set<int> {
    if n == 0 then {} else FirstCreators(n - 1) + {n}
  }

  function NoFranchise(title: string): Option<string> { None }

  lemma {:induction false} GroupKeysOfCreators(c: Candidate, n: nat)
    requires c.creatorIds == FirstCreators(n)
    ensures |GroupKeys(NoFranchise, c)| == n
    ensures forall m | m > n :: Creator(m) !in GroupKeys(NoFranchise, c)
    decreases n
  {
    if n > 0 {
      var fewer := c.(creatorIds := FirstCreators(n - 1));
      GroupKeysOfCreators(fewer, n - 1);
      assert GroupKeys(NoFranchise, c) == GroupKeys(NoFranchise, fewer) + {Creator(n)};
    }
  }

  lemma {:induction false} RepeatsAtLeast(franchise: FranchiseKey, keys: set<GroupKey>, taken: seq<Candidate>)
    requires taken != [] && GroupKeys(franchise, taken[0]) == keys
    ensures Repeats(franchise, keys, taken) >= |keys|
  {
    hide GroupKeys;
    if |taken| > 1 {
      RepeatsAtLeast(franchise, keys, taken[..|taken| - 1]);
    } else {
      assert keys * GroupKeys(franchise, taken[0]) == keys;
      assert taken[..0] == [];
      RepeatsOfNobody(franchise, keys);
    }
  }

  /** Compounding wins against any gap: enough repetitions push the factor below any bound. */
  lemma {:induction false} PowerTimesCount(base: real, n: nat)
    requires 0.0 <= base < 1.0
    ensures Power(base, n) * (1.0 + n as real * (1.0 - base)) <= 1.0
  {
    if n > 0 {
      PowerTimesCount(base, n - 1);
      PowerInUnit(base, n - 1);
      var p, g, m := Power(base, n - 1), 1.0 - base, (n - 1) as real;
      assert n as real == m + 1.0;
      OneMoreFactor(m, g);
      Monotone((1.0 - g) * (1.0 + (m + 1.0) * g), 1.0 + m * g, p);
      assert Power(base, n) * (1.0 + n as real * g) == ((1.0 - g) * (1.0 + (m + 1.0) * g)) * p;
    }
  }

  lemma OneMoreFactor(m: real, g: real)
    requires 0.0 <= m && 0.0 < g <= 1.0
    ensures (1.0 - g) * (1.0 + (m + 1.0) * g) <= 1.0 + m * g
  {
    assert (1.0 - g) * (1.0 + (m + 1.0) * g) == 1.0 + m * g - (m + 1.0) * (g * g);
    assert g * g >= 0.0;
    Monotone(0.0, g * g, m + 1.0);
  }

  lemma Reaching(a: real, step: real) returns (n: nat)
    requires 0.0 < a && 0.0 < step
    ensures n > 0 && n as real * step >= a
  {
    var x := a / step;
    assert x * step == a;
    assert x >= 0.0;
    n := x.Floor + 1;
    Monotone(x, n as real, step);
  }

  lemma EnoughRepeats(factor: real, low: real, high: real) returns (n: nat)
    requires 0.0 <= factor < 1.0 && low < high < 0.0
    ensures n > 0 && forall m: nat | m >= n :: Penalised(low, factor, m) > high
  {
    var g, a, b := 1.0 - factor, -low, -high;
    StrictlyMonotone(0.0, b, g);
    n := Reaching(a, g * b);
    hide Power, Penalised;
    forall m: nat | m >= n
      ensures Penalised(low, factor, m) > high
    {
      BeatenAfter(factor, low, high, n, m);
    }
  }

  lemma BeatenAfter(factor: real, low: real, high: real, n: nat, m: nat)
    requires 0.0 <= factor < 1.0 && low < high < 0.0 && n <= m && n as real * ((1.0 - factor) * -high) >= -low
    ensures Penalised(low, factor, m) > high
  {
    hide Power;
    PowerTimesCount(factor, m);
    PowerInUnit(factor, m);
    Beaten(Power(factor, m), m as real, n as real, 1.0 - factor, -low, -high);
  }

  lemma Beaten(p: real, m: real, n: real, g: real, a: real, b: real)
    requires 0.0 <= p && p * (1.0 + m * g) <= 1.0 && 0.0 < g && 0.0 < b < a
    requires n <= m && n * (g * b) >= a
    ensures -a * p > -b
  {
    Monotone(n, m, g * b);
    assert m * (g * b) >= a;
    Monotone(a, m * (g * b), p);
    assert p * (m * (g * b)) == p * (m * g) * b;
    Monotone(p * (1.0 + m * g), 1.0, b);
    assert p * (1.0 + m * g) * b == p * b + p * (m * g) * b;
    if p > 0.0 {
      StrictlyMonotone(0.0, p, b);
    }
  }

  lemma {:induction false} RankedOfSorted(s: seq<Candidate>)
    requires Sorted(s)
    ensures Ranked(s) == s
  {
    hide RanksBefore;
    if s != [] {
      var rest := s[1..];
      forall i, j | 0 <= i < j < |rest|
        ensures RanksBefore(rest[i], rest[j])
      {
        assert RanksBefore(s[i + 1], s[j + 1]);
      }
      RankedOfSorted(rest);
      assert rest != [] ==> RanksBefore(s[0], s[1]);
    }
  }

  /** The top of the score order and candidate `k` share `n` creators, nobody else has any. */
  function Paired(ranked: seq<Candidate>, k: nat, n: nat): (ds: seq<Candidate>)
    ensures |ds| == |ranked|
    ensures forall i | 0 <= i < |ds| ::
      ds[i] == ranked[i].(creatorIds := if i == 0 || i == k then FirstCreators(n) else {})
  {
    seq(|ranked|, i requires 0 <= i < |ranked| =>
      ranked[i].(creatorIds := if i == 0 || i == k then FirstCreators(n) else {}))
  }

  lemma PairedIsRegrouped(cs: seq<Candidate>, k: nat, n: nat)
    ensures var ds := Paired(Ranked(cs), k, n); Sorted(ds) && Ranked(ds) == ds && Regrouped(cs, ds)
  {
    hide FirstCreators, Ranked;
    var ranked, ds := Ranked(cs), Paired(Ranked(cs), k, n);
    RankedSorts(cs);
    forall i, j | 0 <= i < j < |ds|
      ensures RanksBefore(ds[i], ds[j])
    {
      assert RanksBefore(ranked[i], ranked[j]);
    }
    RankedOfSorted(ds);
  }

  lemma PairingOvertakes(cs: seq<Candidate>, penalty: real, j: nat, k: nat) returns (ds: seq<Candidate>)
    requires penalty > 0.0 && 0 < j < k < |Ranked(cs)| && Ranked(cs)[k].score < Ranked(cs)[j].score < 0.0
    ensures Regrouped(cs, ds) && !LonersSafe(NoFranchise, Diversified(NoFranchise, ds, penalty))
  {
    hide Greedy, GroupKeys, Ranked, FirstCreators, Sorted, Regrouped, Penalised;
    var ranked, factor := Ranked(cs), Factor(penalty);
    var n := EnoughRepeats(factor, ranked[k].score, ranked[j].score);
    ds := Paired(ranked, k, n);
    PairedIsRegrouped(cs, k, n);
    var out := Greedy(NoFranchise, factor, ds, []);
    FirstPickIsTop(NoFranchise, factor, ds);
    var p := PlaceInPick(out, ds, j);
    var q := PlaceInPick(out, ds, k);
    NoCreators(out[p]);
    if p < q {
      EveryPickIsBest(NoFranchise, factor, ds, [], p, q);
      assert [] + out[..p] == out[..p];
      NoKeysNoRepeats(NoFranchise, out[..p]);
      PenaltyOnlyLowers(out[p].score, factor, 0);
      GroupKeysOfCreators(out[q], n);
      assert out[..p][0] == ds[0];
      SameCreatorsSameKeys(ds[0], out[q]);
      RepeatsAtLeast(NoFranchise, GroupKeys(NoFranchise, out[q]), out[..p]);
      assert false;
    }
    assert Alone(NoFranchise, out, p);
    assert out[q].score < out[p].score;
  }

  lemma PlaceInPick(out: seq<Candidate>, ds: seq<Candidate>, i: nat) returns (p: nat)
    requires 0 < i < |ds| && out != [] && multiset(out[1..]) == multiset(ds[1..])
    ensures 0 < p < |out| && out[p] == ds[i]
  {
    p := PlaceBelowTop(ds, out, i);
  }

  lemma NoCreators(c: Candidate)
    ensures c.creatorIds == {} ==> GroupKeys(NoFranchise, c) == {}
  {
  }

  lemma NoKeysNoRepeats(franchise: FranchiseKey, taken: seq<Candidate>)
    ensures Repeats(franchise, {}, taken) == 0
  {
    RepeatsOfNone(franchise, taken);
  }

  lemma SameCreatorsSameKeys(a: Candidate, b: Candidate)
    requires a.creatorIds == b.creatorIds
    ensures GroupKeys(NoFranchise, a) == GroupKeys(NoFranchise, b)
  {
  }

  /** Main result, the exact condition. With a penalty, no grouping of the candidates ever lets a lower
      score precede a candidate that shares no group if and only if their score order does not hold two
      different negative scores below its top. */
  lemma LonersAreSafeExactly(cs: seq<Candidate>, penalty: real)
    requires penalty > 0.0
    ensures (forall franchise, ds | Regrouped(cs, ds) :: LonersSafe(franchise, Diversified(franchise, ds, penalty)))
      <==> !Overtakable(Ranked(cs))
  {
    hide Diversified, Ranked, Alone;
    if Overtakable(Ranked(cs)) {
      var j, k :| 0 < j < k < |Ranked(cs)| && Ranked(cs)[k].score < Ranked(cs)[j].score < 0.0;
      var ds := PairingOvertakes(cs, penalty, j, k);
      assert Regrouped(cs, ds) && !LonersSafe(NoFranchise, Diversified(NoFranchise, ds, penalty));
    } else {
      forall franchise: FranchiseKey, ds | Regrouped(cs, ds)
        ensures LonersSafe(franchise, Diversified(franchise, ds, penalty))
      {
        var out := Diversified(franchise, ds, penalty);
        forall a, b | 0 <= a < b < |out| && Alone(franchise, out, b)
          ensures out[a].score >= out[b].score
        {
          if out[a].score < out[b].score {
            OvertakenNeedsTwoNegatives(franchise, ds, penalty, a, b);
            SameScoresOvertakable(cs, ds);
          }
        }
      }
    }
  }

  lemma SameScoresOvertakable(cs: seq<Candidate>, ds: seq<Candidate>)
    requires Regrouped(cs, ds) && Overtakable(Ranked(ds))
    ensures Overtakable(Ranked(cs))
  {
    hide Ranked;
    var j, k :| 0 < j < k < |Ranked(ds)| && Ranked(ds)[k].score < Ranked(ds)[j].score < 0.0;
    assert Ranked(cs)[k].score < Ranked(cs)[j].score;
  }

  lemma GreedyStep(franchise: FranchiseKey, factor: real, rest: seq<Candidate>, taken: seq<Candidate>, b: nat)
    requires b < |rest|
    requires forall j | 0 <= j < |rest| && j != b ::
      Adjusted(franchise, factor, rest[j], taken) < Adjusted(franchise, factor, rest[b], taken)
    ensures Greedy(franchise, factor, rest, taken)
         == [rest[b]] + Greedy(franchise, factor, Without(rest, b), taken + [rest[b]])
  {
    hide Adjusted, GroupKeys;
    BestIndexIsBest(franchise, factor, rest, taken, |rest|);
    var best := BestIndex(franchise, factor, rest, taken, |rest|);
    assert best == b;
  }

  lemma RepeatsOfOne(franchise: FranchiseKey, keys: set<GroupKey>, c: Candidate)
    ensures Repeats(franchise, keys, [c]) == |keys * GroupKeys(franchise, c)|
  {
    assert [c][..0] == [];
  }

  lemma HalvedOnce(franchise: FranchiseKey, c: Candidate, taken: Candidate)
    requires |GroupKeys(franchise, c) * GroupKeys(franchise, taken)| == 1
    ensures Adjusted(franchise, 0.5, c, [taken]) == c.score * 0.5
  {
    hide GroupKeys;
    RepeatsOfOne(franchise, GroupKeys(franchise, c), taken);
    assert Power(0.5, 1) == 0.5 * Power(0.5, 0) == 0.5;
  }

  lemma NotPenalised(franchise: FranchiseKey, c: Candidate, taken: seq<Candidate>)
    requires GroupKeys(franchise, c) == {} || taken == []
    ensures Adjusted(franchise, 0.5, c, taken) == c.score
  {
    hide GroupKeys;
    RepeatsOfNone(franchise, taken);
  }

  /** Three candidates in score order, the last in the group of the first and less negative once
      penalised: it overtakes the second. */
  lemma LiftedPast(franchise: FranchiseKey, a: Candidate, b: Candidate, c: Candidate)
    requires c.score < b.score < c.score * 0.5 < 0.0 < a.score
    requires GroupKeys(franchise, b) == {} && |GroupKeys(franchise, c) * GroupKeys(franchise, a)| == 1
    ensures Greedy(franchise, 0.5, [a, b, c], []) == [a, c, b]
  {
    hide *;
    HalvedOnce(franchise, c, a);
    NotPenalised(franchise, a, []);
    NotPenalised(franchise, b, []);
    NotPenalised(franchise, c, []);
    NotPenalised(franchise, b, [a]);
    GreedyStep(franchise, 0.5, [a, b, c], [], 0);
    WithoutFirst(a, [b, c]);
    assert [a] + [b, c] == [a, b, c];
    assert [] + [a] == [a];
    GreedyOfTwo(franchise, b, c, [a]);
  }

  lemma WithoutFirst(a: Candidate, rest: seq<Candidate>)
    ensures Without([a] + rest, 0) == rest
  {
  }

  lemma GreedyOfTwo(franchise: FranchiseKey, b: Candidate, c: Candidate, taken: seq<Candidate>)
    requires Adjusted(franchise, 0.5, b, taken) < Adjusted(franchise, 0.5, c, taken)
    ensures Greedy(franchise, 0.5, [b, c], taken) == [c, b]
  {
    assert Without([b, c], 1) == [b];
    hide *;
    GreedyStep(franchise, 0.5, [b, c], taken, 1);
    GreedyOfLast(franchise, b, taken + [c]);
  }

  lemma GreedyOfLast(franchise: FranchiseKey, c: Candidate, taken: seq<Candidate>)
    ensures Greedy(franchise, 0.5, [c], taken) == [c]
  {
    GreedyPermutes(franchise, 0.5, [c], taken);
    var out := Greedy(franchise, 0.5, [c], taken);
    hide Greedy;
    assert |multiset(out)| == 1;
    assert out[0] in multiset(out);
  }

  lemma RankedOfThree(a: Candidate, b: Candidate, c: Candidate)
    requires RanksBefore(a, b) && RanksBefore(b, c)
    ensures Ranked([a, b, c]) == [a, b, c]
  {
    hide RanksBefore;
    assert [a, b, c][1..] == [b, c] && [b, c][1..] == [c] && [c][1..] == [];
    assert Ranked([]) == [];
    assert Ranked([c]) == Insert(c, Ranked([])) == [c];
    assert Ranked([b, c]) == Insert(b, [c]) == [b, c];
  }

  /** The exception is real: a negative score is lifted past an unrelated better candidate. */
  lemma NegativeScoresAreLifted() returns (franchise: FranchiseKey, cs: seq<Candidate>)
    ensures var out := Diversified(franchise, cs, 0.5);
      |out| == 3 && Alone(franchise, out, 2) && out[1].score < out[2].score
  {
    franchise := title => None;
    var a := Candidate(Movie, 1, "a", 1.0, {7});
    var b := Candidate(Movie, 2, "b", -0.4, {});
    var c := Candidate(Movie, 3, "c", -0.5, {7});
    cs := [a, b, c];
    RankedOfThree(a, b, c);
    assert GroupKeys(franchise, a) == {Creator(7)} && GroupKeys(franchise, c) == {Creator(7)};
    assert {Creator(7)} * {Creator(7)} == {Creator(7)};
    assert GroupKeys(franchise, b) == {};
    LiftedPast(franchise, a, b, c);
    hide Greedy, Ranked, GroupKeys;
    assert Diversified(franchise, cs, 0.5) == [a, c, b];
  }

  ghost predicate InGroups(franchise: FranchiseKey, groups: set<GroupKey>, c: Candidate) {
    GroupKeys(franchise, c) == groups
  }

  lemma {:induction false} GreedyKeepsClassOrder(franchise: FranchiseKey, factor: real, rest: seq<Candidate>,
                                                 taken: seq<Candidate>, p: Candidate -> bool, groups: set<GroupKey>)
    requires Sorted(rest) && 0.0 <= factor <= 1.0
    requires forall c :: p(c) <==> InGroups(franchise, groups, c)
    ensures Filter(Greedy(franchise, factor, rest, taken), p) == Filter(rest, p)
    decreases |rest|
  {
    hide BestIndex, Penalised, GroupKeys, Repeats, Filter;
    if rest == [] {
    } else {
      var b := BestIndex(franchise, factor, rest, taken, |rest|);
      BestIndexIsBest(franchise, factor, rest, taken, |rest|);
      var chosen := rest[b];
      var tail := Greedy(franchise, factor, Without(rest, b), taken + [chosen]);
      GreedyKeepsClassOrder(franchise, factor, Without(rest, b), taken + [chosen], p, groups);
      forall j | 0 <= j < b
        ensures !(p(rest[j]) && p(chosen))
      {
        if p(rest[j]) && p(chosen) {
          assert RanksBefore(rest[j], chosen);
          PenaltyKeepsOrder(chosen.score, rest[j].score, factor, Repeats(franchise, groups, taken));
        }
      }
      FilterWithout(rest, b, p);
      FilterStep([chosen] + tail, p);
      assert ([chosen] + tail)[1..] == tail;
    }
  }

  /** Main result: candidates with the same groups keep their score order. */
  lemma SameGroupsKeepScoreOrder(franchise: FranchiseKey, cs: seq<Candidate>, penalty: real,
                                 p: Candidate -> bool, groups: set<GroupKey>)
    requires forall c :: p(c) <==> InGroups(franchise, groups, c)
    ensures Filter(Diversified(franchise, cs, penalty), p) == Filter(Ranked(cs), p)
  {
    RankedSorts(cs);
    if penalty > 0.0 && |cs| >= 2 {
      GreedyKeepsClassOrder(franchise, Factor(penalty), Ranked(cs), [], p, groups);
    }
  }

  ghost predicate AllAlone(franchise: FranchiseKey, s: seq<Candidate>) {
    forall i, k | 0 <= i < k < |s| :: GroupKeys(franchise, s[i]) !! GroupKeys(franchise, s[k])
  }

  lemma StrangersKeepScores(franchise: FranchiseKey, factor: real, rest: seq<Candidate>, taken: seq<Candidate>)
    requires 0.0 <= factor <= 1.0 && AllAlone(franchise, taken + rest)
    ensures forall j | 0 <= j < |rest| :: Adjusted(franchise, factor, rest[j], taken) == rest[j].score
  {
    hide GroupKeys, Repeats, Penalised;
    forall j | 0 <= j < |rest|
      ensures Adjusted(franchise, factor, rest[j], taken) == rest[j].score
    {
      forall i | 0 <= i < |taken|
        ensures GroupKeys(franchise, rest[j]) !! GroupKeys(franchise, taken[i])
      {
        assert (taken + rest)[i] == taken[i] && (taken + rest)[|taken| + j] == rest[j];
      }
      RepeatsOfStrangers(franchise, GroupKeys(franchise, rest[j]), taken);
      PenaltyOnlyLowers(rest[j].score, factor, 0);
    }
  }

  lemma FirstStrangerIsBest(franchise: FranchiseKey, factor: real, rest: seq<Candidate>, taken: seq<Candidate>)
    requires 0.0 <= factor <= 1.0 && rest != []
    requires Sorted(rest) && AllAlone(franchise, taken + rest)
    ensures BestIndex(franchise, factor, rest, taken, |rest|) == 0
  {
    hide BestIndex, GroupKeys, Adjusted, AllAlone;
    StrangersKeepScores(franchise, factor, rest, taken);
    BestIndexIsBest(franchise, factor, rest, taken, |rest|);
    var b := BestIndex(franchise, factor, rest, taken, |rest|);
    assert b > 0 ==> RanksBefore(rest[0], rest[b]);
  }

  lemma {:induction false} GreedyOfStrangers(franchise: FranchiseKey, factor: real, rest: seq<Candidate>,
                                             taken: seq<Candidate>)
    requires 0.0 <= factor <= 1.0
    requires Sorted(rest) && AllAlone(franchise, taken + rest)
    ensures Greedy(franchise, factor, rest, taken) == rest
    decreases |rest|
  {
    hide BestIndex, GroupKeys, Adjusted, RanksBefore, Sorted, AllAlone;
    if rest != [] {
      FirstStrangerIsBest(franchise, factor, rest, taken);
      SortedTail(rest);
      assert Without(rest, 0) == rest[1..];
      assert taken + [rest[0]] + rest[1..] == taken + rest;
      GreedyOfStrangers(franchise, factor, rest[1..], taken + [rest[0]]);
    }
  }

  /** Main result: without a penalty, or without a shared group, the output is the score order. */
  lemma NoSharedGroupNoChange(franchise: FranchiseKey, cs: seq<Candidate>, penalty: real)
    requires penalty <= 0.0 || AllAlone(franchise, Ranked(cs))
    ensures Diversified(franchise, cs, penalty) == Ranked(cs)
  {
    RankedSorts(cs);
    if penalty > 0.0 {
      assert [] + Ranked(cs) == Ranked(cs);
      GreedyOfStrangers(franchise, Factor(penalty), Ranked(cs), []);
    }
  }

  // ---- the rule, over creators, franchises and scores alone

  function TypeName(t: ItemType): (name: string)
    ensures name != []
  {
    match t
    case Movie => "MOVIE"
    case Series => "SERIES"
    case Book => "BOOK"
    case Game => "GAME"
  }

  /** A higher score; between equal scores the name of the type, whose initial tells, and then the id. */
  predicate NoWorse(a: Candidate, b: Candidate) {
    || a.score > b.score
    || (a.score == b.score
        && (TypeName(a.itemType)[0] < TypeName(b.itemType)[0] || (a.itemType == b.itemType && a.itemId <= b.itemId)))
  }

  lemma RanksAreNoWorse(a: Candidate, b: Candidate)
    ensures RanksBefore(a, b) <==> NoWorse(a, b)
  {
  }

  /** How many groups two candidates share: their common creators, and the franchise they both name. */
  function SharedGroups(franchise: FranchiseKey, a: Candidate, b: Candidate): nat {
    |a.creatorIds * b.creatorIds|
      + if franchise(a.title).Some? && franchise(a.title) == franchise(b.title) then 1 else 0
  }

  function Overlap(franchise: FranchiseKey, c: Candidate, taken: seq<Candidate>): nat {
    if taken == [] then 0
    else Overlap(franchise, c, taken[..|taken| - 1]) + SharedGroups(franchise, c, taken[|taken| - 1])
  }

  /** A score demoted `times` times, by the penalty, never below nothing. */
  function Demoted(score: real, penalty: real, times: nat): real {
    if times == 0 then score else Demoted(score, penalty, times - 1) * if penalty < 1.0 then 1.0 - penalty else 0.0
  }

  function CreatorKeys(ids: set<int>): set<GroupKey> {
    set personId | personId in ids :: Creator(personId)
  }

  lemma {:induction false} AsManyKeys(ids: set<int>)
    ensures |CreatorKeys(ids)| == |ids|
  {
    if ids != {} {
      var q := SomeMember(ids);
      AsManyKeys(ids - {q});
      assert CreatorKeys(ids) == CreatorKeys(ids - {q}) + {Creator(q)};
    }
  }

  lemma FranchiseKeysMeet(f: Option<string>, g: Option<string>)
    ensures (if f.Some? then {Franchise(f.value)} else {}) * (if g.Some? then {Franchise(g.value)} else {})
         == if f.Some? && f == g then {Franchise(f.value)} else {}
  {
  }

  lemma UnionsMeet(a: set<GroupKey>, b: set<GroupKey>, f: set<GroupKey>, g: set<GroupKey>)
    requires a !! g && b !! f
    ensures (a + f) * (b + g) == a * b + f * g
  {
  }

  lemma GroupsMeet(franchise: FranchiseKey, a: Candidate, b: Candidate)
    ensures |GroupKeys(franchise, a) * GroupKeys(franchise, b)| == SharedGroups(franchise, a, b)
  {
    var f, g := franchise(a.title), franchise(b.title);
    var fs: set<GroupKey> := if f.Some? then {Franchise(f.value)} else {};
    var gs: set<GroupKey> := if g.Some? then {Franchise(g.value)} else {};
    assert GroupKeys(franchise, a) == CreatorKeys(a.creatorIds) + fs;
    assert GroupKeys(franchise, b) == CreatorKeys(b.creatorIds) + gs;
    UnionsMeet(CreatorKeys(a.creatorIds), CreatorKeys(b.creatorIds), fs, gs);
    FranchiseKeysMeet(f, g);
    assert CreatorKeys(a.creatorIds) * CreatorKeys(b.creatorIds) == CreatorKeys(a.creatorIds * b.creatorIds);
    AsManyKeys(a.creatorIds * b.creatorIds);
    assert CreatorKeys(a.creatorIds * b.creatorIds) !! (fs * gs);
  }

  lemma {:induction false} RepeatsAreOverlap(franchise: FranchiseKey, c: Candidate, taken: seq<Candidate>)
    ensures Repeats(franchise, GroupKeys(franchise, c), taken) == Overlap(franchise, c, taken)
  {
    hide GroupKeys, SharedGroups;
    if taken != [] {
      RepeatsAreOverlap(franchise, c, taken[..|taken| - 1]);
      GroupsMeet(franchise, c, taken[|taken| - 1]);
    }
  }

  lemma {:induction false} PenalisedIsDemoted(score: real, penalty: real, times: nat)
    ensures Penalised(score, Factor(penalty), times) == Demoted(score, penalty, times)
  {
    if times > 0 {
      PenalisedIsDemoted(score, penalty, times - 1);
      var p := Power(Factor(penalty), times - 1);
      assert score * (Factor(penalty) * p) == (score * p) * Factor(penalty);
    }
  }

  /** Main result: with a penalty, each pick outscores everything picked later once both are demoted for every
      creator and franchise they share with an earlier pick; between equals the higher score comes first, then
      the name of the type and the id. */
  lemma PicksFollowTheRule(franchise: FranchiseKey, cs: seq<Candidate>, penalty: real, j: nat, k: nat)
    requires penalty > 0.0 && j < k < |Diversified(franchise, cs, penalty)|
    ensures var out := Diversified(franchise, cs, penalty);
      var earlier := out[..j];
      var a, b := out[j], out[k];
      var here := Demoted(a.score, penalty, Overlap(franchise, a, earlier));
      var there := Demoted(b.score, penalty, Overlap(franchise, b, earlier));
      there < here || (there == here && NoWorse(a, b))
  {
    hide Greedy, GroupKeys, Ranked, Repeats, Penalised, Demoted, Overlap, NoWorse, RanksBefore;
    var out := Diversified(franchise, cs, penalty);
    RankedSorts(cs);
    DiversifiedPermutes(franchise, cs, penalty);
    assert |multiset(out)| == |multiset(cs)|;
    EveryPickIsBest(franchise, Factor(penalty), Ranked(cs), [], j, k);
    EveryPickIsFirstBest(franchise, Factor(penalty), Ranked(cs), [], j, k);
    RanksAreNoWorse(out[j], out[k]);
    assert [] + out[..j] == out[..j];
    RepeatsAreOverlap(franchise, out[j], out[..j]);
    RepeatsAreOverlap(franchise, out[k], out[..j]);
    PenalisedIsDemoted(out[j].score, penalty, Overlap(franchise, out[j], out[..j]));
    PenalisedIsDemoted(out[k].score, penalty, Overlap(franchise, out[k], out[..j]));
  }
}
