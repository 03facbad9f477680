/** Walking a table by primary key with a committed cursor: any mix of batches, kills, budget stops and
    re-dispatches, over a table that others keep changing. */
module CursorWalk {
  import opened Common

  /** What the watermark row holds for one walk. */
  datatype Cursor = Absent | Cleared | Number(id: int) | Unreadable

  /** A missing, cleared or unreadable cursor starts the walk from the top. */
  function Start(cursor: Cursor): int {
    if cursor.Number? then cursor.id else 0
  }

  lemma NumberStarts(id: int)
    ensures Start(Number(id)) == id
  {
  }

  predicate Next(ids: set<int>, after: int, id: int) {
    id in ids && after < id && forall other | other in ids && after < other :: id <= other
  }

  function Above(ids: set<int>, after: int): set<int> {
    set id | id in ids && after < id
  }

  lemma NextExists(ids: set<int>, after: int)
    requires Above(ids, after) != {}
    ensures exists id :: id in ids && Next(ids, after, id)
    decreases |Above(ids, after)|
  {
    var above := Above(ids, after);
    var x := SomeMember(above);
    if !Next(ids, after, x) {
      var other :| other in ids && after < other < x;
      var fewer := ids - {x};
      assert Above(fewer, after) == above - {x};
      assert other in Above(fewer, after);
      NextExists(fewer, after);
      var id :| id in fewer && Next(fewer, after, id);
      forall o | o in ids && after < o
        ensures id <= o
      {
        assert o == x || o in fewer;
      }
    }
  }

  /** Every id above `after`, ascending. */
  function All(ids: set<int>, after: int): (all: seq<int>)
    decreases |Above(ids, after)|
  {
    if Above(ids, after) == {} then []
    else
      NextExists(ids, after);
      var id :| id in ids && Next(ids, after, id);
      assert id in Above(ids, after) && Above(ids, id) == Above(ids, after) - {id};
      [id] + All(ids, id)
  }

  /** The next rows of the walk: none at all when fewer than one is asked for. */
  function Batch(ids: set<int>, after: int, limit: int): seq<int> {
    if limit <= 0 then [] else All(ids, after)[..Min(limit, |All(ids, after)|)]
  }

  lemma AllStep(ids: set<int>, after: int)
    ensures var all := All(ids, after);
      if all == [] then Above(ids, after) == {}
      else Next(ids, after, all[0]) && all == [all[0]] + All(ids, all[0])
           && Above(ids, all[0]) == Above(ids, after) - {all[0]}
  {
    if Above(ids, after) != {} {
      var id := All(ids, after)[0];
      assert Above(ids, id) == Above(ids, after) - {id};
    }
  }

  lemma {:induction false} AllIsTheRest(ids: set<int>, after: int)
    ensures Ascending(All(ids, after))
    ensures forall id :: id in All(ids, after) <==> id in ids && after < id
    decreases |Above(ids, after)|
  {
    hide All;
    var all := All(ids, after);
    AllStep(ids, after);
    if all == [] {
      assert forall id | id in ids && after < id :: id in Above(ids, after);
    } else {
      var rest := All(ids, all[0]);
      assert all[0] in Above(ids, after);
      AllIsTheRest(ids, all[0]);
      AscendingCons(all[0], rest);
    }
  }

  /** What is left after the first `n` rows is the walk from the last of them on. */
  lemma {:induction false} AllSplits(ids: set<int>, after: int, n: nat)
    requires 0 < n <= |All(ids, after)|
    ensures All(ids, after)[n..] == All(ids, All(ids, after)[n - 1])
    decreases n
  {
    hide All;
    var all := All(ids, after);
    AllStep(ids, after);
    if n > 1 {
      AllSplits(ids, all[0], n - 1);
      assert all[n..] == All(ids, all[0])[n - 1..];
      assert all[n - 1] == All(ids, all[0])[n - 2];
    }
  }

  // ---- histories

  datatype State = State(ids: set<int>, cursor: Cursor)

  /** One committed round of at most `limit` rows; a round that never commits because the run is killed
      or stops for its budget; or others changing the table. */
  datatype Step = Round(limit: int) | Lost | Change(ids: set<int>)

  function Handled(st: State, step: Step): seq<int> {
    if step.Round? then Batch(st.ids, Start(st.cursor), step.limit) else []
  }

  function After(st: State, step: Step): State {
    match step
    case Lost => st
    case Change(ids) => st.(ids := ids)
    case Round(limit) =>
      var batch := Handled(st, step);
      if batch == [] then st.(cursor := Cleared) else st.(cursor := Number(batch[|batch| - 1]))
  }

  function AfterAll(st: State, steps: seq<Step>): State {
    if steps == [] then st else After(AfterAll(st, steps[..|steps| - 1]), steps[|steps| - 1])
  }

  function AllHandled(st: State, steps: seq<Step>): seq<int> {
    if steps == [] then []
    else
      var before := steps[..|steps| - 1];
      AllHandled(st, before) + Handled(AfterAll(st, before), steps[|steps| - 1])
  }

  /** `id` is in the table in every state of the history. */
  ghost predicate Stays(st: State, steps: seq<Step>, id: int) {
    forall n | 0 <= n <= |steps| :: id in AfterAll(st, steps[..n]).ids
  }

  lemma StaysBefore(st: State, steps: seq<Step>, id: int)
    requires steps != [] && Stays(st, steps, id)
    ensures Stays(st, steps[..|steps| - 1], id) && id in AfterAll(st, steps[..|steps| - 1]).ids
  {
    var before := steps[..|steps| - 1];
    forall n | 0 <= n <= |before|
      ensures id in AfterAll(st, before[..n]).ids
    {
      assert before[..n] == steps[..n];
    }
    assert before == steps[..|steps| - 1];
  }

  ghost predicate AllPositive(steps: seq<Step>) {
    forall i | 0 <= i < |steps| && steps[i].Round? :: steps[i].limit >= 1
  }

  /** Everything below the cursor that stayed is done. */
  lemma {:induction false} BelowTheCursorIsDone(st: State, steps: seq<Step>, id: int)
    requires Start(st.cursor) == 0 && AllPositive(steps) && Stays(st, steps, id)
    ensures 0 < id <= Start(AfterAll(st, steps).cursor) ==> id in AllHandled(st, steps)
    decreases |steps|
  {
    if steps != [] && 0 < id <= Start(AfterAll(st, steps).cursor) {
      var last := |steps| - 1;
      var before, step := steps[..last], steps[last];
      var prior := AfterAll(st, before);
      StaysBefore(st, steps, id);
      BelowTheCursorIsDone(st, before, id);
      assert AllPositive(before);
      if step.Round? && id > Start(prior.cursor) {
        BatchReachesItsLast(prior.ids, Start(prior.cursor), step.limit, id);
      }
    }
  }

  lemma BatchReachesItsLast(ids: set<int>, after: int, limit: int, id: int)
    ensures var batch := Batch(ids, after, limit);
      && (batch != [] && id in ids && after < id <= batch[|batch| - 1] ==> id in batch)
      && (batch == [] && limit >= 1 && id in ids ==> id <= after)
  {
    AllIsTheRest(ids, after);
    var all, batch := All(ids, after), Batch(ids, after, limit);
    if batch != [] && id in ids && after < id <= batch[|batch| - 1] {
      var i :| 0 <= i < |all| && all[i] == id;
      assert batch[|batch| - 1] == all[|batch| - 1];
      assert i < |batch|;
      assert batch[i] == id;
    }
    assert batch == [] && limit >= 1 ==> |all| == 0;
  }

  /** Main result. A history that starts from the top and ends by clearing the cursor has handled every
      row that was in the table all along. */
  lemma CycleIsComplete(st: State, steps: seq<Step>, limit: int, id: int)
    requires Start(st.cursor) == 0 && AllPositive(steps + [Round(limit)]) && Stays(st, steps + [Round(limit)], id)
    requires Handled(AfterAll(st, steps), Round(limit)) == []
    ensures id > 0 ==> id in AllHandled(st, steps + [Round(limit)])
    ensures AfterAll(st, steps + [Round(limit)]).cursor == Cleared
  {
    hide AllHandled, AfterAll, Batch;
    var whole := steps + [Round(limit)];
    var prior := AfterAll(st, steps);
    assert whole[..|whole| - 1] == steps && whole[|whole| - 1] == Round(limit);
    StaysBefore(st, whole, id);
    assert AllPositive(steps);
    BelowTheCursorIsDone(st, steps, id);
    BatchReachesItsLast(prior.ids, Start(prior.cursor), limit, id);
    assert limit >= 1;
    OneMoreStep(st, steps, Round(limit));
  }

  lemma OneMoreStep(st: State, steps: seq<Step>, step: Step)
    ensures AfterAll(st, steps + [step]) == After(AfterAll(st, steps), step)
    ensures AllHandled(st, steps + [step]) == AllHandled(st, steps) + Handled(AfterAll(st, steps), step)
  {
    assert (steps + [step])[..|steps + [step]| - 1] == steps;
  }

  /** A round leaves a row above the cursor behind, and still clears the cursor, exactly when it was
      asked for fewer than one row. */
  lemma ClearsEarlyIffEmptyBatch(st: State, limit: int)
    requires Above(st.ids, Start(st.cursor)) != {}
    ensures After(st, Round(limit)).cursor == Cleared <==> limit <= 0
  {
    if limit >= 1 {
      var id := SomeMember(Above(st.ids, Start(st.cursor)));
      AllIsTheRest(st.ids, Start(st.cursor));
      assert id in All(st.ids, Start(st.cursor));
    }
  }

  // ---- one undisturbed run

  function Rounds(limit: int, n: nat): seq<Step> {
    seq(n, _ => Round(limit))
  }

  /** Over a table nobody else changes, the batches of any size put the same rows in the same order. */
  lemma {:induction false} RunHandlesAPrefix(st: State, limit: int, n: nat)
    requires limit >= 1
    requires forall m: nat | m < n :: Handled(AfterAll(st, Rounds(limit, m)), Round(limit)) != []
    ensures var handled, all := AllHandled(st, Rounds(limit, n)), All(st.ids, Start(st.cursor));
      var now := AfterAll(st, Rounds(limit, n));
      && handled <= all && now.ids == st.ids
      && All(st.ids, Start(now.cursor)) == all[|handled|..]
      && (n > 0 ==> handled != [] && now.cursor == Number(handled[|handled| - 1]))
  {
    hide All, Batch, AllHandled, AfterAll, After, Handled;
    if n == 0 {
      NoSteps(st, limit);
    } else {
      RunHandlesAPrefix(st, limit, n - 1);
      assert Rounds(limit, n) == Rounds(limit, n - 1) + [Round(limit)];
      OneMoreStep(st, Rounds(limit, n - 1), Round(limit));
      var prior, handled := AfterAll(st, Rounds(limit, n - 1)), AllHandled(st, Rounds(limit, n - 1));
      var all, batch := All(st.ids, Start(st.cursor)), Handled(prior, Round(limit));
      OneRound(prior, limit);
      assert all[|handled|..][|batch|..] == all[|handled + batch|..];
    }
  }

  lemma NoSteps(st: State, limit: int)
    ensures AllHandled(st, Rounds(limit, 0)) == [] && AfterAll(st, Rounds(limit, 0)) == st
  {
  }

  lemma OneRound(st: State, limit: int)
    requires Handled(st, Round(limit)) != []
    ensures var batch, all := Handled(st, Round(limit)), All(st.ids, Start(st.cursor));
      && batch <= all && After(st, Round(limit)) == State(st.ids, Number(batch[|batch| - 1]))
      && All(st.ids, batch[|batch| - 1]) == all[|batch|..]
  {
    hide All;
    AllSplits(st.ids, Start(st.cursor), |Handled(st, Round(limit))|);
  }

  lemma RestOfWalk(ids: set<int>, from: Cursor, read: nat, cursor: Cursor)
    requires var all := All(ids, Start(from));
      read <= |all| && cursor == (if read == 0 then from else Number(all[read - 1]))
    ensures All(ids, Start(cursor)) == All(ids, Start(from))[read..]
  {
    hide All;
    if read > 0 {
      AllSplits(ids, Start(from), read);
    }
  }

  /** One round more of a walk: what it handles and where it leaves the cursor. */
  lemma OneRoundMore(ids: set<int>, from: Cursor, limit: int, n: nat)
    ensures var st := State(ids, from);
      var now := AfterAll(st, Rounds(limit, n));
      && AfterAll(st, Rounds(limit, n + 1)) == After(now, Round(limit))
      && AllHandled(st, Rounds(limit, n + 1)) == AllHandled(st, Rounds(limit, n)) + Handled(now, Round(limit))
  {
    hide After, Handled;
    assert Rounds(limit, n + 1) == Rounds(limit, n) + [Round(limit)];
    OneMoreStep(State(ids, from), Rounds(limit, n), Round(limit));
  }

  /** An execution whose `rounds` rounds have read the next `read` rows of the walk and left the cursor
      where they ended: what the methods that run a pass promise. */
  ghost predicate Walks(ids: set<int>, from: Cursor, limit: int, rounds: nat, read: nat, cursor: Cursor) {
    && read <= |All(ids, Start(from))|
    && AfterAll(State(ids, from), Rounds(limit, rounds)) == State(ids, cursor)
    && AllHandled(State(ids, from), Rounds(limit, rounds)) == All(ids, Start(from))[..read]
  }

  lemma NothingWalked(ids: set<int>, from: Cursor, limit: int)
    ensures Walks(ids, from, limit, 0, 0, from)
  {
    hide All;
    NoSteps(State(ids, from), limit);
  }

  /** One round more that commits a batch. */
  lemma WalksOn(ids: set<int>, from: Cursor, limit: int, rounds: nat, read: nat, cursor: Cursor)
    requires Walks(ids, from, limit, rounds, read, cursor)
    requires var batch, all := Batch(ids, Start(cursor), limit), All(ids, Start(from));
      batch != [] && read + |batch| <= |all| && batch == all[read..read + |batch|]
    ensures var batch := Batch(ids, Start(cursor), limit);
      Walks(ids, from, limit, rounds + 1, read + |batch|, Number(batch[|batch| - 1]))
  {
    hide All, AfterAll, AllHandled, Batch, Rounds;
    var all, batch := All(ids, Start(from)), Batch(ids, Start(cursor), limit);
    OneRoundMore(ids, from, limit, rounds);
    assert all[..read] + batch == all[..read + |batch|];
  }

  /** One round more that finds nothing and clears the cursor. */
  lemma WalkEnds(ids: set<int>, from: Cursor, limit: int, rounds: nat, read: nat, cursor: Cursor)
    requires Walks(ids, from, limit, rounds, read, cursor) && Batch(ids, Start(cursor), limit) == []
    ensures Walks(ids, from, limit, rounds + 1, read, Cleared)
  {
    hide All, AfterAll, AllHandled, Batch, Rounds;
    OneRoundMore(ids, from, limit, rounds);
    assert All(ids, Start(from))[..read] + [] == All(ids, Start(from))[..read];
  }

  // ---- histories of executions

  /** One leg of a history: an execution, killed or not, that got through some rounds; or others changing
      the table. */
  datatype Leg = Run(limit: int, rounds: nat) | Others(ids: set<int>)

  function AfterLeg(st: State, leg: Leg): State {
    match leg
    case Run(limit, rounds) => AfterAll(st, Rounds(limit, rounds))
    case Others(ids) => st.(ids := ids)
  }

  function LegHandles(st: State, leg: Leg): seq<int> {
    if leg.Run? then AllHandled(st, Rounds(leg.limit, leg.rounds)) else []
  }

  function AfterLegs(st: State, legs: seq<Leg>): State {
    if legs == [] then st else AfterLeg(AfterLegs(st, legs[..|legs| - 1]), legs[|legs| - 1])
  }

  function LegsHandle(st: State, legs: seq<Leg>): seq<int> {
    if legs == [] then []
    else
      var before := legs[..|legs| - 1];
      LegsHandle(st, before) + LegHandles(AfterLegs(st, before), legs[|legs| - 1])
  }

  function StepsOf(legs: seq<Leg>): seq<Step> {
    if legs == [] then []
    else
      var leg := legs[|legs| - 1];
      StepsOf(legs[..|legs| - 1]) + if leg.Run? then Rounds(leg.limit, leg.rounds) else [Change(leg.ids)]
  }

  lemma {:induction false} StepsConcat(st: State, a: seq<Step>, b: seq<Step>)
    ensures AfterAll(st, a + b) == AfterAll(AfterAll(st, a), b)
    ensures AllHandled(st, a + b) == AllHandled(st, a) + AllHandled(AfterAll(st, a), b)
  {
    hide After, Handled;
    if b == [] {
      assert a + b == a;
    } else {
      var last := |b| - 1;
      StepsConcat(st, a, b[..last]);
      assert (a + b)[..|a + b| - 1] == a + b[..last];
    }
  }

  /** Executions refine histories of single rounds: they end where the rounds end and handle what the
      rounds handle. */
  lemma {:induction false} LegsRefineSteps(st: State, legs: seq<Leg>)
    ensures AfterLegs(st, legs) == AfterAll(st, StepsOf(legs))
    ensures LegsHandle(st, legs) == AllHandled(st, StepsOf(legs))
  {
    hide After, Handled, Rounds, AfterAll, AllHandled;
    if legs == [] {
      NoHistory(st);
    } else {
      var init, leg := legs[..|legs| - 1], legs[|legs| - 1];
      LegsRefineSteps(st, init);
      var steps := if leg.Run? then Rounds(leg.limit, leg.rounds) else [Change(leg.ids)];
      StepsConcat(st, StepsOf(init), steps);
      if leg.Others? {
        OneChange(AfterAll(st, StepsOf(init)), leg.ids);
      }
    }
  }

  lemma NoHistory(st: State)
    ensures AfterAll(st, []) == st && AllHandled(st, []) == []
  {
  }

  lemma OneChange(st: State, ids: set<int>)
    ensures AfterAll(st, [Change(ids)]) == st.(ids := ids) && AllHandled(st, [Change(ids)]) == []
  {
    assert [Change(ids)][..0] == [];
  }

  /** `id` is in the table before, between and after the legs. */
  ghost predicate StaysLegs(st: State, legs: seq<Leg>, id: int) {
    forall n | 0 <= n <= |legs| :: id in AfterLegs(st, legs[..n]).ids
  }

  lemma {:induction false} RoundsKeepIds(st: State, limit: int, n: nat)
    ensures AfterAll(st, Rounds(limit, n)).ids == st.ids
  {
    if n > 0 {
      RoundsKeepIds(st, limit, n - 1);
      assert Rounds(limit, n)[..n - 1] == Rounds(limit, n - 1);
    }
  }

  lemma StaysOver(st: State, a: seq<Step>, b: seq<Step>, id: int)
    requires Stays(st, a, id) && Stays(AfterAll(st, a), b, id)
    ensures Stays(st, a + b, id)
  {
    hide AfterAll;
    forall n | 0 <= n <= |a + b|
      ensures id in AfterAll(st, (a + b)[..n]).ids
    {
      if n <= |a| {
        assert (a + b)[..n] == a[..n];
      } else {
        assert (a + b)[..n] == a + b[..n - |a|];
        StepsConcat(st, a, b[..n - |a|]);
      }
    }
  }

  /** A row that stays over the legs stays over their steps. */
  lemma {:induction false} StaysOverSteps(st: State, legs: seq<Leg>, id: int)
    requires StaysLegs(st, legs, id)
    ensures Stays(st, StepsOf(legs), id)
  {
    hide After, Handled, Rounds, AfterAll, AfterLeg;
    if legs == [] {
      assert legs[..0] == [];
      StaysNowhere(st, id);
    } else {
      var last := |legs| - 1;
      var init, leg := legs[..last], legs[last];
      assert forall n | 0 <= n <= last :: init[..n] == legs[..n];
      StaysOverSteps(st, init, id);
      assert legs[..last] == init && legs[..last + 1] == legs;
      LegsRefineSteps(st, init);
      var steps := if leg.Run? then Rounds(leg.limit, leg.rounds) else [Change(leg.ids)];
      StaysInLeg(AfterLegs(st, init), leg, steps, id);
      StaysOver(st, StepsOf(init), steps, id);
    }
  }

  lemma StaysNowhere(st: State, id: int)
    requires id in AfterLegs(st, []).ids
    ensures Stays(st, [], id)
  {
  }

  lemma StaysInLeg(st: State, leg: Leg, steps: seq<Step>, id: int)
    requires steps == (if leg.Run? then Rounds(leg.limit, leg.rounds) else [Change(leg.ids)])
    requires id in st.ids && id in AfterLeg(st, leg).ids
    ensures Stays(st, steps, id)
  {
    hide After, Handled;
    forall n | 0 <= n <= |steps|
      ensures id in AfterAll(st, steps[..n]).ids
    {
      if leg.Run? {
        assert steps[..n] == Rounds(leg.limit, n);
        RoundsKeepIds(st, leg.limit, n);
      } else {
        OneChange(st, leg.ids);
        assert n == 0 ==> steps[..n] == [];
        assert n == 1 ==> steps[..n] == steps;
      }
    }
  }

  ghost predicate PositiveLegs(legs: seq<Leg>) {
    forall i | 0 <= i < |legs| && legs[i].Run? :: legs[i].limit >= 1
  }

  lemma {:induction false} PositiveSteps(legs: seq<Leg>)
    requires PositiveLegs(legs)
    ensures AllPositive(StepsOf(legs))
  {
    if legs != [] {
      PositiveSteps(legs[..|legs| - 1]);
    }
  }

  /** Main result about executions. Whatever executions, killed, stopped or completed, and changes of the
      table fall between: when one that starts from the top and one that clears the cursor enclose a
      history, they have handled between them every row that was in the table all along. */
  lemma ExecutionsAreComplete(st: State, legs: seq<Leg>, limit: int, rounds: nat, id: int)
    requires Start(st.cursor) == 0 && PositiveLegs(legs) && limit >= 1 && rounds > 0
    requires StaysLegs(st, legs, id) && id > 0
    requires AfterLeg(AfterLegs(st, legs), Run(limit, rounds)).cursor == Cleared
    ensures id in LegsHandle(st, legs + [Run(limit, rounds)])
  {
    hide After, Handled, AfterAll, AllHandled, AfterLegs, StepsOf, LegsHandle;
    var now, run := AfterLegs(st, legs), Rounds(limit, rounds - 1);
    var steps := StepsOf(legs) + run;
    LegsRefineSteps(st, legs);
    LegsRefineSteps(st, legs + [Run(limit, rounds)]);
    LastLeg(legs, limit, rounds);
    StaysOverSteps(st, legs, id);
    assert legs[..|legs|] == legs;
    StaysInRun(now, limit, rounds, id);
    StaysOver(st, StepsOf(legs), Rounds(limit, rounds), id);
    PositiveSteps(legs);
    assert Rounds(limit, rounds) == run + [Round(limit)];
    assert StepsOf(legs) + Rounds(limit, rounds) == steps + [Round(limit)];
    StepsConcat(st, StepsOf(legs), run);
    ClearedMeansNothingLeft(now, limit, rounds);
    CycleIsComplete(st, steps, limit, id);
  }

  lemma LastLeg(legs: seq<Leg>, limit: int, rounds: nat)
    ensures StepsOf(legs + [Run(limit, rounds)]) == StepsOf(legs) + Rounds(limit, rounds)
  {
    hide Rounds;
    assert (legs + [Run(limit, rounds)])[..|legs|] == legs;
  }

  lemma StaysInRun(st: State, limit: int, rounds: nat, id: int)
    requires id in st.ids
    ensures Stays(st, Rounds(limit, rounds), id)
  {
    hide AfterAll;
    RoundsKeepIds(st, limit, rounds);
    StaysInLeg(st, Run(limit, rounds), Rounds(limit, rounds), id);
  }

  lemma ClearedMeansNothingLeft(st: State, limit: int, rounds: nat)
    requires rounds > 0 && AfterAll(st, Rounds(limit, rounds)).cursor == Cleared
    ensures Handled(AfterAll(st, Rounds(limit, rounds - 1)), Round(limit)) == []
  {
    hide AfterAll, AllHandled, Handled;
    OneRoundMore(st.ids, st.cursor, limit, rounds - 1);
  }
}
