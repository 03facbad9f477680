/** The embedding pass: batches of selected items, of which only those without an up-to-date vector
    are embedded and committed, so that any run resumes where the last one stopped. */
module EmbeddingPass {
  import opened Common

  type Key = (ItemType, int)

  /** A stored vector, as far as the pass looks at it. */
  datatype Stored = Stored(model: string, hash: string)

  type Vectors = map<Key, Stored>

  /** The catalog and the model during a history of passes: the text of every item that exists, which
      items have a blank overview, the digest of a text, and the name of the model. */
  datatype World = World(live: map<Key, string>, blank: Key -> bool, digest: string -> string, model: string) {
    predicate Current(vectors: Vectors, key: Key)
      requires key in live
    {
      key in vectors && vectors[key] == Fresh(key)
    }

    function Fresh(key: Key): Stored
      requires key in live
    {
      Stored(model, digest(live[key]))
    }

    predicate Pending(vectors: Vectors, force: bool, key: Key) {
      key in live && (force || !Current(vectors, key))
    }
  }

  function PendingOf(w: World, vectors: Vectors, force: bool, batch: seq<Key>): seq<Key> {
    if batch == [] then []
    else (if w.Pending(vectors, force, batch[0]) then [batch[0]] else []) + PendingOf(w, vectors, force, batch[1..])
  }

  lemma PendingStep(w: World, vectors: Vectors, force: bool, batch: seq<Key>, i: nat)
    requires i < |batch|
    ensures PendingOf(w, vectors, force, batch[i..])
         == (if w.Pending(vectors, force, batch[i]) then [batch[i]] else [])
           + PendingOf(w, vectors, force, batch[i + 1..])
  {
    assert batch[i..][1..] == batch[i + 1..];
  }

  lemma PendingEnd(w: World, vectors: Vectors, force: bool, batch: seq<Key>)
    ensures PendingOf(w, vectors, force, batch[|batch|..]) == []
  {
  }

  /** Committing the vectors of some existing items. */
  function Written(w: World, vectors: Vectors, keys: seq<Key>): Vectors
    requires forall key | key in keys :: key in w.live
  {
    map key | key in vectors.Keys + (set k | k in keys) :: if key in keys then w.Fresh(key) else vectors[key]
  }

  lemma {:induction false} PendingMembers(w: World, vectors: Vectors, force: bool, batch: seq<Key>)
    ensures forall key :: key in PendingOf(w, vectors, force, batch) <==> key in batch && w.Pending(vectors, force, key)
    ensures Distinct(batch) ==> Distinct(PendingOf(w, vectors, force, batch))
  {
    if batch != [] {
      assert batch == [batch[0]] + batch[1..];
      PendingMembers(w, vectors, force, batch[1..]);
      if Distinct(batch) {
        DistinctTail(batch);
        if w.Pending(vectors, force, batch[0]) {
          DistinctCons(batch[0], PendingOf(w, vectors, force, batch[1..]));
        }
      }
    }
  }

  function AfterBatch(w: World, vectors: Vectors, force: bool, batch: seq<Key>): Vectors {
    PendingMembers(w, vectors, force, batch);
    Written(w, vectors, PendingOf(w, vectors, force, batch))
  }

  function AfterBatches(w: World, vectors: Vectors, force: bool, batches: seq<seq<Key>>): Vectors {
    if batches == [] then vectors
    else
      var last := |batches| - 1;
      AfterBatch(w, AfterBatches(w, vectors, force, batches[..last]), force, batches[last])
  }

  /** Every commit of a vector, in order. */
  function WritesOf(w: World, vectors: Vectors, force: bool, batches: seq<seq<Key>>): seq<Key> {
    if batches == [] then []
    else
      var last := |batches| - 1;
      WritesOf(w, vectors, force, batches[..last])
        + PendingOf(w, AfterBatches(w, vectors, force, batches[..last]), force, batches[last])
  }

  // ---- the plan of a pass

  /** A batch holds at least one item: the command line refuses any other size. */
  type Size = n: int | n > 0 witness 1

  function Chunks(ids: seq<int>, size: Size): seq<seq<int>>
  {
    if ids == [] then [] else [ids[..Min(size, |ids|)]] + Chunks(ids[Min(size, |ids|)..], size)
  }

  function KeysOf(t: ItemType, ids: seq<int>): seq<Key> {
    seq(|ids|, i requires 0 <= i < |ids| => (t, ids[i]))
  }

  function BatchesOf(t: ItemType, chunks: seq<seq<int>>): seq<seq<Key>> {
    seq(|chunks|, i requires 0 <= i < |chunks| => KeysOf(t, chunks[i]))
  }

  /** The selection of one dispatch, computed once per type. */
  type Selection = ItemType -> seq<int>

  function Plan(types: seq<ItemType>, selection: Selection, size: Size): seq<seq<Key>> {
    if types == [] then []
    else BatchesOf(types[0], Chunks(selection(types[0]), size)) + Plan(types[1..], selection, size)
  }

  // ---- the pass itself

  datatype TypeCounters = TypeCounters(selected: nat, skipped: nat, embedded: nat, created: nat, updated: nat,
                                       vanished: nat, withoutOverview: nat) {
    function Handled(): nat { skipped + embedded + vanished }

    /** Every embedded item either had no vector before or had one. */
    predicate Split() { created + updated == embedded }
  }

  const NO_COUNTERS: TypeCounters := TypeCounters(0, 0, 0, 0, 0, 0, 0)

  /** How many of the keys have no vector yet. */
  function Absent(vectors: Vectors, keys: seq<Key>): (n: nat)
    ensures n <= |keys|
  {
    if keys == [] then 0 else (if keys[0] in vectors then 0 else 1) + Absent(vectors, keys[1..])
  }

  predicate SplitAt(perType: map<ItemType, TypeCounters>, t: ItemType) {
    CountersFor(perType, t).Split()
  }

  ghost predicate AllSplit(perType: map<ItemType, TypeCounters>) {
    forall t: ItemType :: SplitAt(perType, t)
  }

  datatype PassResult = PassResult(perType: map<ItemType, TypeCounters>, batches: nat, completed: bool)

  function CountersFor(perType: map<ItemType, TypeCounters>, t: ItemType): TypeCounters {
    if t in perType then perType[t] else NO_COUNTERS
  }

  /** The counters once the selection of `t` is known. */
  function Selecting(perType: map<ItemType, TypeCounters>, t: ItemType,
                     selected: nat): (after: map<ItemType, TypeCounters>)
    ensures t in after && forall u | u != t :: u in after <==> u in perType
  {
    perType[t := CountersFor(perType, t).(selected := selected)]
  }

  /** The counters of every type add up to its keys in the batches. */
  ghost predicate CountsUp(perType: map<ItemType, TypeCounters>, batches: seq<seq<Key>>) {
    forall t: ItemType :: CountersFor(perType, t).Handled() == KeyCount(batches, t)
  }

  /** How many keys of one type exist without an overview. */
  function Blanks(w: World, batch: seq<Key>, t: ItemType): nat {
    if batch == [] then 0
    else
      var key := batch[|batch| - 1];
      Blanks(w, batch[..|batch| - 1], t) + if key.0 == t && key in w.live && w.blank(key) then 1 else 0
  }

  /** How many keys of a batch exist without an overview. */
  function Blank(w: World, batch: seq<Key>): nat {
    if batch == [] then 0
    else
      var key := batch[|batch| - 1];
      Blank(w, batch[..|batch| - 1]) + if key in w.live && w.blank(key) then 1 else 0
  }

  function BlanksOf(w: World, batches: seq<seq<Key>>, t: ItemType): nat {
    if batches == [] then 0 else BlanksOf(w, batches[..|batches| - 1], t) + Blanks(w, batches[|batches| - 1], t)
  }

  /** How many keys of a batch no longer exist. */
  function Gone(w: World, batch: seq<Key>): nat {
    if batch == [] then 0 else Gone(w, batch[..|batch| - 1]) + if batch[|batch| - 1] in w.live then 0 else 1
  }

  function GoneOf(w: World, batches: seq<seq<Key>>, t: ItemType): nat {
    if batches == [] then 0
    else
      var last := batches[|batches| - 1];
      GoneOf(w, batches[..|batches| - 1], t) + if OfType(last, t) then Gone(w, last) else 0
  }

  predicate OfType(batch: seq<Key>, t: ItemType) {
    forall key | key in batch :: key.0 == t
  }

  /** How many commits of one type are of items without a vector. */
  function CreatedOf(w: World, vectors: Vectors, force: bool, batches: seq<seq<Key>>, t: ItemType): nat {
    if batches == [] then 0
    else
      var init, last := batches[..|batches| - 1], batches[|batches| - 1];
      var before := AfterBatches(w, vectors, force, init);
      CreatedOf(w, vectors, force, init, t)
        + if OfType(last, t) then Absent(before, PendingOf(w, before, force, last)) else 0
  }

  /** The counters of a type tell its commits, those that are new, and its items that are gone. */
  predicate WorkAt(w: World, vectors: Vectors, force: bool, perType: map<ItemType, TypeCounters>,
                   batches: seq<seq<Key>>, t: ItemType) {
    var c := CountersFor(perType, t);
    && c.embedded == CountType(WritesOf(w, vectors, force, batches), t)
    && c.created == CreatedOf(w, vectors, force, batches, t)
    && c.vanished == GoneOf(w, batches, t)
  }

  ghost predicate WorkUp(w: World, vectors: Vectors, force: bool, perType: map<ItemType, TypeCounters>,
                         batches: seq<seq<Key>>) {
    forall t: ItemType :: WorkAt(w, vectors, force, perType, batches, t)
  }

  ghost predicate BlanksUp(w: World, perType: map<ItemType, TypeCounters>, batches: seq<seq<Key>>) {
    forall t: ItemType :: BlanksAt(w, perType, batches, t)
  }

  predicate BlanksAt(w: World, perType: map<ItemType, TypeCounters>, batches: seq<seq<Key>>, t: ItemType) {
    CountersFor(perType, t).withoutOverview == BlanksOf(w, batches, t)
  }

  /** A pass has come to a type once all batches before it are done. */
  predicate CameTo(types: seq<ItemType>, selection: Selection, size: Size, n: nat, t: ItemType) {
    t in types && FirstStart(types, selection, size, t) <= n
  }

  /** What the result of a pass says: the types it came to have counters and no others do, and the
      counters of a type are those of its keys in the batches that were done. */
  ghost predicate Accounts(w: World, types: seq<ItemType>, selection: Selection, size: Size, result: PassResult) {
    var plan := Plan(types, selection, size);
    && result.batches <= |plan|
    && (forall t: ItemType :: t in result.perType <==> CameTo(types, selection, size, result.batches, t))
    && (forall t | t in result.perType :: result.perType[t].selected == |selection(t)|)
    && CountsUp(result.perType, plan[..result.batches])
    && BlanksUp(w, result.perType, plan[..result.batches])
  }

  class EmbeddingStore {
    var vectors: Vectors
    ghost var writes: seq<Key>

    constructor (initial: Vectors)
      ensures vectors == initial && writes == []
    {
      vectors := initial;
      writes := [];
    }

    /** One batch: load what still exists, skip what is unchanged, embed and commit the rest at once. */
    method EmbedBatch(w: World, force: bool, batch: seq<Key>, before: TypeCounters) returns (counters: TypeCounters)
      modifies this
      ensures vectors == AfterBatch(w, old(vectors), force, batch)
      ensures writes == old(writes) + PendingOf(w, old(vectors), force, batch)
      ensures counters.selected == before.selected
      ensures counters.Handled() == before.Handled() + |batch|
      ensures counters.embedded == before.embedded + |PendingOf(w, old(vectors), force, batch)|
      ensures counters.created == before.created + Absent(old(vectors), PendingOf(w, old(vectors), force, batch))
      ensures counters.withoutOverview == before.withoutOverview + Blank(w, batch)
      ensures counters.vanished == before.vanished + Gone(w, batch)
      ensures before.Split() ==> counters.Split()
    {
      hide Written, AfterBatch, WritesOf, PendingOf, Blank, Gone;
      AfterBatchIs(w, vectors, force, batch);
      counters := before;
      var pending: seq<Key> := [];
      var i := 0;
      ghost var due := PendingOf(w, vectors, force, batch);
      assert batch[0..] == batch && [] + due == due;
      BlankStart(w, batch);
      while i < |batch|
        invariant 0 <= i <= |batch|
        invariant pending + PendingOf(w, vectors, force, batch[i..]) == due
        invariant counters.selected == before.selected && counters.embedded == before.embedded
        invariant counters.created == before.created && counters.updated == before.updated
        invariant counters.skipped + counters.vanished + |pending| == before.skipped + before.vanished + i
        invariant counters.withoutOverview == before.withoutOverview + Blank(w, batch[..i])
        invariant counters.vanished == before.vanished + Gone(w, batch[..i])
        invariant unchanged(this)
      {
        var key := batch[i];
        PendingStep(w, vectors, force, batch, i);
        BlankStep(w, batch, i);
        if key !in w.live {
          counters := counters.(vanished := counters.vanished + 1);
        } else {
          counters := counters.(withoutOverview := counters.withoutOverview + if w.blank(key) then 1 else 0);
          if w.Current(vectors, key) && !force {
            counters := counters.(skipped := counters.skipped + 1);
          } else {
            pending := pending + [key];
          }
        }
        i := i + 1;
      }
      PendingEnd(w, vectors, force, batch);
      assert batch[..i] == batch && pending + [] == pending;
      var absent := Absent(vectors, pending);
      vectors := Written(w, vectors, pending);
      writes := writes + pending;
      counters := counters.(embedded := counters.embedded + |pending|, created := counters.created + absent,
                            updated := counters.updated + (|pending| - absent));
    }

    /** `deadline` is how many batches the time budget lets start, if there is a budget. A type is
        counted afresh in `selected` each time it comes up, and added to in the other counters. */
    method RunEmbeddingPass(w: World, types: seq<ItemType>, selection: Selection, size: Size, deadline: Option<nat>,
                            force: bool)
      returns (result: PassResult)
      modifies this
      ensures var plan := Plan(types, selection, size);
        && result.batches == (if deadline.None? then |plan| else Min(deadline.value, |plan|))
        && (result.completed <==> result.batches == |plan|)
        && vectors == AfterBatches(w, old(vectors), force, plan[..result.batches])
        && writes == old(writes) + WritesOf(w, old(vectors), force, plan[..result.batches])
      ensures Accounts(w, types, selection, size, result)
      ensures WorkUp(w, old(vectors), force, result.perType, Plan(types, selection, size)[..result.batches])
      ensures AllSplit(result.perType)
    {
      hide *;
      NoneSplit();
      ghost var plan := Plan(types, selection, size);
      var perType: map<ItemType, TypeCounters> := map[];
      var done: nat, completed := 0, true;
      NothingDone(w, vectors, writes, force, types, selection, size);
      NoBlanks(w, plan);
      NoWork(w, vectors, force, plan);
      var i := 0;
      while i < |types| && completed
        invariant 0 <= i <= |types|
        invariant Reached(w, force, selection, plan, old(vectors), old(writes), done, vectors, writes, perType)
        invariant completed ==> done == |Plan(types[..i], selection, size)|
        invariant InTime(deadline, done, completed)
        invariant !completed ==> done < |plan|
        invariant !completed ==> i > 0 && done < |Plan(types[..i], selection, size)|
        invariant i > 0 ==> |Plan(types[..i - 1], selection, size)| <= done
        invariant done <= |plan| && AllSplit(perType) && BlanksUp(w, perType, plan[..done])
        invariant WorkUp(w, old(vectors), force, perType, plan[..done])
        invariant forall t: ItemType :: t in perType <==> t in types[..i]
      {
        PlanAt(types, selection, size, i);
        assert types[..i + 1] == types[..i] + [types[i]];
        done, completed, perType := EmbedType(w, force, types[i], selection, size, deadline, done, perType,
                                              plan, old(vectors), old(writes));
        i := i + 1;
      }
      PlanWhole(types, selection, size, i);
      result := PassResult(perType, done, completed);
      ReachedIs(w, force, selection, plan, old(vectors), old(writes), done, vectors, writes, perType);
      StoppedWhere(deadline, done, completed, |plan|);
      TypesCameTo(types, selection, size, i, done, completed);
      AccountsIs(w, types, selection, size, result);
    }

    /** The batches of one type, from batch number `start` of the pass on. */
    method EmbedType(w: World, force: bool, t: ItemType, selection: Selection, size: Size, deadline: Option<nat>,
                     start: nat, perTypeBefore: map<ItemType, TypeCounters>,
                     ghost plan: seq<seq<Key>>, ghost vectors0: Vectors, ghost writes0: seq<Key>)
      returns (done: nat, completed: bool, perType: map<ItemType, TypeCounters>)
      requires InTime(deadline, start, true)
      requires start <= |plan| && plan[..start] + BatchesOf(t, Chunks(selection(t), size)) <= plan
      requires Reached(w, force, selection, plan, vectors0, writes0, start, vectors, writes, perTypeBefore)
      requires AllSplit(perTypeBefore) && BlanksUp(w, perTypeBefore, plan[..start])
      requires WorkUp(w, vectors0, force, perTypeBefore, plan[..start])
      modifies this
      ensures done <= |plan| && WorkUp(w, vectors0, force, perType, plan[..done])
      ensures done <= |plan| && AllSplit(perType) && BlanksUp(w, perType, plan[..done])
      ensures forall u: ItemType :: u in perType <==> u in perTypeBefore || u == t
      ensures Reached(w, force, selection, plan, vectors0, writes0, done, vectors, writes, perType)
      ensures InTime(deadline, done, completed)
      ensures completed ==> done == start + |Chunks(selection(t), size)|
      ensures !completed ==> done < |plan| && done < start + |Chunks(selection(t), size)|
      ensures start <= done
    {
      hide Reached, Chunks, AfterBatch, PendingOf, AllSplit, Selecting, CountersFor, BlanksUp, Blanks,
        WorkUp, Gone, Absent;
      StaysSplit(perTypeBefore, t, |selection(t)|);
      var chunks := Chunks(selection(t), size);
      SelectedIs(w, force, selection, plan, vectors0, writes0, start, vectors, writes, perTypeBefore, t);
      perType := Selecting(perTypeBefore, t, |selection(t)|);
      BlanksSelected(w, perTypeBefore, t, |selection(t)|, plan[..start]);
      WorkSelected(w, vectors0, force, perTypeBefore, t, |selection(t)|, plan[..start]);
      done, completed := start, true;
      var j := 0;
      while j < |chunks|
        invariant 0 <= j <= |chunks| && done == start + j
        invariant InTime(deadline, done, true) && t in perType
        invariant Reached(w, force, selection, plan, vectors0, writes0, done, vectors, writes, perType)
        invariant AllSplit(perType) && perType[t].Split()
        invariant done <= |plan| && BlanksUp(w, perType, plan[..done])
        invariant WorkUp(w, vectors0, force, perType, plan[..done])
        invariant forall u: ItemType :: u in perType <==> u in perTypeBefore || u == t
      {
        BatchAt(plan, start, t, chunks, j);
        ChunksAreNotEmpty(selection(t), size, j);
        if deadline.Some? && done >= deadline.value {
          return done, false, perType;
        }
        ghost var v, ws, per := vectors, writes, perType;
        var counters := EmbedBatch(w, force, KeysOf(t, chunks[j]), perType[t]);
        OneSplit(per, t, counters);
        perType := perType[t := counters];
        BatchReaches(w, force, selection, plan, vectors0, writes0, done, v, ws, per, t, chunks[j], vectors, writes,
                     counters);
        BlanksReach(w, plan, done, per, t, chunks[j], counters);
        ReachedIs(w, force, selection, plan, vectors0, writes0, done, v, ws, per);
        WorkReaches(w, vectors0, force, plan, done, per, t, chunks[j], counters);
        done := done + 1;
        j := j + 1;
      }
    }
  }

  // ---- items without an overview

  lemma NoBlanks(w: World, plan: seq<seq<Key>>)
    ensures BlanksUp(w, map[], plan[..0])
  {
    assert plan[..0] == [];
  }

  lemma BlanksSelected(w: World, perType: map<ItemType, TypeCounters>, t: ItemType, selected: nat,
                       batches: seq<seq<Key>>)
    requires BlanksUp(w, perType, batches)
    ensures BlanksUp(w, Selecting(perType, t, selected), batches)
  {
    hide BlanksOf;
    forall u: ItemType
      ensures BlanksAt(w, Selecting(perType, t, selected), batches, u)
    {
      assert BlanksAt(w, perType, batches, u);
    }
  }

  lemma BlanksReach(w: World, plan: seq<seq<Key>>, n: nat, perType: map<ItemType, TypeCounters>, t: ItemType,
                    ids: seq<int>, counters: TypeCounters)
    requires n < |plan| && plan[n] == KeysOf(t, ids) && t in perType
    requires counters.withoutOverview == perType[t].withoutOverview + Blank(w, plan[n])
    requires BlanksUp(w, perType, plan[..n])
    ensures BlanksUp(w, perType[t := counters], plan[..n + 1])
  {
    hide Blank, Blanks, KeysOf;
    var after, batches := perType[t := counters], plan[..n + 1];
    assert batches[..n] == plan[..n];
    KeysPrefix(t, ids);
    forall u: ItemType
      ensures BlanksAt(w, after, batches, u)
    {
      assert BlanksAt(w, perType, plan[..n], u);
      BlanksOfType(w, t, ids, |ids|, u);
    }
  }

  lemma BlankStart(w: World, batch: seq<Key>)
    ensures Blank(w, batch[..0]) == 0 && Gone(w, batch[..0]) == 0
  {
  }

  lemma BlankStep(w: World, batch: seq<Key>, i: nat)
    requires i < |batch|
    ensures Gone(w, batch[..i + 1]) == Gone(w, batch[..i]) + if batch[i] in w.live then 0 else 1
    ensures Blank(w, batch[..i + 1]) == Blank(w, batch[..i]) + if batch[i] in w.live && w.blank(batch[i]) then 1 else 0
  {
    assert batch[..i + 1][..i] == batch[..i];
  }

  lemma KeysPrefix(t: ItemType, ids: seq<int>)
    ensures KeysOf(t, ids)[..|ids|] == KeysOf(t, ids)
  {
  }

  lemma {:induction false} BlanksOfType(w: World, t: ItemType, ids: seq<int>, n: nat, u: ItemType)
    requires n <= |ids|
    ensures Blanks(w, KeysOf(t, ids)[..n], u) == if u == t then Blank(w, KeysOf(t, ids)[..n]) else 0
  {
    if n > 0 {
      BlanksOfType(w, t, ids, n - 1, u);
      assert KeysOf(t, ids)[..n][..n - 1] == KeysOf(t, ids)[..n - 1];
    }
  }

  // ---- commits and items that are gone

  lemma NoWork(w: World, vectors: Vectors, force: bool, plan: seq<seq<Key>>)
    ensures WorkUp(w, vectors, force, map[], plan[..0])
  {
    assert plan[..0] == [];
  }

  lemma WorkSelected(w: World, vectors: Vectors, force: bool, perType: map<ItemType, TypeCounters>, t: ItemType,
                     selected: nat, batches: seq<seq<Key>>)
    requires WorkUp(w, vectors, force, perType, batches)
    ensures WorkUp(w, vectors, force, Selecting(perType, t, selected), batches)
  {
    hide WritesOf, CreatedOf, GoneOf, CountType;
    var after := Selecting(perType, t, selected);
    forall u: ItemType
      ensures WorkAt(w, vectors, force, after, batches, u)
    {
      assert WorkAt(w, vectors, force, perType, batches, u);
    }
  }

  /** What one more batch adds to the three sums. */
  lemma WorkStep(w: World, vectors: Vectors, force: bool, init: seq<seq<Key>>, t: ItemType, ids: seq<int>, u: ItemType)
    requires ids != []
    ensures var before, last := AfterBatches(w, vectors, force, init), KeysOf(t, ids);
      var pending := PendingOf(w, before, force, last);
      && CountType(WritesOf(w, vectors, force, init + [last]), u)
         == CountType(WritesOf(w, vectors, force, init), u) + (if u == t then |pending| else 0)
      && CreatedOf(w, vectors, force, init + [last], u)
         == CreatedOf(w, vectors, force, init, u) + (if u == t then Absent(before, pending) else 0)
      && GoneOf(w, init + [last], u) == GoneOf(w, init, u) + if u == t then Gone(w, last) else 0
  {
    hide PendingOf, Absent, Gone, CountType, KeysOf, OfType, AfterBatches, AfterBatch;
    var last := KeysOf(t, ids);
    var before := AfterBatches(w, vectors, force, init);
    var pending := PendingOf(w, before, force, last);
    var batches := init + [last];
    assert batches[..|init|] == init && batches[|init|] == last;
    OneMoreBatch(w, vectors, force, batches, |init|);
    assert batches[..|init| + 1] == batches;
    CountTypeConcat(WritesOf(w, vectors, force, init), pending, u);
    KeysAreOfType(t, ids, u);
    PendingMembers(w, before, force, last);
    AllOfType(pending, t, u);
  }

  lemma WorkReaches(w: World, vectors: Vectors, force: bool, plan: seq<seq<Key>>, n: nat,
                    perType: map<ItemType, TypeCounters>, t: ItemType, ids: seq<int>, counters: TypeCounters)
    requires n < |plan| && plan[n] == KeysOf(t, ids) && ids != [] && t in perType
    requires WorkUp(w, vectors, force, perType, plan[..n])
    requires var before := AfterBatches(w, vectors, force, plan[..n]);
      var pending := PendingOf(w, before, force, plan[n]);
      && counters.embedded == perType[t].embedded + |pending|
      && counters.created == perType[t].created + Absent(before, pending)
      && counters.vanished == perType[t].vanished + Gone(w, plan[n])
    ensures WorkUp(w, vectors, force, perType[t := counters], plan[..n + 1])
  {
    hide AfterBatches, PendingOf, Absent, Gone, CountType, KeysOf, WritesOf, CreatedOf, GoneOf;
    var after, batches := perType[t := counters], plan[..n + 1];
    assert batches == plan[..n] + [plan[n]];
    forall u: ItemType
      ensures WorkAt(w, vectors, force, after, batches, u)
    {
      assert WorkAt(w, vectors, force, perType, plan[..n], u);
      WorkStep(w, vectors, force, plan[..n], t, ids, u);
    }
  }

  lemma KeysAreOfType(t: ItemType, ids: seq<int>, u: ItemType)
    ensures forall key | key in KeysOf(t, ids) :: key.0 == t
    ensures ids != [] ==> (OfType(KeysOf(t, ids), u) <==> u == t)
  {
    assert ids != [] ==> KeysOf(t, ids)[0] in KeysOf(t, ids);
  }

  lemma {:induction false} AllOfType(keys: seq<Key>, t: ItemType, u: ItemType)
    requires forall key | key in keys :: key.0 == t
    ensures CountType(keys, u) == if u == t then |keys| else 0
  {
    if keys != [] {
      assert keys == [keys[0]] + keys[1..];
      AllOfType(keys[1..], t, u);
    }
  }

  lemma {:induction false} CountTypeConcat(a: seq<Key>, b: seq<Key>, t: ItemType)
    ensures CountType(a + b, t) == CountType(a, t) + CountType(b, t)
  {
    if a == [] {
      assert a + b == b;
    } else {
      assert (a + b)[1..] == a[1..] + b;
      CountTypeConcat(a[1..], b, t);
    }
  }

  lemma {:induction false} ChunksAreNotEmpty(ids: seq<int>, size: Size, j: nat)
    requires j < |Chunks(ids, size)|
    ensures Chunks(ids, size)[j] != []
    decreases |ids|
  {
    if j > 0 {
      ChunksAreNotEmpty(ids[Min(size, |ids|)..], size, j - 1);
    }
  }

  // ---- the types a pass comes to

  lemma {:induction false} StartsBefore(types: seq<ItemType>, selection: Selection, size: Size, j: nat)
    requires j < |types|
    ensures FirstStart(types, selection, size, types[j]) <= |Plan(types[..j], selection, size)|
  {
    hide Chunks;
    if j > 0 && types[0] != types[j] {
      StartsBefore(types[1..], selection, size, j - 1);
      assert types[..j][1..] == types[1..][..j - 1];
    }
  }

  lemma {:induction false} StartsAfter(types: seq<ItemType>, selection: Selection, size: Size, j: nat, t: ItemType)
    requires j <= |types| && t !in types[..j]
    ensures FirstStart(types, selection, size, t) >= |Plan(types[..j], selection, size)|
  {
    hide Chunks;
    if j > 0 {
      assert types[..j][0] == types[0] && types[..j][1..] == types[1..][..j - 1];
      assert types[..j] == [types[0]] + types[1..][..j - 1];
      StartsAfter(types[1..], selection, size, j - 1, t);
    }
  }

  lemma {:induction false} PlansGrow(types: seq<ItemType>, selection: Selection, size: Size, i: nat, j: nat)
    requires i <= j <= |types|
    ensures |Plan(types[..i], selection, size)| <= |Plan(types[..j], selection, size)|
  {
    hide Plan;
    assert types[..j] == types[..i] + types[i..j];
    PlanConcat(types[..i], types[i..j], selection, size);
  }

  /** A pass that looked at the first `i` types, stopping inside the last of them or not at all, came to
      exactly those. */
  lemma TypesCameTo(types: seq<ItemType>, selection: Selection, size: Size, i: nat, done: nat, completed: bool)
    requires i <= |types| && (completed ==> i == |types| && done == |Plan(types, selection, size)|)
    requires !completed ==> i > 0 && done < |Plan(types[..i], selection, size)|
    requires i > 0 ==> |Plan(types[..i - 1], selection, size)| <= done
    ensures forall t: ItemType :: t in types[..i] <==> CameTo(types, selection, size, done, t)
  {
    hide Plan, FirstStart;
    if completed {
      assert types[..i] == types;
    }
    forall t: ItemType
      ensures t in types[..i] <==> CameTo(types, selection, size, done, t)
    {
      if t in types[..i] {
        var j :| 0 <= j < i && types[j] == t;
        StartsBefore(types, selection, size, j);
        PlansGrow(types, selection, size, j, i - 1);
      } else if t in types {
        StartsAfter(types, selection, size, i, t);
      }
    }
  }

  lemma AccountsIs(w: World, types: seq<ItemType>, selection: Selection, size: Size, result: PassResult)
    requires var plan := Plan(types, selection, size);
      && result.batches <= |plan|
      && (forall t: ItemType :: t in result.perType <==> CameTo(types, selection, size, result.batches, t))
      && (forall t | t in result.perType :: result.perType[t].selected == |selection(t)|)
      && CountsUp(result.perType, plan[..result.batches])
      && BlanksUp(w, result.perType, plan[..result.batches])
    ensures Accounts(w, types, selection, size, result)
  {
  }

  lemma NoneSplit()
    ensures AllSplit(map[])
  {
  }

  lemma SplitAfter(perType: map<ItemType, TypeCounters>, t: ItemType, counters: TypeCounters, u: ItemType)
    requires SplitAt(perType, u) && counters.Split()
    ensures SplitAt(perType[t := counters], u)
  {
  }

  lemma StaysSplit(perType: map<ItemType, TypeCounters>, t: ItemType, selected: nat)
    requires AllSplit(perType)
    ensures AllSplit(Selecting(perType, t, selected)) && Selecting(perType, t, selected)[t].Split()
  {
    hide AllSplit, CountersFor;
    SplitOf(perType, t);
    SelectingKeepsSplit(CountersFor(perType, t), selected);
    OneSplit(perType, t, CountersFor(perType, t).(selected := selected));
  }

  lemma SelectingKeepsSplit(c: TypeCounters, selected: nat)
    ensures c.(selected := selected).Split() <==> c.Split()
  {
  }

  lemma SplitOf(perType: map<ItemType, TypeCounters>, t: ItemType)
    requires AllSplit(perType)
    ensures CountersFor(perType, t).Split()
  {
    hide CountersFor;
    assert SplitAt(perType, t);
  }

  lemma OneSplit(perType: map<ItemType, TypeCounters>, t: ItemType, counters: TypeCounters)
    requires AllSplit(perType) && counters.Split()
    ensures AllSplit(perType[t := counters])
  {
    hide SplitAt, CountersFor;
    var after := perType[t := counters];
    forall u: ItemType
      ensures SplitAt(after, u)
    {
      SplitAfter(perType, t, counters, u);
    }
  }

  /** The time budget lets `done` batches start; a pass that is cut off has started them all. */
  ghost predicate InTime(deadline: Option<nat>, done: nat, completed: bool) {
    if deadline.None? then completed else done <= deadline.value && (!completed ==> done == deadline.value)
  }

  /** A pass that started from `vectors0` and `writes0` has done the first `n` batches of its plan. */
  ghost predicate Reached(w: World, force: bool, selection: Selection, plan: seq<seq<Key>>, vectors0: Vectors,
                          writes0: seq<Key>, n: nat, vectors: Vectors, writes: seq<Key>,
                          perType: map<ItemType, TypeCounters>) {
    && n <= |plan|
    && vectors == AfterBatches(w, vectors0, force, plan[..n])
    && writes == writes0 + WritesOf(w, vectors0, force, plan[..n])
    && CountsUp(perType, plan[..n])
    && (forall t | t in perType :: perType[t].selected == |selection(t)|)
  }

  lemma ReachedIs(w: World, force: bool, selection: Selection, plan: seq<seq<Key>>, vectors0: Vectors,
                  writes0: seq<Key>, n: nat, vectors: Vectors, writes: seq<Key>, perType: map<ItemType, TypeCounters>)
    requires Reached(w, force, selection, plan, vectors0, writes0, n, vectors, writes, perType)
    ensures n <= |plan|
      && vectors == AfterBatches(w, vectors0, force, plan[..n])
      && writes == writes0 + WritesOf(w, vectors0, force, plan[..n])
      && CountsUp(perType, plan[..n])
      && (forall t | t in perType :: perType[t].selected == |selection(t)|)
  {
  }

  lemma StoppedWhere(deadline: Option<nat>, done: nat, completed: bool, total: nat)
    requires InTime(deadline, done, completed) && done <= total && (completed ==> done == total)
      && (!completed ==> done < total)
    ensures done == (if deadline.None? then total else Min(deadline.value, total))
    ensures completed <==> done == total
  {
  }

  lemma SelectedIs(w: World, force: bool, selection: Selection, plan: seq<seq<Key>>, vectors0: Vectors,
                   writes0: seq<Key>, n: nat, vectors: Vectors, writes: seq<Key>,
                   perType: map<ItemType, TypeCounters>, t: ItemType)
    requires Reached(w, force, selection, plan, vectors0, writes0, n, vectors, writes, perType)
    ensures Reached(w, force, selection, plan, vectors0, writes0, n, vectors, writes,
                    Selecting(perType, t, |selection(t)|))
  {
    hide AfterBatches, WritesOf, CountsUp;
    SameHandled(perType, t, |selection(t)|, plan[..n]);
  }

  lemma SameHandled(perType: map<ItemType, TypeCounters>, t: ItemType, selected: nat, batches: seq<seq<Key>>)
    requires CountsUp(perType, batches)
    ensures CountsUp(perType[t := CountersFor(perType, t).(selected := selected)], batches)
  {
    hide KeyCount, CountersFor;
    var after := perType[t := CountersFor(perType, t).(selected := selected)];
    forall u: ItemType
      ensures CountersFor(after, u).Handled() == KeyCount(batches, u)
    {
      HandledAt(perType, t, selected, u);
    }
  }

  lemma HandledAt(perType: map<ItemType, TypeCounters>, t: ItemType, selected: nat, u: ItemType)
    ensures CountersFor(perType[t := CountersFor(perType, t).(selected := selected)], u).Handled()
         == CountersFor(perType, u).Handled()
  {
  }

  lemma BatchAt(plan: seq<seq<Key>>, start: nat, t: ItemType, chunks: seq<seq<int>>, j: nat)
    requires start <= |plan| && plan[..start] + BatchesOf(t, chunks) <= plan && j < |chunks|
    ensures start + j < |plan| && plan[start + j] == KeysOf(t, chunks[j])
  {
    assert (plan[..start] + BatchesOf(t, chunks))[start + j] == BatchesOf(t, chunks)[j];
  }

  lemma BatchReaches(w: World, force: bool, selection: Selection, plan: seq<seq<Key>>, vectors0: Vectors,
                     writes0: seq<Key>, n: nat, vectors: Vectors, writes: seq<Key>,
                     perType: map<ItemType, TypeCounters>, t: ItemType, ids: seq<int>, vectors': Vectors,
                     writes': seq<Key>, counters: TypeCounters)
    requires Reached(w, force, selection, plan, vectors0, writes0, n, vectors, writes, perType)
    requires n < |plan| && plan[n] == KeysOf(t, ids) && t in perType
    requires vectors' == AfterBatch(w, vectors, force, plan[n])
    requires writes' == writes + PendingOf(w, vectors, force, plan[n])
    requires counters.selected == perType[t].selected && counters.Handled() == perType[t].Handled() + |ids|
    ensures Reached(w, force, selection, plan, vectors0, writes0, n + 1, vectors', writes', perType[t := counters])
  {
    hide AfterBatches, WritesOf, AfterBatch, PendingOf, CountsUp;
    OneMoreBatch(w, vectors0, force, plan, n);
    assert writes0 + (WritesOf(w, vectors0, force, plan[..n]) + PendingOf(w, vectors, force, plan[n])) == writes';
    CountersReach(plan, n, perType, t, ids, counters);
  }

  lemma CountersReach(plan: seq<seq<Key>>, n: nat, perType: map<ItemType, TypeCounters>, t: ItemType, ids: seq<int>,
                      counters: TypeCounters)
    requires n < |plan| && plan[n] == KeysOf(t, ids) && t in perType
    requires counters.Handled() == perType[t].Handled() + |ids|
    requires CountsUp(perType, plan[..n])
    ensures CountsUp(perType[t := counters], plan[..n + 1])
  {
    hide KeyCount, KeysOf;
    KeyCountStep(plan, n, t, ids);
    var after, batches := perType[t := counters], plan[..n + 1];
    forall u: ItemType
      ensures CountersFor(after, u).Handled() == KeyCount(batches, u)
    {
      assert CountersFor(perType, u).Handled() == KeyCount(plan[..n], u);
    }
  }

  lemma NothingDone(w: World, vectors: Vectors, writes: seq<Key>, force: bool, types: seq<ItemType>,
                    selection: Selection, size: Size)
    ensures Reached(w, force, selection, Plan(types, selection, size), vectors, writes, 0, vectors, writes, map[])
    ensures |Plan(types[..0], selection, size)| == 0
    ensures forall deadline: Option<nat> :: InTime(deadline, 0, true)
  {
    var plan := Plan(types, selection, size);
    assert plan[..0] == [];
    assert writes + [] == writes;
  }

  lemma PlanWhole(types: seq<ItemType>, selection: Selection, size: Size, i: nat)
    requires i <= |types|
    ensures i == |types| ==> Plan(types[..i], selection, size) == Plan(types, selection, size)
  {
    assert i == |types| ==> types[..i] == types;
  }

  lemma OneMoreBatch(w: World, vectors: Vectors, force: bool, plan: seq<seq<Key>>, n: nat)
    requires n < |plan|
    ensures var before := AfterBatches(w, vectors, force, plan[..n]);
      && AfterBatches(w, vectors, force, plan[..n + 1]) == AfterBatch(w, before, force, plan[n])
      && WritesOf(w, vectors, force, plan[..n + 1])
          == WritesOf(w, vectors, force, plan[..n]) + PendingOf(w, before, force, plan[n])
  {
    hide PendingOf, AfterBatch;
    assert plan[..n + 1][..n] == plan[..n];
  }

  /** Where the batches of the type number `i` stand in the plan. */
  lemma {:induction false} PlanAt(types: seq<ItemType>, selection: Selection, size: Size, i: nat)
    requires i < |types|
    ensures var batches := BatchesOf(types[i], Chunks(selection(types[i]), size));
      var before := Plan(types[..i], selection, size);
      && Plan(types[..i + 1], selection, size) == before + batches
      && before + batches <= Plan(types, selection, size)
      && |batches| == |Chunks(selection(types[i]), size)|
      && Plan(types, selection, size)[..|before|] == before
  {
    hide Chunks, Plan;
    assert types == types[..i + 1] + types[i + 1..];
    PlanConcat(types[..i + 1], types[i + 1..], selection, size);
    assert types[..i + 1] == types[..i] + [types[i]];
    PlanConcat(types[..i], [types[i]], selection, size);
    PlanOfOne(types[i], selection, size);
  }

  lemma PlanOfOne(t: ItemType, selection: Selection, size: Size)
    ensures Plan([t], selection, size) == BatchesOf(t, Chunks(selection(t), size))
  {
    hide Chunks, BatchesOf;
    assert [t][1..] == [];
    assert BatchesOf(t, Chunks(selection(t), size)) + [] == BatchesOf(t, Chunks(selection(t), size));
  }

  lemma {:induction false} PlanConcat(a: seq<ItemType>, b: seq<ItemType>, selection: Selection, size: Size)
    ensures Plan(a + b, selection, size) == Plan(a, selection, size) + Plan(b, selection, size)
  {
    hide Chunks, BatchesOf;
    if a == [] {
      assert a + b == b;
    } else {
      assert (a + b)[1..] == a[1..] + b;
      PlanConcat(a[1..], b, selection, size);
      var head := BatchesOf(a[0], Chunks(selection(a[0]), size));
      assert head + (Plan(a[1..], selection, size) + Plan(b, selection, size))
          == head + Plan(a[1..], selection, size) + Plan(b, selection, size);
    }
  }

  // ---- counting

  function CountType(batch: seq<Key>, t: ItemType): nat {
    if batch == [] then 0 else (if batch[0].0 == t then 1 else 0) + CountType(batch[1..], t)
  }

  /** How many keys of one type the batches hold. */
  function KeyCount(batches: seq<seq<Key>>, t: ItemType): nat {
    if batches == [] then 0
    else
      var last := |batches| - 1;
      KeyCount(batches[..last], t) + CountType(batches[last], t)
  }

  lemma {:induction false} CountTypeOfKeys(t: ItemType, ids: seq<int>, u: ItemType)
    ensures CountType(KeysOf(t, ids), u) == if t == u then |ids| else 0
  {
    if ids != [] {
      CountTypeOfKeys(t, ids[1..], u);
      assert KeysOf(t, ids)[1..] == KeysOf(t, ids[1..]);
    }
  }

  lemma KeyCountStep(plan: seq<seq<Key>>, n: nat, t: ItemType, ids: seq<int>)
    requires n < |plan| && plan[n] == KeysOf(t, ids)
    ensures forall u: ItemType :: KeyCount(plan[..n + 1], u) == KeyCount(plan[..n], u) + if t == u then |ids| else 0
  {
    forall u: ItemType
      ensures KeyCount(plan[..n + 1], u) == KeyCount(plan[..n], u) + if t == u then |ids| else 0
    {
      CountTypeOfKeys(t, ids, u);
      assert plan[..n + 1][..n] == plan[..n];
    }
  }

  function Times(types: seq<ItemType>, t: ItemType): nat {
    if types == [] then 0 else (if types[0] == t then 1 else 0) + Times(types[1..], t)
  }

  lemma AfterBatchIs(w: World, vectors: Vectors, force: bool, batch: seq<Key>)
    ensures forall key | key in PendingOf(w, vectors, force, batch) :: key in w.live
    ensures AfterBatch(w, vectors, force, batch) == Written(w, vectors, PendingOf(w, vectors, force, batch))
  {
    hide Written;
    PendingMembers(w, vectors, force, batch);
  }

  // ---- what the counters mean

  lemma {:induction false} KeyCountConcat(a: seq<seq<Key>>, b: seq<seq<Key>>, t: ItemType)
    ensures KeyCount(a + b, t) == KeyCount(a, t) + KeyCount(b, t)
    decreases |b|
  {
    hide CountType;
    if b == [] {
      assert a + b == a;
    } else {
      var last := |b| - 1;
      assert (a + b)[..|a + b| - 1] == a + b[..last];
      KeyCountConcat(a, b[..last], t);
    }
  }

  lemma {:induction false} KeyCountOfChunks(t: ItemType, ids: seq<int>, size: Size, u: ItemType)
    ensures KeyCount(BatchesOf(t, Chunks(ids, size)), u) == if t == u then |ids| else 0
    decreases |ids|
  {
    hide KeysOf, CountType, KeyCount;
    if ids == [] {
      KeyCountOfNone(u);
    } else {
      var n := Min(size, |ids|);
      KeyCountOfChunks(t, ids[n..], size, u);
      var rest := BatchesOf(t, Chunks(ids[n..], size));
      assert BatchesOf(t, Chunks(ids, size)) == [KeysOf(t, ids[..n])] + rest;
      KeyCountConcat([KeysOf(t, ids[..n])], rest, u);
      KeyCountOfOne(KeysOf(t, ids[..n]), u);
      CountTypeOfKeys(t, ids[..n], u);
    }
  }

  lemma KeyCountOfNone(t: ItemType)
    ensures KeyCount([], t) == 0
  {
  }

  lemma KeyCountOfOne(batch: seq<Key>, t: ItemType)
    ensures KeyCount([batch], t) == CountType(batch, t)
  {
    assert [batch][..0] == [];
  }

  lemma {:induction false} KeyCountOfPlan(types: seq<ItemType>, selection: Selection, size: Size, t: ItemType)
    ensures KeyCount(Plan(types, selection, size), t) == Times(types, t) * |selection(t)|
  {
    hide KeyCount, BatchesOf, Chunks;
    if types == [] {
      KeyCountOfNone(t);
    } else {
      KeyCountOfPlan(types[1..], selection, size, t);
      KeyCountConcat(BatchesOf(types[0], Chunks(selection(types[0]), size)), Plan(types[1..], selection, size), t);
      KeyCountOfChunks(types[0], selection(types[0]), size, t);
      OneMoreTime(if types[0] == t then 1 else 0, Times(types[1..], t), |selection(t)|);
    }
  }

  lemma OneMoreTime(a: nat, b: nat, n: nat)
    requires a <= 1
    ensures (a + b) * n == (if a == 1 then n else 0) + b * n
  {
  }

  /** Main result on the counters: skipped, embedded and vanished make up the selection of a type, once
      for every time the type was asked for, on a completed pass, and no more than that on a stopped
      one. With no type asked for twice this is the identity `selected == skipped + embedded + vanished`. */
  lemma SelectionIsAccountedFor(types: seq<ItemType>, selection: Selection, size: Size, n: nat, t: ItemType)
    requires n <= |Plan(types, selection, size)|
    ensures var plan := Plan(types, selection, size);
      && KeyCount(plan[..n], t) <= Times(types, t) * |selection(t)|
      && (n == |plan| ==> KeyCount(plan[..n], t) == Times(types, t) * |selection(t)|)
      && (n == |plan| && Distinct(types) && t in types ==> KeyCount(plan[..n], t) == |selection(t)|)
  {
    hide KeyCount, Plan;
    var plan := Plan(types, selection, size);
    KeyCountOfPlan(types, selection, size, t);
    KeyCountConcat(plan[..n], plan[n..], t);
    assert plan[..n] + plan[n..] == plan;
    assert n == |plan| ==> plan[..n] == plan;
    if Distinct(types) && t in types {
      TimesOfDistinct(types, t);
    }
  }

  // ---- exactly when the counters add up

  /** How many batches come before the first one of `t`; all of them when `t` is not asked for. */
  function FirstStart(types: seq<ItemType>, selection: Selection, size: Size, t: ItemType): nat {
    if types == [] || types[0] == t then 0
    else |Chunks(selection(types[0]), size)| + FirstStart(types[1..], selection, size, t)
  }

  /** How many batches there are up to the end of the first time `t` is asked for. */
  function FirstEnd(types: seq<ItemType>, selection: Selection, size: Size, t: ItemType): nat {
    FirstStart(types, selection, size, t) + |Chunks(selection(t), size)|
  }

  /** How many batches come before the second time `t` is asked for; all of them when it is not. */
  function SecondStart(types: seq<ItemType>, selection: Selection, size: Size, t: ItemType): nat {
    if types == [] then 0
    else
      |Chunks(selection(types[0]), size)|
        + if types[0] == t then FirstStart(types[1..], selection, size, t)
          else SecondStart(types[1..], selection, size, t)
  }

  /** How many keys of `u` the first `n` batches of one type hold. */
  lemma {:induction false} ChunksCount(t: ItemType, ids: seq<int>, size: Size, n: nat, u: ItemType)
    requires n <= |Chunks(ids, size)|
    ensures var count := KeyCount(BatchesOf(t, Chunks(ids, size))[..n], u);
      && (u != t ==> count == 0)
      && (u == t ==> (count == 0 <==> n == 0) && (count == |ids| <==> n == |Chunks(ids, size)|) && count <= |ids|)
    decreases |ids|
  {
    hide KeysOf, CountType, KeyCount;
    var batches := BatchesOf(t, Chunks(ids, size));
    if n == 0 {
      KeyCountOfNone(u);
      assert batches[..0] == [];
    } else {
      var m := Min(size, |ids|);
      var rest := BatchesOf(t, Chunks(ids[m..], size));
      ChunksCount(t, ids[m..], size, n - 1, u);
      assert batches == [KeysOf(t, ids[..m])] + rest;
      assert batches[..n] == [KeysOf(t, ids[..m])] + rest[..n - 1];
      KeyCountConcat([KeysOf(t, ids[..m])], rest[..n - 1], u);
      KeyCountOfOne(KeysOf(t, ids[..m]), u);
      CountTypeOfKeys(t, ids[..m], u);
    }
  }

  lemma NoChunks(ids: seq<int>, size: Size)
    ensures Chunks(ids, size) == [] <==> ids == []
  {
  }

  /** The count of a type over a prefix of the plan, one type at a time. */
  lemma PrefixCount(types: seq<ItemType>, selection: Selection, size: Size, n: nat, t: ItemType)
    requires types != [] && n <= |Plan(types, selection, size)|
    ensures var first, rest := BatchesOf(types[0], Chunks(selection(types[0]), size)),
      Plan(types[1..], selection, size);
      && |first| == |Chunks(selection(types[0]), size)| && |Plan(types, selection, size)| == |first| + |rest|
      && KeyCount(Plan(types, selection, size)[..n], t) ==
        (if n <= |first| then KeyCount(first[..n], t)
         else KeyCount(first, t) + KeyCount(rest[..n - |first|], t))
  {
    hide KeyCount, Chunks;
    var first, rest := BatchesOf(types[0], Chunks(selection(types[0]), size)), Plan(types[1..], selection, size);
    if n <= |first| {
      assert (first + rest)[..n] == first[..n];
    } else {
      assert (first + rest)[..n] == first + rest[..n - |first|];
      KeyCountConcat(first, rest[..n - |first|], t);
    }
  }

  lemma {:induction false} NoneCountedExactly(types: seq<ItemType>, selection: Selection, size: Size, n: nat,
                                              t: ItemType)
    requires n <= |Plan(types, selection, size)|
    ensures KeyCount(Plan(types, selection, size)[..n], t) == 0
      <==> selection(t) == [] || n <= FirstStart(types, selection, size, t) || t !in types
  {
    hide KeyCount, Chunks, BatchesOf;
    if types == [] {
      KeyCountOfNone(t);
      assert Plan(types, selection, size)[..n] == [];
    } else {
      PrefixCount(types, selection, size, n, t);
      assert types == [types[0]] + types[1..];
      var chunks := Chunks(selection(types[0]), size);
      ChunksCount(types[0], selection(types[0]), size, Min(n, |chunks|), t);
      ChunksCount(types[0], selection(types[0]), size, |chunks|, t);
      WholePrefix(BatchesOf(types[0], chunks));
      NoChunks(selection(t), size);
      if n > |chunks| {
        NoneCountedExactly(types[1..], selection, size, n - |chunks|, t);
      }
    }
  }

  lemma WholePrefix(batches: seq<seq<Key>>)
    ensures batches[..|batches|] == batches
  {
  }

  /** The first `n` batches of a pass hold as many keys of a type as its selection if and only if the
      selection is empty, or every batch of the type is among them once and none a second time. */
  lemma {:induction false} KeyCountIsTheSelection(types: seq<ItemType>, selection: Selection, size: Size, n: nat,
      t: ItemType)
    requires n <= |Plan(types, selection, size)| && t in types
    ensures KeyCount(Plan(types, selection, size)[..n], t) == |selection(t)| <==>
      selection(t) == [] || FirstEnd(types, selection, size, t) <= n <= SecondStart(types, selection, size, t)
  {
    hide KeyCount, Chunks, BatchesOf;
    PrefixCount(types, selection, size, n, t);
    assert types == [types[0]] + types[1..];
    var chunks := Chunks(selection(types[0]), size);
    ChunksCount(types[0], selection(types[0]), size, Min(n, |chunks|), t);
    ChunksCount(types[0], selection(types[0]), size, |chunks|, t);
    WholePrefix(BatchesOf(types[0], chunks));
    NoChunks(selection(t), size);
    if n > |chunks| {
      if types[0] == t {
        NoneCountedExactly(types[1..], selection, size, n - |chunks|, t);
        AllBefore(types[1..], selection, size, t);
      } else {
        KeyCountIsTheSelection(types[1..], selection, size, n - |chunks|, t);
      }
    }
  }

  /** A type that is not asked for again has the whole rest of the plan before its second time. */
  lemma {:induction false} AllBefore(types: seq<ItemType>, selection: Selection, size: Size, t: ItemType)
    ensures FirstStart(types, selection, size, t) <= |Plan(types, selection, size)|
    ensures t !in types ==> FirstStart(types, selection, size, t) == |Plan(types, selection, size)|
  {
    hide Chunks;
    if types != [] {
      assert types == [types[0]] + types[1..];
      AllBefore(types[1..], selection, size, t);
    }
  }

  /** Main result on the counters, the exact condition. A type the pass never came to has no counters at
      all. For any other, `selected == skipped + embedded + vanished` holds if and only if its selection
      is empty, or every batch of the type has been done once and none a second time. */
  lemma SelectionAddsUpExactly(w: World, types: seq<ItemType>, selection: Selection, size: Size, result: PassResult,
                               t: ItemType)
    requires Accounts(w, types, selection, size, result)
    ensures t in result.perType <==> CameTo(types, selection, size, result.batches, t)
    ensures t in result.perType ==>
      (result.perType[t].selected == result.perType[t].Handled() <==>
        || selection(t) == []
        || FirstEnd(types, selection, size, t) <= result.batches <= SecondStart(types, selection, size, t))
  {
    hide Plan, BlanksUp, KeyCount, FirstStart, FirstEnd, SecondStart;
    if t in result.perType {
      KeyCountIsTheSelection(types, selection, size, result.batches, t);
      assert CountersFor(result.perType, t).Handled() == KeyCount(Plan(types, selection, size)[..result.batches], t);
    }
  }

  /** The identity fails on a pass over one type that was stopped before its first batch, and on a
      completed pass over a type asked for twice, which handles twice what it selected. Here all the
      selected items have vanished by then. */
  lemma CountersNeedNotAddUp(w: World, t: ItemType, selection: Selection, size: Size)
    returns (stopped: PassResult, doubled: PassResult)
    requires selection(t) != [] && w.live == map[]
    ensures Accounts(w, [t], selection, size, stopped) && stopped.batches == 0
    ensures t in stopped.perType && stopped.perType[t].Handled() == 0 != stopped.perType[t].selected
    ensures Accounts(w, [t, t], selection, size, doubled) && doubled.batches == |Plan([t, t], selection, size)|
    ensures t in doubled.perType && doubled.perType[t].Handled() == 2 * doubled.perType[t].selected
    ensures doubled.perType[t].Handled() != doubled.perType[t].selected
  {
    hide Accounts, Plan;
    var n, plan := |selection(t)|, Plan([t, t], selection, size);
    stopped := PassResult(map[t := NO_COUNTERS.(selected := n)], 0, false);
    doubled := PassResult(map[t := NO_COUNTERS.(selected := n, vanished := 2 * n)], |plan|, true);
    TwiceIsTwo(t);
    forall u: ItemType
      ensures KeyCount(Plan([t], selection, size)[..0], u) == 0
      ensures KeyCount(plan[..|plan|], u) == if u == t then 2 * n else 0
    {
      assert Plan([t], selection, size)[..0] == [];
      KeyCountOfNone(u);
      KeyCountOfPlan([t, t], selection, size, u);
      WholePrefix(plan);
    }
    Vanished(w, [t], selection, size, t, 0, stopped);
    Vanished(w, [t, t], selection, size, t, 2 * n, doubled);
  }

  lemma TwiceIsTwo(t: ItemType)
    ensures forall u :: Times([t, t], u) == if u == t then 2 else 0
  {
    assert [t, t][1..] == [t] && [t][1..] == [];
    assert forall u :: Times([t], u) == if u == t then 1 else 0;
  }

  /** A pass over one type of which nothing exists any more. */
  lemma Vanished(w: World, types: seq<ItemType>, selection: Selection, size: Size, t: ItemType, n: nat,
                 result: PassResult)
    requires w.live == map[] && types != [] && forall u | u in types :: u == t
    requires result.batches <= |Plan(types, selection, size)|
    requires result.perType == map[t := NO_COUNTERS.(selected := |selection(t)|, vanished := n)]
    requires forall u :: KeyCount(Plan(types, selection, size)[..result.batches], u) == if u == t then n else 0
    ensures Accounts(w, types, selection, size, result)
  {
    hide Plan, KeyCount, BlanksOf;
    var batches := Plan(types, selection, size)[..result.batches];
    assert types[0] in types;
    assert types[0] == t && FirstStart(types, selection, size, t) == 0;
    forall u: ItemType
      ensures BlanksAt(w, result.perType, batches, u)
    {
      NothingBlank(w, batches, u);
    }
  }

  lemma {:induction false} NothingBlank(w: World, batches: seq<seq<Key>>, u: ItemType)
    requires w.live == map[]
    ensures BlanksOf(w, batches, u) == 0
  {
    hide Blanks;
    if batches != [] {
      NothingBlank(w, batches[..|batches| - 1], u);
      NoneBlank(w, batches[|batches| - 1], u);
    }
  }

  lemma {:induction false} NoneBlank(w: World, batch: seq<Key>, u: ItemType)
    requires w.live == map[]
    ensures Blanks(w, batch, u) == 0
  {
    if batch != [] {
      NoneBlank(w, batch[..|batch| - 1], u);
    }
  }

  lemma {:induction false} TimesOfDistinct(types: seq<ItemType>, t: ItemType)
    requires Distinct(types)
    ensures Times(types, t) == if t in types then 1 else 0
  {
    if types != [] {
      assert types == [types[0]] + types[1..];
      DistinctTail(types);
      TimesOfDistinct(types[1..], t);
    }
  }

  // ---- no work is redone

  ghost predicate AllDistinct(batches: seq<seq<Key>>) {
    forall i | 0 <= i < |batches| :: Distinct(batches[i])
  }

  ghost predicate InBatches(batches: seq<seq<Key>>, key: Key) {
    exists i | 0 <= i < |batches| :: key in batches[i]
  }

  /** What one key's vector is after a commit. */
  lemma WrittenAt(w: World, vectors: Vectors, keys: seq<Key>, key: Key)
    requires forall k | k in keys :: k in w.live
    ensures var after := Written(w, vectors, keys);
      && (key in after <==> key in vectors || key in keys)
      && (key in after ==> after[key] == if key in keys then w.Fresh(key) else vectors[key])
  {
  }

  /** A key is committed exactly when it exists, was not up to date, and is in some batch; then it is up
      to date, and everything else is untouched. */
  lemma {:induction false} BatchesSettle(w: World, vectors: Vectors, batches: seq<seq<Key>>, key: Key)
    requires AllDistinct(batches)
    ensures var after, writes := AfterBatches(w, vectors, false, batches), WritesOf(w, vectors, false, batches);
      && Distinct(writes)
      && (key in writes <==> key in w.live && !w.Current(vectors, key) && InBatches(batches, key))
      && (key in w.live ==> (w.Current(after, key) <==> w.Current(vectors, key) || InBatches(batches, key)))
      && (key !in writes ==> (key in after <==> key in vectors) && (key in vectors ==> after[key] == vectors[key]))
    decreases |batches|
  {
    hide Written, PendingOf, AfterBatch;
    if batches != [] {
      var last := |batches| - 1;
      var init := batches[..last];
      assert AllDistinct(init);
      BatchesSettle(w, vectors, init, key);
      var before, earlier := AfterBatches(w, vectors, false, init), WritesOf(w, vectors, false, init);
      var pending := PendingOf(w, before, false, batches[last]);
      PendingMembers(w, before, false, batches[last]);
      AfterBatchIs(w, before, false, batches[last]);
      WrittenAt(w, before, pending, key);
      assert InBatches(batches, key) <==> InBatches(init, key) || key in batches[last] by {
        InBatchesSplit(batches, key);
      }
      forall k | k in pending
        ensures k !in earlier
      {
        BatchesSettle(w, vectors, init, k);
      }
      DistinctConcat(earlier, pending);
    }
  }

  lemma DistinctConcat(a: seq<Key>, b: seq<Key>)
    requires Distinct(a) && Distinct(b) && forall k | k in b :: k !in a
    ensures Distinct(a + b)
  {
    forall i, j | 0 <= i < j < |a + b|
      ensures (a + b)[i] != (a + b)[j]
    {
      if i < |a| <= j {
        assert b[j - |a|] in b && a[i] in a;
      }
    }
  }

  lemma InBatchesSplit(batches: seq<seq<Key>>, key: Key)
    requires batches != []
    ensures var last := |batches| - 1;
      InBatches(batches, key) <==> InBatches(batches[..last], key) || key in batches[last]
  {
    var last := |batches| - 1;
    if InBatches(batches[..last], key) {
      var i :| 0 <= i < last && key in batches[..last][i];
      assert key in batches[i];
    }
    if i :| 0 <= i < |batches| && key in batches[i] {
      assert i < last ==> key in batches[..last][i];
    }
  }

  lemma {:induction false} HistoriesCompose(w: World, vectors: Vectors, a: seq<seq<Key>>, b: seq<seq<Key>>)
    ensures var after := AfterBatches(w, vectors, false, a);
      && AfterBatches(w, vectors, false, a + b) == AfterBatches(w, after, false, b)
      && WritesOf(w, vectors, false, a + b) == WritesOf(w, vectors, false, a) + WritesOf(w, after, false, b)
    decreases |b|
  {
    hide PendingOf, AfterBatch;
    var after := AfterBatches(w, vectors, false, a);
    if b == [] {
      assert a + b == a;
      assert WritesOf(w, vectors, false, a) + [] == WritesOf(w, vectors, false, a);
    } else {
      var last := |b| - 1;
      assert (a + b)[..|a + b| - 1] == a + b[..last] && (a + b)[|a + b| - 1] == b[last];
      HistoriesCompose(w, vectors, a, b[..last]);
      var pending := PendingOf(w, AfterBatches(w, after, false, b[..last]), false, b[last]);
      assert WritesOf(w, vectors, false, a) + (WritesOf(w, after, false, b[..last]) + pending)
          == WritesOf(w, vectors, false, a) + WritesOf(w, after, false, b[..last]) + pending;
    }
  }

  ghost predicate Selects(selection: Selection) {
    forall t: ItemType :: Distinct(selection(t))
  }

  lemma {:induction false} ChunksHold(t: ItemType, ids: seq<int>, size: Size, key: Key)
    requires Distinct(ids)
    ensures AllDistinct(BatchesOf(t, Chunks(ids, size)))
    ensures InBatches(BatchesOf(t, Chunks(ids, size)), key) <==> key.0 == t && key.1 in ids
    decreases |ids|
  {
    hide Chunks, BatchesOf, Distinct, AllDistinct, InBatches, KeysOf;
    var n := Min(size, |ids|);
    BatchesStep(t, ids, size);
    if ids == [] {
      NoBatches();
      NothingInBatches(key);
    } else {
      var first, rest := ids[..n], ids[n..];
      assert ids == first + rest;
      DistinctHalves(ids, n);
      ChunksHold(t, rest, size, key);
      KeysAre(t, first, key);
      BatchesCons(KeysOf(t, first), BatchesOf(t, Chunks(rest, size)), key);
    }
  }

  lemma BatchesStep(t: ItemType, ids: seq<int>, size: Size)
    ensures var n := Min(size, |ids|);
      BatchesOf(t, Chunks(ids, size)) ==
        if ids == [] then [] else [KeysOf(t, ids[..n])] + BatchesOf(t, Chunks(ids[n..], size))
  {
    hide KeysOf;
  }

  lemma NothingInBatches(key: Key)
    ensures !InBatches([], key)
  {
  }

  lemma DistinctHalves(ids: seq<int>, n: nat)
    requires Distinct(ids) && n <= |ids|
    ensures Distinct(ids[..n]) && Distinct(ids[n..])
  {
  }

  lemma KeysAre(t: ItemType, ids: seq<int>, key: Key)
    requires Distinct(ids)
    ensures Distinct(KeysOf(t, ids))
    ensures key in KeysOf(t, ids) <==> key.0 == t && key.1 in ids
  {
    if key.0 == t && key.1 in ids {
      var i :| 0 <= i < |ids| && ids[i] == key.1;
      assert KeysOf(t, ids)[i] == key;
    }
  }

  lemma BatchesCons(first: seq<Key>, rest: seq<seq<Key>>, key: Key)
    requires Distinct(first) && AllDistinct(rest)
    ensures AllDistinct([first] + rest)
    ensures InBatches([first] + rest, key) <==> key in first || InBatches(rest, key)
  {
    if i :| 0 <= i < |rest| && key in rest[i] {
      assert key in ([first] + rest)[i + 1];
    }
    if i :| 0 <= i < |[first] + rest| && key in ([first] + rest)[i] {
      assert i > 0 ==> key in rest[i - 1];
    }
    if key in first {
      assert key in ([first] + rest)[0];
    }
  }

  lemma BatchesConcat(a: seq<seq<Key>>, b: seq<seq<Key>>, key: Key)
    requires AllDistinct(a) && AllDistinct(b)
    ensures AllDistinct(a + b)
    ensures InBatches(a + b, key) <==> InBatches(a, key) || InBatches(b, key)
  {
    if i :| 0 <= i < |a| && key in a[i] {
      assert key in (a + b)[i];
    }
    if i :| 0 <= i < |b| && key in b[i] {
      assert key in (a + b)[|a| + i];
    }
    if i :| 0 <= i < |a + b| && key in (a + b)[i] {
      assert i < |a| ==> key in a[i];
      assert i >= |a| ==> key in b[i - |a|];
    }
  }

  /** The plan of a pass holds exactly the selected items of the requested types. */
  lemma {:induction false} PlanHolds(types: seq<ItemType>, selection: Selection, size: Size, key: Key)
    requires Selects(selection)
    ensures AllDistinct(Plan(types, selection, size))
    ensures InBatches(Plan(types, selection, size), key) <==> key.0 in types && key.1 in selection(key.0)
  {
    hide BatchesOf, Chunks, AllDistinct;
    if types == [] {
      assert AllDistinct([]) by {
        NoBatches();
      }
    } else {
      assert types == [types[0]] + types[1..];
      PlanHolds(types[1..], selection, size, key);
      ChunksHold(types[0], selection(types[0]), size, key);
      BatchesConcat(BatchesOf(types[0], Chunks(selection(types[0]), size)), Plan(types[1..], selection, size), key);
    }
  }

  lemma NoBatches()
    ensures AllDistinct([])
  {
  }

  /** Main result. Whatever batches stopped, killed and re-dispatched passes committed before (`earlier`)
      and commit after (`later`): by the end of a completed pass every selected item that exists has
      been committed exactly once if it was not up to date at the start and never otherwise, and it is
      never committed again. */
  lemma NoWorkIsRedone(w: World, vectors: Vectors, earlier: seq<seq<Key>>, types: seq<ItemType>, selection: Selection,
                       size: Size, later: seq<seq<Key>>, key: Key)
    requires Selects(selection) && AllDistinct(earlier) && AllDistinct(later)
    requires key.0 in types && key.1 in selection(key.0) && key in w.live
    ensures var upTo := earlier + Plan(types, selection, size);
      var after := AfterBatches(w, vectors, false, upTo);
      && w.Current(after, key)
      && multiset(WritesOf(w, vectors, false, upTo))[key] == (if w.Current(vectors, key) then 0 else 1)
      && key !in WritesOf(w, after, false, later)
      && WritesOf(w, vectors, false, upTo + later)
          == WritesOf(w, vectors, false, upTo) + WritesOf(w, after, false, later)
  {
    hide Plan, AfterBatches, WritesOf, AllDistinct, InBatches;
    var plan := Plan(types, selection, size);
    PlanHolds(types, selection, size, key);
    BatchesConcat(earlier, plan, key);
    BatchesSettle(w, vectors, earlier + plan, key);
    var after := AfterBatches(w, vectors, false, earlier + plan);
    BatchesSettle(w, after, later, key);
    HistoriesCompose(w, vectors, earlier + plan, later);
    DistinctOnce(WritesOf(w, vectors, false, earlier + plan), key);
  }

  lemma DistinctOnce(s: seq<Key>, key: Key)
    requires Distinct(s)
    ensures multiset(s)[key] == if key in s then 1 else 0
  {
    if key in s {
      var k :| 0 <= k < |s| && s[k] == key;
      assert s == s[..k] + [key] + s[k + 1..];
      assert key !in s[..k] && key !in s[k + 1..];
    }
  }

  /** A pass over a selection that was completed before commits nothing. */
  lemma RedispatchWritesNothing(w: World, vectors: Vectors, types: seq<ItemType>, selection: Selection, size: Size,
                                n: nat)
    requires Selects(selection) && n <= |Plan(types, selection, size)|
    requires forall t, id | t in types && id in selection(t) && (t, id) in w.live :: w.Current(vectors, (t, id))
    ensures WritesOf(w, vectors, false, Plan(types, selection, size)[..n]) == []
  {
    hide Plan, AfterBatches, WritesOf, InBatches;
    var plan := Plan(types, selection, size);
    var writes := WritesOf(w, vectors, false, plan[..n]);
    forall key
      ensures key !in writes
    {
      PlanHolds(types, selection, size, key);
      PrefixHolds(plan, n, key);
      BatchesSettle(w, vectors, plan[..n], key);
      var (t, id) := key;
      assert key == (t, id);
    }
    NonEmptyHas(writes);
  }

  lemma PrefixHolds(batches: seq<seq<Key>>, n: nat, key: Key)
    requires n <= |batches|
    ensures InBatches(batches[..n], key) ==> InBatches(batches, key)
  {
    if i :| 0 <= i < n && key in batches[..n][i] {
      assert key in batches[i];
    }
  }

  // ---- when a vector is out of date

  /** Main result on what is embedded. After a pass over any selection: without `force`, a selected item is
      committed if and only if it exists and had no vector, one of another model, or one of another text;
      with `force`, if and only if it exists. What is stored for it afterwards is the vector of the current
      model and text, and nothing else is touched. */
  lemma PassCommitsExactly(w: World, vectors: Vectors, force: bool, types: seq<ItemType>, selection: Selection,
                           size: Size, key: Key)
    requires Selects(selection)
    ensures var plan := Plan(types, selection, size);
      var after, writes := AfterBatches(w, vectors, force, plan), WritesOf(w, vectors, force, plan);
      var selected := key.0 in types && key.1 in selection(key.0) && key in w.live;
      && (key in writes <==>
            && selected
            && (|| force || key !in vectors || vectors[key].model != w.model
                || vectors[key].hash != w.digest(w.live[key])))
      && (selected ==> key in after && after[key].model == w.model && after[key].hash == w.digest(w.live[key]))
      && (!selected ==> (key in after <==> key in vectors) && (key in vectors ==> after[key] == vectors[key]))
  {
    hide Plan, AfterBatches, WritesOf, InBatches;
    var plan := Plan(types, selection, size);
    PlanHolds(types, selection, size, key);
    if force {
      ForcedBatchesSettle(w, vectors, plan, key);
    } else {
      BatchesSettle(w, vectors, plan, key);
    }
  }

  /** With `force` every existing item of a batch is committed. */
  lemma {:induction false} ForcedBatchesSettle(w: World, vectors: Vectors, batches: seq<seq<Key>>, key: Key)
    ensures var after, writes := AfterBatches(w, vectors, true, batches), WritesOf(w, vectors, true, batches);
      && (key in writes <==> key in w.live && InBatches(batches, key))
      && (key in writes ==> key in after && after[key] == w.Fresh(key))
      && (key !in writes ==> (key in after <==> key in vectors) && (key in vectors ==> after[key] == vectors[key]))
    decreases |batches|
  {
    hide Written, PendingOf, AfterBatch;
    if batches != [] {
      var last := |batches| - 1;
      var init := batches[..last];
      ForcedBatchesSettle(w, vectors, init, key);
      var before := AfterBatches(w, vectors, true, init);
      PendingMembers(w, before, true, batches[last]);
      AfterBatchIs(w, before, true, batches[last]);
      WrittenAt(w, before, PendingOf(w, before, true, batches[last]), key);
      InBatchesSplit(batches, key);
    }
  }

  /** And over time: an item that a pass selected and that a later pass, over a catalog and a model that may
      have changed, selects again is committed by the later one if and only if it still exists and its text
      has changed, as far as its digest tells, or the model has. */
  lemma ChangedTextsAreEmbeddedAgain(was: World, now: World, vectors: Vectors, types: seq<ItemType>,
                                     first: Selection, second: Selection, size: Size, key: Key)
    requires Selects(first) && Selects(second) && key.0 in types && key.1 in first(key.0) && key.1 in second(key.0)
    requires key in was.live
    ensures var between := AfterBatches(was, vectors, false, Plan(types, first, size));
      key in WritesOf(now, between, false, Plan(types, second, size)) <==>
        && key in now.live
        && (now.model != was.model || now.digest(now.live[key]) != was.digest(was.live[key]))
  {
    hide Plan, AfterBatches, WritesOf;
    PassCommitsExactly(was, vectors, false, types, first, size, key);
    var between := AfterBatches(was, vectors, false, Plan(types, first, size));
    PassCommitsExactly(now, between, false, types, second, size, key);
  }

  // ---- what is counted as created

  ghost predicate OneType(batch: seq<Key>) {
    exists t: ItemType :: OfType(batch, t)
  }

  ghost predicate AllOneType(batches: seq<seq<Key>>) {
    forall i | 0 <= i < |batches| :: OneType(batches[i])
  }

  /** The keys of one type among `keys` that had no vector. */
  function NewAmong(vectors: Vectors, keys: seq<Key>, t: ItemType): set<Key> {
    set key | key in keys && key.0 == t && key !in vectors
  }

  lemma OneMoreNew(vectors: Vectors, key: Key, rest: seq<Key>, t: ItemType)
    requires key !in rest && key.0 == t
    ensures |NewAmong(vectors, [key] + rest, t)| == |NewAmong(vectors, rest, t)| + if key in vectors then 0 else 1
  {
    var was, now := NewAmong(vectors, rest, t), NewAmong(vectors, [key] + rest, t);
    assert key !in was;
    if key in vectors {
      assert now == was;
    } else {
      assert now == was + {key};
    }
  }

  lemma {:induction false} AbsentAreNew(vectors: Vectors, keys: seq<Key>, t: ItemType)
    requires Distinct(keys) && OfType(keys, t)
    ensures Absent(vectors, keys) == |NewAmong(vectors, keys, t)|
  {
    hide NewAmong, Distinct;
    if keys == [] {
      NothingNew(vectors, t);
    } else {
      var rest := keys[1..];
      assert keys == [keys[0]] + rest;
      DistinctTail(keys);
      AbsentAreNew(vectors, rest, t);
      OneMoreNew(vectors, keys[0], rest, t);
    }
  }

  lemma {:induction false} VectorsAfter(w: World, vectors: Vectors, force: bool, batches: seq<seq<Key>>, key: Key)
    ensures key in AfterBatches(w, vectors, force, batches) <==>
      key in vectors || key in WritesOf(w, vectors, force, batches)
  {
    hide Written, PendingOf, AfterBatch;
    if batches != [] {
      var last := |batches| - 1;
      var before := AfterBatches(w, vectors, force, batches[..last]);
      VectorsAfter(w, vectors, force, batches[..last], key);
      AfterBatchIs(w, before, force, batches[last]);
      WrittenAt(w, before, PendingOf(w, before, force, batches[last]), key);
    }
  }

  lemma NewInParts(vectors: Vectors, before: Vectors, earlier: seq<Key>, pending: seq<Key>, t: ItemType)
    requires forall key :: key in before <==> key in vectors || key in earlier
    ensures |NewAmong(vectors, earlier + pending, t)|
         == |NewAmong(vectors, earlier, t)| + |NewAmong(before, pending, t)|
  {
    var a, b := NewAmong(vectors, earlier, t), NewAmong(before, pending, t);
    assert NewAmong(vectors, earlier + pending, t) == a + b;
    assert a !! b;
  }

  lemma {:induction false} CreatedAre(w: World, vectors: Vectors, force: bool, batches: seq<seq<Key>>, t: ItemType)
    requires AllDistinct(batches) && AllOneType(batches)
    ensures CreatedOf(w, vectors, force, batches, t) == |NewAmong(vectors, WritesOf(w, vectors, force, batches), t)|
  {
    hide PendingOf, AfterBatches, Absent, NewAmong, OfType, Distinct;
    if batches == [] {
      NothingNew(vectors, t);
    } else {
      var last := |batches| - 1;
      var init, batch := batches[..last], batches[last];
      CreatedAre(w, vectors, force, init, t);
      var before := AfterBatches(w, vectors, force, init);
      var pending := PendingOf(w, before, force, batch);
      forall key
        ensures key in before <==> key in vectors || key in WritesOf(w, vectors, force, init)
      {
        VectorsAfter(w, vectors, force, init, key);
      }
      NewInParts(vectors, before, WritesOf(w, vectors, force, init), pending, t);
      PendingMembers(w, before, force, batch);
      NewOfBatch(before, batch, pending, t);
    }
  }

  lemma NothingNew(vectors: Vectors, t: ItemType)
    ensures NewAmong(vectors, [], t) == {}
  {
  }

  lemma NewOfBatch(before: Vectors, batch: seq<Key>, pending: seq<Key>, t: ItemType)
    requires OneType(batch) && Distinct(pending) && forall key | key in pending :: key in batch
    ensures |NewAmong(before, pending, t)| == if OfType(batch, t) then Absent(before, pending) else 0
  {
    hide Absent;
    if OfType(batch, t) {
      AbsentAreNew(before, pending, t);
    } else {
      assert NewAmong(before, pending, t) == {};
    }
  }

  lemma {:induction false} PlanIsByType(types: seq<ItemType>, selection: Selection, size: Size)
    ensures AllOneType(Plan(types, selection, size))
  {
    hide Chunks;
    if types != [] {
      PlanIsByType(types[1..], selection, size);
      var t := types[0];
      var first := BatchesOf(t, Chunks(selection(t), size));
      forall i | 0 <= i < |first|
        ensures OneType(first[i])
      {
        assert OfType(first[i], t);
      }
    }
  }

  /** Main result on the counters: however far a pass got, what it calls created are the items of the type that
      it committed and that had no vector when it began. */
  lemma CreatedHadNoVector(w: World, vectors: Vectors, force: bool, types: seq<ItemType>, selection: Selection,
                           size: Size, n: nat, perType: map<ItemType, TypeCounters>, t: ItemType)
    requires Selects(selection) && n <= |Plan(types, selection, size)| && t in perType
    requires WorkUp(w, vectors, force, perType, Plan(types, selection, size)[..n])
    ensures var writes := WritesOf(w, vectors, force, Plan(types, selection, size)[..n]);
      perType[t].created == |set key | key in writes && key.0 == t && key !in vectors|
  {
    hide Plan, WritesOf, CreatedOf, GoneOf, CountType, Distinct, OneType;
    var batches := Plan(types, selection, size)[..n];
    PlanHolds(types, selection, size, (t, 0));
    PlanIsByType(types, selection, size);
    CreatedAre(w, vectors, force, batches, t);
    assert WorkAt(w, vectors, force, perType, batches, t);
  }
}
