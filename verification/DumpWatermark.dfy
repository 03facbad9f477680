/** The monthly diff of four dumps whose published editions move while the diff runs, and the watermark
    that says which edition has been diffed. */
module DumpWatermark {
  import opened Common
  import D = DumpPhases
  import F = DumpFiles

  /** The dumps of each edition; editions are numbered in the order they are published. */
  type Published = int -> D.Dumps

  /** One edition per dump: where the four aliases point, or what four artifacts were streamed from. */
  datatype Aliases = Aliases(readingLog: int, editions: int, works: int, authors: int) {
    function Of(phase: D.Phase): int {
      match phase
      case ReadingLog => readingLog
      case Editions => editions
      case Works => works
      case Authors => authors
    }

    function With(phase: D.Phase, edition: int): Aliases {
      match phase
      case ReadingLog => this.(readingLog := edition)
      case Editions => this.(editions := edition)
      case Works => this.(works := edition)
      case Authors => this.(authors := edition)
    }

    predicate AllAre(edition: int) {
      readingLog == edition && editions == edition && works == edition && authors == edition
    }

    predicate AtMost(other: Aliases) {
      readingLog <= other.readingLog && editions <= other.editions && works <= other.works && authors <= other.authors
    }
  }

  /** One work directory: its artifacts and the edition each was streamed from; and, for the record,
      where the aliases pointed when a run first began in it. */
  datatype Dir = Dir(artifacts: D.Artifacts, streamed: Aliases, atOpening: Aliases)

  /** What one finished diff recorded: the edition, the artifacts its load read and what they were
      streamed from, where the aliases pointed when its directory was opened and when it was settled,
      and whether the alias of the works was read again and found unmoved. */
  datatype Diff = Diff(edition: int, consumed: D.Artifacts, streamed: Aliases, atOpening: Aliases, settled: Aliases,
                       confirmed: bool)

  /** A diff under way: its edition, how many passes it has been through, what its load read. */
  datatype Running = Running(edition: int, passes: nat, consumed: Option<D.Artifacts>)

  datatype State = State(aliases: Aliases, dirs: map<int, Dir>, watermark: Option<int>, running: Option<Running>,
                         catalog: D.Catalog, diffs: seq<Diff>)

  /** One step of the world: one dump gets a new edition, or the diff begins, goes through its next pass,
      loads some records, loads them all, re-checks the works alias and settles the watermark, or is
      killed, in the middle of a write or anywhere else. */
  datatype Step =
    | Publish(dump: D.Phase, edition: int)
    | Begin(force: bool)
    | Pass
    | PartLoad(n: nat)
    | Load
    | Settle(recheckWorked: bool)
    | Kill

  function DirOf(dirs: map<int, Dir>, edition: int, aliases: Aliases): Dir {
    if edition in dirs then dirs[edition] else Dir(D.NO_ARTIFACTS, aliases, aliases)
  }

  /** One pass of a run: its artifact is kept if it is there, and otherwise streamed from wherever the
      alias of its own dump points by then. */
  function PassInto(pub: Published, aliases: Aliases, phase: D.Phase, dir: Dir): Result<Dir> {
    if dir.artifacts.Has(phase) then Ok(dir)
    else
      match D.Built(phase, pub(aliases.Of(phase)), dir.artifacts)
      case Ok(built) => Ok(dir.(artifacts := built, streamed := dir.streamed.With(phase, aliases.Of(phase))))
      case Err(e) => Err(e)
  }

  function AfterPass(pub: Published, st: State): State {
    if st.running.None? || st.running.value.passes >= |D.PHASES| then st
    else
      var run := st.running.value;
      match PassInto(pub, st.aliases, D.PHASES[run.passes], DirOf(st.dirs, run.edition, st.aliases))
      case Ok(dir) => st.(running := Some(run.(passes := run.passes + 1)), dirs := st.dirs[run.edition := dir])
      case Err(_) => st.(running := None)
  }

  /** A run that has been through every pass and has not loaded yet. */
  predicate ReadyToLoad(st: State) {
    && st.running.Some? && st.running.value.passes == |D.PHASES| && st.running.value.consumed.None?
    && DirOf(st.dirs, st.running.value.edition, st.aliases).artifacts.Complete()
  }

  function AfterSettle(st: State, worked: bool): State
    requires st.running.Some? && st.running.value.consumed.Some?
  {
    var run := st.running.value;
    var dir := DirOf(st.dirs, run.edition, st.aliases);
    if worked && st.aliases.works != run.edition then st.(running := None)
    else
      st.(running := None, watermark := Some(run.edition),
          diffs := st.diffs + [Diff(run.edition, run.consumed.value, dir.streamed, dir.atOpening, st.aliases, worked)])
  }

  function After(pub: Published, mapper: D.Mapper, st: State, step: Step): State {
    match step
    case Publish(dump, edition) =>
      if edition > st.aliases.Of(dump) then st.(aliases := st.aliases.With(dump, edition)) else st
    case Begin(force) =>
      if st.running.Some? || (st.watermark == Some(st.aliases.works) && !force) then st
      else
        var edition := st.aliases.works;
        st.(running := Some(Running(edition, 0, None)), dirs := st.dirs[edition := DirOf(st.dirs, edition, st.aliases)])
    case Pass => AfterPass(pub, st)
    case PartLoad(n) =>
      if ReadyToLoad(st) then
        var a := DirOf(st.dirs, st.running.value.edition, st.aliases).artifacts;
        st.(catalog := D.Loaded(mapper, a, true, st.catalog, Min(n, |a.records.value|)), running := None)
      else st
    case Load =>
      if ReadyToLoad(st) then
        var a := DirOf(st.dirs, st.running.value.edition, st.aliases).artifacts;
        st.(catalog := D.LoadedWhole(mapper, a, true, st.catalog),
            running := Some(st.running.value.(consumed := Some(a))))
      else st
    case Settle(worked) =>
      if st.running.Some? && st.running.value.consumed.Some? then AfterSettle(st, worked) else st
    case Kill => st.(running := None)
  }

  function AfterAll(pub: Published, mapper: D.Mapper, st: State, steps: seq<Step>): State {
    if steps == [] then st
    else After(pub, mapper, AfterAll(pub, mapper, st, steps[..|steps| - 1]), steps[|steps| - 1])
  }

  function Initial(aliases: Aliases, catalog: D.Catalog): State {
    State(aliases, map[], None, None, catalog, [])
  }

  // ---- what artifacts streamed from several editions hold

  /** The artifacts that four passes leave, each over the dump of its own edition. */
  function Mixed(pub: Published, streamed: Aliases): (a: D.Artifacts)
    ensures a.Complete()
  {
    var counts := pub(streamed.readingLog).counts;
    var selected := pub(streamed.editions).select(counts);
    var records := pub(streamed.works).collect(selected.Keys);
    D.Artifacts(Some(counts), Some(selected), Some(records), Some(pub(streamed.authors).names(D.AuthorsOf(records))))
  }

  lemma MixedOfOne(pub: Published, edition: int)
    ensures Mixed(pub, Aliases(edition, edition, edition, edition)) == D.Reference(pub(edition))
  {
  }

  /** No artifact without the one it was made from. */
  predicate Closed(a: D.Artifacts) {
    (a.selected.Some? ==> a.counts.Some?) && (a.records.Some? ==> a.selected.Some?)
      && (a.names.Some? ==> a.records.Some?)
  }

  /** Every artifact that is there is the one its editions give. */
  predicate Holds(pub: Published, dir: Dir) {
    var mix := Mixed(pub, dir.streamed);
    && (dir.artifacts.counts.Some? ==> dir.artifacts.counts == mix.counts)
    && (dir.artifacts.selected.Some? ==> dir.artifacts.selected == mix.selected)
    && (dir.artifacts.records.Some? ==> dir.artifacts.records == mix.records)
    && (dir.artifacts.names.Some? ==> dir.artifacts.names == mix.names)
  }

  // ---- the invariant

  /** A directory holds what its editions give, none older than when it was opened or newer than now. */
  predicate DirHonest(pub: Published, aliases: Aliases, edition: int, dir: Dir) {
    && Closed(dir.artifacts) && Holds(pub, dir)
    && dir.atOpening.works == edition && dir.atOpening.AtMost(dir.streamed) && dir.streamed.AtMost(aliases)
  }

  ghost predicate DirsHonest(pub: Published, aliases: Aliases, dirs: map<int, Dir>) {
    forall e | e in dirs :: DirHonest(pub, aliases, e, dirs[e])
  }

  predicate RunHonest(st: State) {
    st.running.Some? ==>
      && st.running.value.edition in st.dirs
      && (st.watermark.Some? ==> st.watermark.value <= st.running.value.edition)
      && (st.running.value.consumed.Some? ==>
            st.running.value.consumed.value == st.dirs[st.running.value.edition].artifacts
            && st.running.value.consumed.value.Complete())
  }

  /** A diff consumed what its editions give, each between where its alias was when the directory was
      opened and when the diff was settled; a confirmed one streamed the works of its own edition. */
  predicate DiffHonest(pub: Published, d: Diff) {
    && d.consumed == Mixed(pub, d.streamed)
    && d.atOpening.works == d.edition && d.atOpening.AtMost(d.streamed) && d.streamed.AtMost(d.settled)
    && (d.confirmed ==> d.settled.works == d.edition)
  }

  ghost predicate DiffsHonest(pub: Published, diffs: seq<Diff>) {
    forall i | 0 <= i < |diffs| :: DiffHonest(pub, diffs[i])
  }

  ghost predicate Invariant(pub: Published, st: State) {
    && DirsHonest(pub, st.aliases, st.dirs)
    && RunHonest(st)
    && DiffsHonest(pub, st.diffs)
    && (st.watermark.Some? ==> st.watermark.value <= st.aliases.works)
  }

  lemma {:induction false} InvariantHolds(pub: Published, mapper: D.Mapper, aliases: Aliases, catalog: D.Catalog,
                                          steps: seq<Step>)
    ensures Invariant(pub, AfterAll(pub, mapper, Initial(aliases, catalog), steps))
  {
    hide After, Invariant;
    var st := Initial(aliases, catalog);
    if steps == [] {
      InitialInvariant(pub, aliases, catalog);
    } else {
      var last := |steps| - 1;
      InvariantHolds(pub, mapper, aliases, catalog, steps[..last]);
      StepKeepsInvariant(pub, mapper, AfterAll(pub, mapper, st, steps[..last]), steps[last]);
    }
  }

  lemma InitialInvariant(pub: Published, aliases: Aliases, catalog: D.Catalog)
    ensures Invariant(pub, Initial(aliases, catalog))
  {
  }

  lemma StepKeepsInvariant(pub: Published, mapper: D.Mapper, st: State, step: Step)
    requires Invariant(pub, st)
    ensures var now := After(pub, mapper, st, step);
      && Invariant(pub, now) && st.diffs <= now.diffs
      && (st.watermark.Some? ==> now.watermark.Some? && now.watermark.value >= st.watermark.value)
  {
    hide D.Built, D.Loaded, D.LoadedWhole, Holds, Closed;
    match step
    case Publish(dump, edition) =>
      if edition > st.aliases.Of(dump) {
        PublishKeepsDirs(pub, st.aliases, st.dirs, dump, edition);
      }
    case Begin(force) => OpenedIsHonest(pub, st.aliases);
    case Pass => PassKeepsInvariant(pub, st);
    case PartLoad(n) =>
    case Load =>
    case Settle(worked) =>
      if st.running.Some? && st.running.value.consumed.Some? {
        ConsumedIsMixed(pub, st.aliases, st.running.value.edition, st.dirs[st.running.value.edition]);
      }
    case Kill =>
  }

  lemma PublishKeepsDirs(pub: Published, aliases: Aliases, dirs: map<int, Dir>, dump: D.Phase, edition: int)
    requires DirsHonest(pub, aliases, dirs) && edition > aliases.Of(dump)
    ensures DirsHonest(pub, aliases.With(dump, edition), dirs)
    ensures aliases.AtMost(aliases.With(dump, edition))
  {
    hide Holds, Closed;
    forall e | e in dirs
      ensures DirHonest(pub, aliases.With(dump, edition), e, dirs[e])
    {
      assert DirHonest(pub, aliases, e, dirs[e]);
    }
  }

  lemma OpenedIsHonest(pub: Published, aliases: Aliases)
    ensures DirHonest(pub, aliases, aliases.works, Dir(D.NO_ARTIFACTS, aliases, aliases))
  {
  }

  lemma ConsumedIsMixed(pub: Published, aliases: Aliases, edition: int, dir: Dir)
    requires DirHonest(pub, aliases, edition, dir) && dir.artifacts.Complete()
    ensures dir.artifacts == Mixed(pub, dir.streamed)
  {
    hide Mixed;
  }

  /** A pass streams from its own alias and leaves the directory honest. */
  lemma PassIsHonest(pub: Published, aliases: Aliases, phase: D.Phase, edition: int, dir: Dir)
    requires DirHonest(pub, aliases, edition, dir) && PassInto(pub, aliases, phase, dir).Ok?
    ensures DirHonest(pub, aliases, edition, PassInto(pub, aliases, phase, dir).value)
    ensures PassInto(pub, aliases, phase, dir).value.artifacts.Has(phase)
    ensures forall other | dir.artifacts.Has(other) :: PassInto(pub, aliases, phase, dir).value.artifacts.Has(other)
  {
    hide D.AuthorsOf;
  }

  lemma PassKeepsInvariant(pub: Published, st: State)
    requires Invariant(pub, st)
    ensures var now := AfterPass(pub, st);
      Invariant(pub, now) && now.aliases == st.aliases && now.watermark == st.watermark && now.diffs == st.diffs
  {
    hide D.Built, DirHonest, PassInto;
    if st.running.Some? && st.running.value.passes < |D.PHASES| {
      var run := st.running.value;
      var phase, dir := D.PHASES[run.passes], st.dirs[run.edition];
      if PassInto(pub, st.aliases, phase, dir).Ok? {
        PassIsHonest(pub, st.aliases, phase, run.edition, dir);
        if run.consumed.Some? {
          CompleteIsKept(pub, st.aliases, phase, dir);
        }
      }
    }
  }

  lemma CompleteIsKept(pub: Published, aliases: Aliases, phase: D.Phase, dir: Dir)
    requires dir.artifacts.Complete()
    ensures PassInto(pub, aliases, phase, dir) == Ok(dir)
  {
  }

  // ---- what every reachable state keeps

  /** In every reachable state, whatever was published and whichever runs were killed where: each diff
      read exactly what its own streams give; one that found the works alias unmoved streamed the works
      dump of its edition; and the watermark is never ahead of the works alias. */
  lemma DiffsAreWhatTheyStreamed(pub: Published, mapper: D.Mapper, aliases: Aliases, catalog: D.Catalog,
                                 steps: seq<Step>, i: nat)
    requires i < |AfterAll(pub, mapper, Initial(aliases, catalog), steps).diffs|
    ensures var st := AfterAll(pub, mapper, Initial(aliases, catalog), steps);
      var d := st.diffs[i];
      && d.consumed == Mixed(pub, d.streamed)
      && d.atOpening.AtMost(d.streamed) && d.streamed.AtMost(d.settled)
      && (d.confirmed ==> d.streamed.works == d.edition)
      && st.watermark.Some? && d.edition <= st.watermark.value <= st.aliases.works
  {
    hide AfterAll, Mixed;
    InvariantHolds(pub, mapper, aliases, catalog, steps);
    LastDiffIsTheWatermark(pub, mapper, aliases, catalog, steps, i);
  }

  lemma {:induction false} LastDiffIsTheWatermark(pub: Published, mapper: D.Mapper, aliases: Aliases,
      catalog: D.Catalog, steps: seq<Step>, i: nat)
    ensures var st := AfterAll(pub, mapper, Initial(aliases, catalog), steps);
      i < |st.diffs| ==> st.watermark.Some? && st.diffs[i].edition <= st.watermark.value
  {
    hide D.Built, D.Loaded, D.LoadedWhole, Invariant, PassInto;
    var st := Initial(aliases, catalog);
    if steps != [] {
      var last := |steps| - 1;
      var before := AfterAll(pub, mapper, st, steps[..last]);
      LastDiffIsTheWatermark(pub, mapper, aliases, catalog, steps[..last], i);
      InvariantHolds(pub, mapper, aliases, catalog, steps[..last]);
      StepKeepsInvariant(pub, mapper, before, steps[last]);
    }
  }

  /** The watermark never goes back. */
  lemma {:induction false} WatermarkOnlyAdvances(pub: Published, mapper: D.Mapper, st: State, steps: seq<Step>)
    requires Invariant(pub, st)
    ensures var now := AfterAll(pub, mapper, st, steps);
      Invariant(pub, now) && (st.watermark.Some? ==> now.watermark.Some? && now.watermark.value >= st.watermark.value)
  {
    hide After, Invariant;
    if steps != [] {
      var last := |steps| - 1;
      WatermarkOnlyAdvances(pub, mapper, st, steps[..last]);
      StepKeepsInvariant(pub, mapper, AfterAll(pub, mapper, st, steps[..last]), steps[last]);
    }
  }

  // ---- exactly when a diff is of the edition it names

  /** Dumps that give different artifacts in `edition` than in any other, in each of the four. */
  function Telling(edition: int): Published {
    e =>
      if e == edition then D.Dumps(map[], counts => map[], ids => [], authors => map[])
      else D.Dumps(map["w" := 1], counts => map["w" := D.Work("w", "")], ids => [D.Record("w", "", [])],
                   authors => map["a" := ""])
  }

  /** The exact condition: artifacts streamed from given editions are those of one edition, whatever the
      dumps hold, if and only if each was streamed while its own alias pointed at that edition. */
  lemma GenuineExactlyWhenStreamed(streamed: Aliases, edition: int)
    ensures (forall pub: Published :: Mixed(pub, streamed) == D.Reference(pub(edition))) <==> streamed.AllAre(edition)
  {
    hide Mixed, D.Reference;
    if streamed.AllAre(edition) {
      forall pub: Published
        ensures Mixed(pub, streamed) == D.Reference(pub(edition))
      {
        MixedOfOne(pub, edition);
        assert streamed == Aliases(edition, edition, edition, edition);
      }
    } else {
      TellingTells(streamed, edition);
    }
  }

  lemma TellingTells(streamed: Aliases, edition: int)
    requires !streamed.AllAre(edition)
    ensures Mixed(Telling(edition), streamed) != D.Reference(Telling(edition)(edition))
  {
    hide D.AuthorsOf;
    var mix, reference := Mixed(Telling(edition), streamed), D.Reference(Telling(edition)(edition));
    assert reference == D.Artifacts(Some(map[]), Some(map[]), Some([]), Some(map[]));
    if streamed.readingLog != edition {
      assert mix.counts == Some(map["w" := 1]);
      assert "w" in mix.counts.value;
    } else if streamed.editions != edition {
      assert "w" in mix.selected.value;
    } else if streamed.works != edition {
      assert |mix.records.value| == 1;
    } else {
      assert "a" in mix.names.value;
    }
  }

  /** The sufficient form that can be checked from outside: all four aliases pointed at the edition when
      its directory was opened, and all four still do when the diff is settled. */
  lemma FourAliasesSuffice(pub: Published, d: Diff)
    requires DiffHonest(pub, d) && d.atOpening.AllAre(d.edition) && d.settled.AllAre(d.edition)
    ensures d.consumed == D.Reference(pub(d.edition))
  {
    hide Mixed, D.Reference;
    assert d.streamed == Aliases(d.edition, d.edition, d.edition, d.edition);
    MixedOfOne(pub, d.edition);
  }

  // ---- the same history over other dumps

  predicate SameDir(a: Dir, b: Dir) {
    && a.streamed == b.streamed && a.atOpening == b.atOpening
    && (a.artifacts.counts.Some? == b.artifacts.counts.Some?)
    && (a.artifacts.selected.Some? == b.artifacts.selected.Some?)
    && (a.artifacts.records.Some? == b.artifacts.records.Some?) && (a.artifacts.names.Some? == b.artifacts.names.Some?)
  }

  predicate SameRun(a: Option<Running>, b: Option<Running>) {
    && a.Some? == b.Some?
    && (a.Some? ==> a.value.edition == b.value.edition && a.value.passes == b.value.passes
                    && (a.value.consumed.Some? == b.value.consumed.Some?))
  }

  predicate SameDiff(a: Diff, b: Diff) {
    a == b.(consumed := a.consumed)
  }

  /** Two states that differ in what the dumps hold at most. */
  ghost predicate SameShape(a: State, b: State) {
    && a.aliases == b.aliases && a.watermark == b.watermark && SameRun(a.running, b.running)
    && a.dirs.Keys == b.dirs.Keys && (forall e | e in a.dirs :: SameDir(a.dirs[e], b.dirs[e]))
    && |a.diffs| == |b.diffs| && (forall i | 0 <= i < |a.diffs| :: SameDiff(a.diffs[i], b.diffs[i]))
  }

  lemma SamePass(one: Published, other: Published, aliases: Aliases, phase: D.Phase, a: Dir, b: Dir)
    requires SameDir(a, b)
    ensures PassInto(one, aliases, phase, a).Ok? == PassInto(other, aliases, phase, b).Ok?
    ensures PassInto(one, aliases, phase, a).Ok? ==>
      SameDir(PassInto(one, aliases, phase, a).value, PassInto(other, aliases, phase, b).value)
  {
    hide D.AuthorsOf;
  }

  lemma SameStep(one: Published, other: Published, mapper: D.Mapper, a: State, b: State, step: Step)
    requires SameShape(a, b)
    ensures SameShape(After(one, mapper, a, step), After(other, mapper, b, step))
  {
    hide D.Built, D.Loaded, D.LoadedWhole, AfterPass, PassInto;
    if step.Pass? {
      SameAfterPass(one, other, a, b);
    } else if a.running.Some? {
      var edition := a.running.value.edition;
      assert SameDir(DirOf(a.dirs, edition, a.aliases), DirOf(b.dirs, edition, b.aliases));
    }
  }

  lemma SameAfterPass(one: Published, other: Published, a: State, b: State)
    requires SameShape(a, b)
    ensures SameShape(AfterPass(one, a), AfterPass(other, b))
  {
    hide PassInto;
    if a.running.Some? && a.running.value.passes < |D.PHASES| {
      var edition := a.running.value.edition;
      SamePass(one, other, a.aliases, D.PHASES[a.running.value.passes],
               DirOf(a.dirs, edition, a.aliases), DirOf(b.dirs, edition, b.aliases));
    }
  }

  lemma {:induction false} SameHistory(one: Published, other: Published, mapper: D.Mapper, aliases: Aliases,
                                       catalog: D.Catalog, steps: seq<Step>)
    ensures SameShape(AfterAll(one, mapper, Initial(aliases, catalog), steps),
                      AfterAll(other, mapper, Initial(aliases, catalog), steps))
  {
    hide After, SameShape;
    var st := Initial(aliases, catalog);
    if steps == [] {
      SameInitial(aliases, catalog);
    } else {
      var last := |steps| - 1;
      SameHistory(one, other, mapper, aliases, catalog, steps[..last]);
      SameStep(one, other, mapper, AfterAll(one, mapper, st, steps[..last]),
               AfterAll(other, mapper, st, steps[..last]), steps[last]);
    }
  }

  lemma SameInitial(aliases: Aliases, catalog: D.Catalog)
    ensures SameShape(Initial(aliases, catalog), Initial(aliases, catalog))
  {
  }

  /** What diff number `i` of a history consumed, over given dumps. */
  ghost predicate DiffIsGenuine(pub: Published, mapper: D.Mapper, aliases: Aliases, catalog: D.Catalog,
                                steps: seq<Step>, i: nat) {
    var diffs := AfterAll(pub, mapper, Initial(aliases, catalog), steps).diffs;
    i < |diffs| && diffs[i].consumed == D.Reference(pub(diffs[i].edition))
  }

  /** Main result. For every history of publications, kills, forced and repeated runs: a diff it recorded,
      confirmed or not, read the artifacts of the edition it names whatever the dumps hold if and only if
      each of the four was streamed while its own alias pointed at that edition. */
  lemma DiffIsGenuineExactly(pub: Published, mapper: D.Mapper, aliases: Aliases, catalog: D.Catalog, steps: seq<Step>,
                             i: nat)
    requires i < |AfterAll(pub, mapper, Initial(aliases, catalog), steps).diffs|
    ensures var d := AfterAll(pub, mapper, Initial(aliases, catalog), steps).diffs[i];
      && (d.streamed.AllAre(d.edition) ==>
            forall any: Published :: DiffIsGenuine(any, mapper, aliases, catalog, steps, i))
      && (!d.streamed.AllAre(d.edition) ==>
            exists any: Published :: !DiffIsGenuine(any, mapper, aliases, catalog, steps, i))
  {
    hide AfterAll, Mixed, D.Reference, DiffIsGenuine;
    var d := AfterAll(pub, mapper, Initial(aliases, catalog), steps).diffs[i];
    GenuineExactlyWhenStreamed(d.streamed, d.edition);
    forall any: Published
      ensures DiffIsGenuine(any, mapper, aliases, catalog, steps, i) <==>
        Mixed(any, d.streamed) == D.Reference(any(d.edition))
    {
      GenuineOver(pub, any, mapper, aliases, catalog, steps, i);
    }
  }

  lemma GenuineOver(pub: Published, any: Published, mapper: D.Mapper, aliases: Aliases, catalog: D.Catalog,
                    steps: seq<Step>, i: nat)
    requires i < |AfterAll(pub, mapper, Initial(aliases, catalog), steps).diffs|
    ensures var d := AfterAll(pub, mapper, Initial(aliases, catalog), steps).diffs[i];
      DiffIsGenuine(any, mapper, aliases, catalog, steps, i) <==> Mixed(any, d.streamed) == D.Reference(any(d.edition))
  {
    hide AfterAll, Mixed, D.Reference;
    SameHistory(pub, any, mapper, aliases, catalog, steps);
    InvariantHolds(any, mapper, aliases, catalog, steps);
    var d, e := AfterAll(pub, mapper, Initial(aliases, catalog), steps).diffs[i],
                AfterAll(any, mapper, Initial(aliases, catalog), steps).diffs[i];
    assert SameDiff(d, e) && DiffHonest(any, e);
  }

  // ---- what the re-check decides

  /** The outcome of a re-check that fails differs from that of one that works exactly when the works
      alias has moved and the watermark is not already at the edition, as it is under `force`; and a diff
      is recorded as confirmed exactly when the re-check works and the alias has not moved. */
  lemma RecheckMattersExactly(st: State)
    requires st.running.Some? && st.running.value.consumed.Some?
    ensures var edition := st.running.value.edition;
      var worked, failed := AfterSettle(st, true), AfterSettle(st, false);
      && (worked.watermark != failed.watermark <==> st.aliases.works != edition && st.watermark != Some(edition))
      && failed.watermark == Some(edition)
      && (|worked.diffs| > |st.diffs| <==> st.aliases.works == edition)
      && |failed.diffs| == |st.diffs| + 1 && !failed.diffs[|st.diffs|].confirmed
  {
  }

  /** The same steps, one after the other. */
  function Then(pub: Published, mapper: D.Mapper, st: State, a: Step, b: Step): State {
    After(pub, mapper, After(pub, mapper, st, a), b)
  }

  function FourPasses(pub: Published, mapper: D.Mapper, st: State): State {
    Then(pub, mapper, Then(pub, mapper, st, Pass, Pass), Pass, Pass)
  }

  /** Four passes in a row, into a directory that has no artifact yet or only the first one. */
  lemma FourPassesStream(pub: Published, mapper: D.Mapper, st: State)
    requires st.running.Some? && st.running.value.passes == 0 && st.running.value.edition in st.dirs
    requires var a := st.dirs[st.running.value.edition].artifacts; a.selected.None? && a.records.None? && a.names.None?
    requires Closed(st.dirs[st.running.value.edition].artifacts)
    ensures var e, end := st.running.value.edition, FourPasses(pub, mapper, st);
      && end == st.(dirs := end.dirs, running := Some(st.running.value.(passes := 4)))
      && e in end.dirs && end.dirs[e].artifacts.Complete() && end.dirs[e].atOpening == st.dirs[e].atOpening
      && (st.dirs[e].artifacts.counts.Some? ==>
        end.dirs[e].streamed == st.aliases.(readingLog := st.dirs[e].streamed.readingLog))
      && (st.dirs[e].artifacts.counts.None? ==> end.dirs[e].streamed == st.aliases)
      && (st.dirs[e].artifacts.counts.Some? ==> end.dirs[e].artifacts.counts == st.dirs[e].artifacts.counts)
      && (st.dirs[e].artifacts.counts.None? ==> end.dirs[e].artifacts.counts == Some(pub(st.aliases.readingLog).counts))
  {
    hide AfterPass, D.AuthorsOf;
    var s1 := AfterPass(pub, st);
    var s2 := AfterPass(pub, s1);
    var s3 := AfterPass(pub, s2);
    OnePass(pub, st);
    OnePass(pub, s1);
    OnePass(pub, s2);
    OnePass(pub, s3);
  }

  /** The next pass of a run that can go through it. */
  lemma OnePass(pub: Published, st: State)
    requires st.running.Some? && st.running.value.passes < |D.PHASES| && st.running.value.edition in st.dirs
    requires var run := st.running.value; PassInto(pub, st.aliases, D.PHASES[run.passes], st.dirs[run.edition]).Ok?
    ensures var run := st.running.value;
      var dir := PassInto(pub, st.aliases, D.PHASES[run.passes], st.dirs[run.edition]).value;
      AfterPass(pub, st) == st.(running := Some(run.(passes := run.passes + 1)), dirs := st.dirs[run.edition := dir])
  {
    hide PassInto;
  }

  /** The re-check reads the works alias alone. With the reading log published ahead of the works, it
      succeeds, and the watermark confirms an edition whose counts come from the next one. */
  lemma ConfirmedDiffCanBeMixed(pub: Published, mapper: D.Mapper, catalog: D.Catalog)
    requires pub(0).counts != pub(1).counts
    ensures var began := Then(pub, mapper, Initial(Aliases(0, 0, 0, 0), catalog), Begin(false),
                              Publish(D.ReadingLog, 1));
      var st := Then(pub, mapper, FourPasses(pub, mapper, began), Load, Settle(true));
      && |st.diffs| == 1 && st.diffs[0].confirmed && st.diffs[0].edition == 0 && st.watermark == Some(0)
      && st.diffs[0].consumed.counts != D.Reference(pub(0)).counts
  {
    hide D.LoadedWhole, D.AuthorsOf, AfterPass, FourPasses;
    var began := Then(pub, mapper, Initial(Aliases(0, 0, 0, 0), catalog), Begin(false), Publish(D.ReadingLog, 1));
    FourPassesStream(pub, mapper, began);
  }

  /** Nor is it enough to find all four aliases at the edition when the finishing run begins and again
      when it settles: a run killed before the reading log had caught up leaves its counts behind. */
  lemma LeftoverCountsAreConsumed(pub: Published, mapper: D.Mapper, catalog: D.Catalog)
    requires pub(0).counts != pub(1).counts
    ensures var left := Then(pub, mapper, After(pub, mapper, Initial(Aliases(0, 1, 1, 1), catalog), Begin(false)),
                             Pass, Kill);
      var again := Then(pub, mapper, left, Publish(D.ReadingLog, 1), Begin(false));
      var st := Then(pub, mapper, FourPasses(pub, mapper, again), Load, Settle(true));
      && again.aliases == st.aliases == Aliases(1, 1, 1, 1)
      && |st.diffs| == 1 && st.diffs[0].confirmed && st.diffs[0].edition == 1
      && st.diffs[0].consumed.counts != D.Reference(pub(1)).counts
  {
    hide D.LoadedWhole, D.AuthorsOf, FourPasses;
    var left := Then(pub, mapper, After(pub, mapper, Initial(Aliases(0, 1, 1, 1), catalog), Begin(false)), Pass, Kill);
    assert left.dirs[1].artifacts == D.NO_ARTIFACTS.(counts := Some(pub(0).counts));
    var again := Then(pub, mapper, left, Publish(D.ReadingLog, 1), Begin(false));
    FourPassesStream(pub, mapper, again);
  }

  /** A re-check that fails is taken for "unmoved", and then even the works may be of the next edition. */
  lemma FailedRecheckMixesEditions(pub: Published, mapper: D.Mapper, catalog: D.Catalog)
    ensures var began := Then(pub, mapper, Initial(Aliases(0, 0, 0, 0), catalog), Begin(false), Publish(D.Works, 1));
      var st := Then(pub, mapper, FourPasses(pub, mapper, began), Load, Settle(false));
      && |st.diffs| == 1 && !st.diffs[0].confirmed && st.diffs[0].edition == 0 && st.watermark == Some(0)
      && st.diffs[0].streamed == Aliases(0, 0, 1, 0)
  {
    hide D.LoadedWhole, D.AuthorsOf, AfterPass, FourPasses;
    var began := Then(pub, mapper, Initial(Aliases(0, 0, 0, 0), catalog), Begin(false), Publish(D.Works, 1));
    FourPassesStream(pub, mapper, began);
  }

  // ---- passes and files

  /** A pass of the diff is one write of the directory's files: killed at any file operation it leaves the
      artifacts as they were, which is a kill, and run to its end it leaves those of a pass, over the
      dumps as the files give them back. */
  lemma PassesAreWrites(f: F.Formats, pub: Published, aliases: Aliases, phase: D.Phase, files: F.Files, dir: Dir,
                        ops: nat)
    requires F.Seen(f, files) == dir.artifacts
    ensures var seen: Published := e => F.Through(f, pub(e));
      var out, passed := F.Output(f, pub(aliases.Of(phase)), phase, files), PassInto(seen, aliases, phase, dir);
      && (F.ShouldRun(phase, files, D.All, false) <==> !dir.artifacts.Has(phase))
      && (dir.artifacts.Has(phase) ==> passed == Ok(dir))
      && (!dir.artifacts.Has(phase) ==> out.Ok? == passed.Ok?)
      && (!dir.artifacts.Has(phase) && out.Ok? ==>
            F.Seen(f, F.Written(files, phase, out.value, ops))
              == if ops < |out.value| + 2 then dir.artifacts else passed.value.artifacts)
  {
    hide F.Seen, F.Output, F.Through, F.Written, D.Built;
    var seen: Published := e => F.Through(f, pub(e));
    var d := pub(aliases.Of(phase));
    F.RenamedIsBuilt(f, d, phase, files);
    F.SeenDecides(f, files, phase, D.All, false);
    if F.Output(f, d, phase, files).Ok? {
      F.OldOrWhole(f, d, phase, files, ops, phase, D.All, false);
    }
  }

  // ---- one run of the lane

  class BookLane {
    const mapper: D.Mapper
    var dirs: map<int, Dir>
    var watermark: Option<int>
    var catalog: D.Catalog

    constructor (mapper: D.Mapper, dirs: map<int, Dir>, watermark: Option<int>, catalog: D.Catalog)
      ensures this.mapper == mapper && this.dirs == dirs && this.watermark == watermark && this.catalog == catalog
    {
      this.mapper, this.dirs, this.watermark, this.catalog := mapper, dirs, watermark, catalog;
    }

    /** One uninterrupted run. `aliases(k)` is where the four aliases point the `k`th time one of them is
        followed: once to begin, once per pass, once to check again. */
    method RunBookIncremental(pub: Published, aliases: nat -> Aliases, force: bool,
                              recheckWorks: bool)
      returns (skipped: bool)
      requires forall i, j | 0 <= i <= j :: aliases(i).AtMost(aliases(j))
      requires DirsHonest(pub, aliases(0), dirs)
      modifies this
      ensures skipped <==> old(watermark) == Some(aliases(0).works) && !force
      ensures skipped ==> dirs == old(dirs) && watermark == old(watermark) && catalog == old(catalog)
      ensures !skipped ==> var e := aliases(0).works;
        && e in dirs && dirs[e].artifacts.Complete() && dirs[e].artifacts == Mixed(pub, dirs[e].streamed)
        && catalog == D.LoadedWhole(mapper, dirs[e].artifacts, true, old(catalog))
        && watermark == (if !recheckWorks || aliases(5).works == e then Some(e) else old(watermark))
        && (aliases(5).works == e ==> dirs[e].streamed.works == e)
        && (dirs[e].atOpening.AllAre(e) && aliases(5).AllAre(e) ==> dirs[e].artifacts == D.Reference(pub(e)))
      ensures forall e | e != aliases(0).works ::
        (e in dirs <==> e in old(dirs)) && (e in dirs ==> dirs[e] == old(dirs)[e])
      ensures DirsHonest(pub, aliases(5), dirs)
    {
      hide D.Built, Mixed, D.Reference, D.LoadedWhole, DirHonest, PassInto;
      var edition := aliases(0).works;
      if watermark == Some(edition) && !force {
        LaterIsHonest(pub, aliases(0), aliases(5), dirs);
        return true;
      }
      OpenedIsHonest(pub, aliases(0));
      dirs := dirs[edition := DirOf(dirs, edition, aliases(0))];
      for i := 0 to |D.PHASES|
        invariant edition in dirs && forall j | 0 <= j < i :: dirs[edition].artifacts.Has(D.PHASES[j])
        invariant DirsHonest(pub, aliases(i), dirs)
        invariant watermark == old(watermark) && catalog == old(catalog)
        invariant forall e | e != edition :: (e in dirs <==> e in old(dirs)) && (e in dirs ==> dirs[e] == old(dirs)[e])
      {
        var dir := dirs[edition];
        LaterIsHonest(pub, aliases(i), aliases(i + 1), dirs);
        PassCanRun(pub, aliases(i + 1), D.PHASES[i], i, dir);
        PassIsHonest(pub, aliases(i + 1), D.PHASES[i], edition, dir);
        var passed := PassInto(pub, aliases(i + 1), D.PHASES[i], dir);
        dirs := dirs[edition := passed.value];
      }
      AllPassed(dirs[edition].artifacts);
      catalog := D.LoadedWhole(mapper, dirs[edition].artifacts, true, catalog);
      var publishedNow := if recheckWorks then aliases(5).works else edition;
      if publishedNow == edition {
        watermark := Some(edition);
      }
      LaterIsHonest(pub, aliases(4), aliases(5), dirs);
      WholeDir(pub, aliases(5), edition, dirs[edition]);
      return false;
    }
  }

  lemma AllPassed(a: D.Artifacts)
    requires forall j | 0 <= j < |D.PHASES| :: a.Has(D.PHASES[j])
    ensures a.Complete()
  {
    assert a.Has(D.PHASES[0]) && a.Has(D.PHASES[1]) && a.Has(D.PHASES[2]) && a.Has(D.PHASES[3]);
  }

  lemma LaterIsHonest(pub: Published, was: Aliases, now: Aliases, dirs: map<int, Dir>)
    requires DirsHonest(pub, was, dirs) && was.AtMost(now)
    ensures DirsHonest(pub, now, dirs)
  {
    hide Holds, Closed;
  }

  lemma PassCanRun(pub: Published, aliases: Aliases, phase: D.Phase, i: nat, dir: Dir)
    requires i < |D.PHASES| && phase == D.PHASES[i]
    requires forall j | 0 <= j < i :: dir.artifacts.Has(D.PHASES[j])
    ensures PassInto(pub, aliases, phase, dir).Ok?
  {
    hide D.AuthorsOf;
    assert i > 0 ==> dir.artifacts.Has(D.PHASES[i - 1]);
  }

  lemma WholeDir(pub: Published, aliases: Aliases, edition: int, dir: Dir)
    requires DirHonest(pub, aliases, edition, dir) && dir.artifacts.Complete()
    ensures dir.artifacts == Mixed(pub, dir.streamed)
    ensures aliases.works == edition ==> dir.streamed.works == edition
    ensures dir.atOpening.AllAre(edition) && aliases.AllAre(edition) ==> dir.artifacts == D.Reference(pub(edition))
  {
    hide Mixed, D.Reference;
    ConsumedIsMixed(pub, aliases, edition, dir);
    if dir.atOpening.AllAre(edition) && aliases.AllAre(edition) {
      assert dir.streamed == Aliases(edition, edition, edition, edition);
      MixedOfOne(pub, edition);
    }
  }
}
