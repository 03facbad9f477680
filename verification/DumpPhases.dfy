/** Seeding the books from dumps: four passes that each leave an artifact, and a load that reads them. A
    pass is skipped when its artifact is there and it is not forced, and fails without the artifact it reads.
    What a run that is killed leaves is picked up by the next; how the artifacts get into files and survive a
    kill is told in `DumpFiles`. */
module DumpPhases {
  import opened Common

  datatype Phase = ReadingLog | Editions | Works | Authors

  const PHASES: seq<Phase> := [ReadingLog, Editions, Works, Authors]

  /** What the command line asks for: one phase, the load alone, or everything. */
  datatype Only = All | OnlyPhase(phase: Phase) | OnlyLoad

  datatype Work = Work(workId: string, details: string)

  datatype Record = Record(workId: string, title: string, authors: seq<string>)

  /** What one pass over each dump collects, given what it is asked to look for. */
  datatype Dumps = Dumps(
    counts: map<string, nat>,
    select: map<string, nat> -> map<string, Work>,
    collect: set<string> -> seq<Record>,
    names: set<string> -> map<string, string>) {
    /** The works pass writes one line per work. */
    ghost predicate Valid() {
      forall ids :: forall i, j | 0 <= i < j < |collect(ids)| :: collect(ids)[i].workId != collect(ids)[j].workId
    }
  }

  /** The artifacts of one work directory that are there. How they get written is told in `DumpFiles`. */
  datatype Artifacts = Artifacts(
    counts: Option<map<string, nat>>,
    selected: Option<map<string, Work>>,
    records: Option<seq<Record>>,
    names: Option<map<string, string>>) {
    predicate Has(phase: Phase) {
      match phase
      case ReadingLog => counts.Some?
      case Editions => selected.Some?
      case Works => records.Some?
      case Authors => names.Some?
    }

    /** The load reads three of the four. */
    predicate Loadable() {
      selected.Some? && records.Some? && names.Some?
    }

    predicate Complete() {
      counts.Some? && selected.Some? && records.Some? && names.Some?
    }
  }

  const NO_ARTIFACTS: Artifacts := Artifacts(None, None, None, None)

  function AuthorsOf(records: seq<Record>): set<string> {
    set record, author | record in records && author in record.authors :: author
  }

  /** One pass to its end: it fails without the artifact it reads, and replaces its own otherwise. */
  function Built(phase: Phase, d: Dumps, a: Artifacts): Result<Artifacts> {
    match phase
    case ReadingLog => Ok(a.(counts := Some(d.counts)))
    case Editions =>
      if a.counts.None? then Err("no reading-log counts") else Ok(a.(selected := Some(d.select(a.counts.value))))
    case Works =>
      if a.selected.None? then Err("no selected works")
      else Ok(a.(records := Some(d.collect(a.selected.value.Keys))))
    case Authors =>
      if a.records.None? then Err("no work records") else Ok(a.(names := Some(d.names(AuthorsOf(a.records.value)))))
  }

  predicate ShouldRun(phase: Phase, a: Artifacts, only: Only, force: bool) {
    match only
    case OnlyLoad => false
    case OnlyPhase(p) => p == phase && (force || !a.Has(phase))
    case All => force || !a.Has(phase)
  }

  /** What the four passes leave over dumps that do not change. */
  function Reference(d: Dumps): (a: Artifacts)
    ensures a.Complete()
  {
    var selected := d.select(d.counts);
    var records := d.collect(selected.Keys);
    Artifacts(Some(d.counts), Some(selected), Some(records), Some(d.names(AuthorsOf(records))))
  }

  /** Every artifact that is there is the one those dumps give. */
  predicate AgreesWith(a: Artifacts, d: Dumps) {
    && (a.counts.Some? ==> a.counts == Reference(d).counts)
    && (a.selected.Some? ==> a.selected == Reference(d).selected)
    && (a.records.Some? ==> a.records == Reference(d).records)
    && (a.names.Some? ==> a.names == Reference(d).names)
  }

  lemma PassKeepsAgreement(phase: Phase, d: Dumps, a: Artifacts)
    requires AgreesWith(a, d) && Built(phase, d, a).Ok?
    ensures AgreesWith(Built(phase, d, a).value, d) && Built(phase, d, a).value.Has(phase)
    ensures forall other | a.Has(other) :: Built(phase, d, a).value.Has(other)
  {
    hide AuthorsOf;
  }

  // ---- the load

  type Catalog = map<string, string>

  datatype Mapped = Row(row: string) | Untitled | Failed

  /** Turning a work, its record and the author names into a row. */
  type Mapper = (Work, Record, map<string, string>) -> Mapped

  function RowOf(mapper: Mapper, selected: map<string, Work>, names: map<string, string>, record: Record): Mapped {
    if record.workId in selected then mapper(selected[record.workId], record, names) else Failed
  }

  predicate Writes(mapper: Mapper, selected: map<string, Work>, names: map<string, string>, known: set<string>,
                   record: Record) {
    record.workId in selected && record.workId !in known && RowOf(mapper, selected, names, record).Row?
  }

  /** The catalog once the first `n` records have been gone through. */
  function LoadedUpTo(mapper: Mapper, selected: map<string, Work>, names: map<string, string>, records: seq<Record>,
                      known: set<string>, catalog: Catalog, n: nat): Catalog
    requires n <= |records|
  {
    if n == 0 then catalog
    else
      var before := LoadedUpTo(mapper, selected, names, records, known, catalog, n - 1);
      var record := records[n - 1];
      if Writes(mapper, selected, names, known, record) then
        before[record.workId := RowOf(mapper, selected, names, record).row]
      else before
  }

  /** What the load skips: in diff mode, every work the catalog already links. */
  function Known(catalog: Catalog, onlyNew: bool): set<string> {
    if onlyNew then catalog.Keys else {}
  }

  /** A load of the artifacts it reads, killed after the first `n` records or run to its end. */
  function Loaded(mapper: Mapper, a: Artifacts, onlyNew: bool, catalog: Catalog, n: nat): Catalog
    requires a.Loadable() && n <= |a.records.value|
  {
    LoadedUpTo(mapper, a.selected.value, a.names.value, a.records.value, Known(catalog, onlyNew), catalog, n)
  }

  function LoadedWhole(mapper: Mapper, a: Artifacts, onlyNew: bool, catalog: Catalog): Catalog
    requires a.Loadable()
  {
    Loaded(mapper, a, onlyNew, catalog, |a.records.value|)
  }

  ghost predicate OneLinePerWork(records: seq<Record>) {
    forall i, j | 0 <= i < j < |records| :: records[i].workId != records[j].workId
  }

  /** The row of a work after `n` records: freshly written if its own record was among them and is
      writable, as it was otherwise. */
  lemma {:induction false} RowAfter(mapper: Mapper, selected: map<string, Work>, names: map<string, string>,
      records: seq<Record>, known: set<string>, catalog: Catalog, n: nat, i: nat)
    requires OneLinePerWork(records) && i < |records| && n <= |records|
    ensures var after, id := LoadedUpTo(mapper, selected, names, records, known, catalog, n), records[i].workId;
      if i < n && Writes(mapper, selected, names, known, records[i])
      then id in after && after[id] == RowOf(mapper, selected, names, records[i]).row
      else (id in after <==> id in catalog) && (id in catalog ==> after[id] == catalog[id])
  {
    hide RowOf;
    if n > 0 {
      RowAfter(mapper, selected, names, records, known, catalog, n - 1, i);
    }
  }

  lemma {:induction false} OtherRowsStay(mapper: Mapper, selected: map<string, Work>, names: map<string, string>,
      records: seq<Record>, known: set<string>, catalog: Catalog, n: nat, id: string)
    requires n <= |records| && forall i | 0 <= i < |records| :: records[i].workId != id
    ensures var after := LoadedUpTo(mapper, selected, names, records, known, catalog, n);
      (id in after <==> id in catalog) && (id in catalog ==> after[id] == catalog[id])
  {
    hide RowOf, Writes;
    if n > 0 {
      OtherRowsStay(mapper, selected, names, records, known, catalog, n - 1, id);
    }
  }

  /** Main result about loads: one that is killed anywhere and then run again to its end, in the same
      mode, leaves what one run to its end would have left. */
  lemma KilledLoadIsHarmless(mapper: Mapper, a: Artifacts, onlyNew: bool, catalog: Catalog, n: nat)
    requires a.Loadable() && n <= |a.records.value| && OneLinePerWork(a.records.value)
    ensures LoadedWhole(mapper, a, onlyNew, Loaded(mapper, a, onlyNew, catalog, n))
      == LoadedWhole(mapper, a, onlyNew, catalog)
  {
    hide RowOf, LoadedUpTo, Writes;
    var half := Loaded(mapper, a, onlyNew, catalog, n);
    var one, two := LoadedWhole(mapper, a, onlyNew, catalog), LoadedWhole(mapper, a, onlyNew, half);
    forall id: string
      ensures (id in one <==> id in two) && (id in one ==> one[id] == two[id])
    {
      SameRow(mapper, a, onlyNew, catalog, n, id);
    }
  }

  lemma CountsAreNotRead(mapper: Mapper, a: Artifacts, b: Artifacts, onlyNew: bool, catalog: Catalog, n: nat)
    requires a.Loadable() && a.(counts := b.counts) == b && n <= |a.records.value|
    ensures Loaded(mapper, a, onlyNew, catalog, n) == Loaded(mapper, b, onlyNew, catalog, n)
    ensures LoadedWhole(mapper, a, onlyNew, catalog) == LoadedWhole(mapper, b, onlyNew, catalog)
  {
    hide LoadedUpTo;
  }

  lemma SameRow(mapper: Mapper, a: Artifacts, onlyNew: bool, catalog: Catalog, n: nat, id: string)
    requires a.Loadable() && n <= |a.records.value| && OneLinePerWork(a.records.value)
    ensures var one := LoadedWhole(mapper, a, onlyNew, catalog);
      var two := LoadedWhole(mapper, a, onlyNew, Loaded(mapper, a, onlyNew, catalog, n));
      (id in one <==> id in two) && (id in one ==> one[id] == two[id])
  {
    hide RowOf, LoadedUpTo, OneLinePerWork;
    var records, selected, names := a.records.value, a.selected.value, a.names.value;
    var half := Loaded(mapper, a, onlyNew, catalog, n);
    var k0, k1 := Known(catalog, onlyNew), Known(half, onlyNew);
    if i :| 0 <= i < |records| && records[i].workId == id {
      RowAfter(mapper, selected, names, records, k0, catalog, n, i);
      RowAfter(mapper, selected, names, records, k0, catalog, |records|, i);
      RowAfter(mapper, selected, names, records, k1, half, |records|, i);
    } else {
      OtherRowsStay(mapper, selected, names, records, k0, catalog, n, id);
      OtherRowsStay(mapper, selected, names, records, k0, catalog, |records|, id);
      OtherRowsStay(mapper, selected, names, records, k1, half, |records|, id);
    }
  }

  // ---- histories over dumps that do not change

  datatype State = State(artifacts: Artifacts, catalog: Catalog)

  /** What a run may get done before it ends or is killed, as a reader of the directory sees it: a pass
      to its end, and the first records of a load. Which passes a run attempts is left open. */
  datatype Step = Passed(phase: Phase) | PartLoaded(n: nat)

  function After(d: Dumps, mapper: Mapper, onlyNew: bool, st: State, step: Step): State {
    match step
    case Passed(phase) =>
      var built := Built(phase, d, st.artifacts);
      if built.Ok? then st.(artifacts := built.value) else st
    case PartLoaded(n) =>
      if st.artifacts.Loadable() then
        st.(catalog := Loaded(mapper, st.artifacts, onlyNew, st.catalog, Min(n, |st.artifacts.records.value|)))
      else st
  }

  function AfterAll(d: Dumps, mapper: Mapper, onlyNew: bool, st: State, steps: seq<Step>): State {
    if steps == [] then st
    else After(d, mapper, onlyNew, AfterAll(d, mapper, onlyNew, st, steps[..|steps| - 1]), steps[|steps| - 1])
  }

  lemma AfterOne(d: Dumps, mapper: Mapper, onlyNew: bool, st: State, step: Step)
    ensures AfterAll(d, mapper, onlyNew, st, [step]) == After(d, mapper, onlyNew, st, step)
  {
    hide After;
    assert [step][..0] == [];
  }

  lemma {:induction false} AfterBoth(d: Dumps, mapper: Mapper, onlyNew: bool, st: State, a: seq<Step>, b: seq<Step>)
    ensures AfterAll(d, mapper, onlyNew, st, a + b)
      == AfterAll(d, mapper, onlyNew, AfterAll(d, mapper, onlyNew, st, a), b)
  {
    hide After;
    if b == [] {
      assert a + b == a;
    } else {
      var last := |b| - 1;
      AfterBoth(d, mapper, onlyNew, st, a, b[..last]);
      assert (a + b)[..|a + b| - 1] == a + b[..last];
    }
  }

  /** The same works, however often a load was cut short. */
  lemma {:induction false} HistoryKeepsTheResult(d: Dumps, mapper: Mapper, onlyNew: bool, st: State, steps: seq<Step>)
    requires d.Valid() && AgreesWith(st.artifacts, d)
    ensures var now := AfterAll(d, mapper, onlyNew, st, steps);
      && AgreesWith(now.artifacts, d)
      && LoadedWhole(mapper, Reference(d), onlyNew, now.catalog)
          == LoadedWhole(mapper, Reference(d), onlyNew, st.catalog)
  {
    hide LoadedWhole, Loaded, Reference, AgreesWith, Built;
    if steps != [] {
      var last := |steps| - 1;
      HistoryKeepsTheResult(d, mapper, onlyNew, st, steps[..last]);
      StepKeepsTheResult(d, mapper, onlyNew, AfterAll(d, mapper, onlyNew, st, steps[..last]), steps[last]);
    }
  }

  lemma StepKeepsTheResult(d: Dumps, mapper: Mapper, onlyNew: bool, st: State, step: Step)
    requires d.Valid() && AgreesWith(st.artifacts, d)
    ensures var now := After(d, mapper, onlyNew, st, step);
      && AgreesWith(now.artifacts, d)
      && LoadedWhole(mapper, Reference(d), onlyNew, now.catalog)
          == LoadedWhole(mapper, Reference(d), onlyNew, st.catalog)
  {
    hide LoadedWhole, Loaded, Built, AuthorsOf;
    match step
    case Passed(phase) =>
      if Built(phase, d, st.artifacts).Ok? {
        PassKeepsAgreement(phase, d, st.artifacts);
      }
    case PartLoaded(n) =>
      if st.artifacts.Loadable() {
        var a, m := st.artifacts, Min(n, |st.artifacts.records.value|);
        CountsAreNotRead(mapper, a, Reference(d), onlyNew, st.catalog, m);
        CountsAreNotRead(mapper, a, Reference(d), onlyNew, Loaded(mapper, a, onlyNew, st.catalog, m), m);
        KilledLoadIsHarmless(mapper, a, onlyNew, st.catalog, m);
      }
  }

  // ---- one run

  /** The artifacts after the first `n` passes of a run, and whether it is still going. */
  function PassedUpTo(d: Dumps, only: Only, force: bool, a: Artifacts, n: nat): (Artifacts, bool)
    requires n <= |PHASES|
  {
    if n == 0 then (a, true)
    else
      var (before, going) := PassedUpTo(d, only, force, a, n - 1);
      var phase := PHASES[n - 1];
      if !going || !ShouldRun(phase, before, only, force) then (before, going)
      else
        var built := Built(phase, d, before);
        if built.Ok? then (built.value, true) else (before, false)
  }

  datatype LoadCounters = LoadCounters(candidates: nat, alreadyKnown: nat, untitled: nat, errors: nat, synced: nat) {
    function Handled(): nat { alreadyKnown + untitled + errors + synced }
  }

  class Seeding {
    const mapper: Mapper
    var artifacts: Artifacts
    var catalog: Catalog

    constructor (mapper: Mapper, artifacts: Artifacts, catalog: Catalog)
      ensures this.mapper == mapper && this.artifacts == artifacts && this.catalog == catalog
    {
      this.mapper, this.artifacts, this.catalog := mapper, artifacts, catalog;
    }

    /** The passes of one run, each skipped when its artifact is there and not forced. */
    method RunPasses(d: Dumps, only: Only, force: bool) returns (ok: bool)
      modifies this`artifacts
      ensures (artifacts, ok) == PassedUpTo(d, only, force, old(artifacts), |PHASES|)
    {
      hide Built, ShouldRun;
      for i := 0 to |PHASES|
        invariant (artifacts, true) == PassedUpTo(d, only, force, old(artifacts), i)
      {
        var phase := PHASES[i];
        if ShouldRun(phase, artifacts, only, force) {
          var built := Built(phase, d, artifacts);
          if built.Err? {
            FailedPassEnds(d, only, force, old(artifacts), i + 1, |PHASES|);
            return false;
          }
          artifacts := built.value;
        }
      }
      return true;
    }

    /** The load: every record is skipped, dropped, rejected or written, and each is counted as what became
        of it unless its work was not selected. */
    method PhaseLoad(onlyNew: bool) returns (r: Result<LoadCounters>)
      modifies this`catalog
      ensures r.Err? <==> !artifacts.Loadable()
      ensures r.Err? ==> catalog == old(catalog)
      ensures r.Ok? ==> catalog == LoadedUpTo(mapper, artifacts.selected.value, artifacts.names.value,
        artifacts.records.value, Known(old(catalog), onlyNew), old(catalog), |artifacts.records.value|)
      ensures r.Ok? ==> r.value.Handled() <= r.value.candidates == |artifacts.records.value|
      ensures r.Ok? && AllSelected(artifacts.records.value, artifacts.selected.value) ==>
        r.value.Handled() == r.value.candidates
      ensures r.Ok? ==> CountsFates(r.value, mapper, artifacts, if onlyNew then old(catalog) else map[])
    {
      if artifacts.selected.None? || artifacts.records.None? || artifacts.names.None? {
        return Err("a pass has not run");
      }
      hide TellsFates, Fated, LoadedUpTo;
      var selected, records, names := artifacts.selected.value, artifacts.records.value, artifacts.names.value;
      var known := Known(catalog, onlyNew);
      ghost var skipped := if onlyNew then catalog else map[];
      var c := LoadCounters(|records|, 0, 0, 0, 0);
      NothingLoaded(mapper, artifacts, skipped, known, catalog);
      for i := 0 to |records|
        invariant catalog == LoadedUpTo(mapper, selected, names, records, known, old(catalog), i)
        invariant c.candidates == |records| && c.Handled() <= i
        invariant AllSelected(records, selected) ==> c.Handled() == i
        invariant TellsFates(c, mapper, artifacts, skipped, i)
      {
        var record := records[i];
        OneMoreFate(c, mapper, artifacts, skipped, i);
        OneMoreRecord(mapper, selected, names, records, known, old(catalog), i);
        if record.workId in selected {
          if record.workId in known {
            c := c.(alreadyKnown := c.alreadyKnown + 1);
          } else {
            match RowOf(mapper, selected, names, record)
            case Failed => c := c.(errors := c.errors + 1);
            case Untitled => c := c.(untitled := c.untitled + 1);
            case Row(row) =>
              c := c.(synced := c.synced + 1);
              catalog := catalog[record.workId := row];
          }
        }
      }
      return Ok(c);
    }

    method Run(d: Dumps, only: Only, force: bool, onlyNew: bool) returns (ok: bool)
      modifies this
      ensures (artifacts, true) == PassedUpTo(d, only, force, old(artifacts), |PHASES|)
        || (!ok && artifacts == PassedUpTo(d, only, force, old(artifacts), |PHASES|).0)
      ensures only.OnlyPhase? || !PassedUpTo(d, only, force, old(artifacts), |PHASES|).1 ==> catalog == old(catalog)
      ensures ok && only.All? ==>
        artifacts.Complete() && catalog == LoadedWhole(mapper, artifacts, onlyNew, old(catalog))
      ensures only.All? ==> ok
      ensures ok <==>
        PassedUpTo(d, only, force, old(artifacts), |PHASES|).1 && (only.OnlyPhase? || artifacts.Loadable())
      ensures ok && !only.OnlyPhase? ==> catalog == LoadedWhole(mapper, artifacts, onlyNew, old(catalog))
      ensures !ok ==> catalog == old(catalog)
    {
      hide PassedUpTo, LoadedUpTo;
      ok := RunPasses(d, only, force);
      if only.All? {
        WholeRunCompletes(d, force, old(artifacts));
      }
      if ok && !only.OnlyPhase? {
        var r := PhaseLoad(onlyNew);
        ok := r.Ok?;
      }
    }
  }

  /** What may become of a record. */
  datatype Fate = NotSelected | AlreadyKnown | WithoutTitle | InError | Synced

  /** `skipped` are the rows that are not written again. */
  function FateOf(mapper: Mapper, selected: map<string, Work>, names: map<string, string>, skipped: Catalog,
                  record: Record): Fate {
    if record.workId !in selected then NotSelected
    else if record.workId in skipped then AlreadyKnown
    else
      match mapper(selected[record.workId], record, names)
      case Row(_) => Synced
      case Untitled => WithoutTitle
      case Failed => InError
  }

  /** How many of the first `n` records have that fate. */
  function Fated(mapper: Mapper, a: Artifacts, skipped: Catalog, n: nat, fate: Fate): nat
    requires a.Loadable() && n <= |a.records.value|
  {
    if n == 0 then 0
    else
      Fated(mapper, a, skipped, n - 1, fate)
        + if FateOf(mapper, a.selected.value, a.names.value, skipped, a.records.value[n - 1]) == fate then 1 else 0
  }

  /** The counters of a load tell how many records had each fate. */
  predicate CountsFates(c: LoadCounters, mapper: Mapper, a: Artifacts, skipped: Catalog)
    requires a.Loadable()
  {
    c.candidates == |a.records.value| && TellsFates(c, mapper, a, skipped, |a.records.value|)
  }

  predicate TellsFates(c: LoadCounters, mapper: Mapper, a: Artifacts, skipped: Catalog, n: nat)
    requires a.Loadable() && n <= |a.records.value|
  {
    && c.synced == Fated(mapper, a, skipped, n, Synced)
    && c.alreadyKnown == Fated(mapper, a, skipped, n, AlreadyKnown)
    && c.untitled == Fated(mapper, a, skipped, n, WithoutTitle)
    && c.errors == Fated(mapper, a, skipped, n, InError)
  }

  lemma NothingLoaded(mapper: Mapper, a: Artifacts, skipped: Catalog, known: set<string>, catalog: Catalog)
    requires a.Loadable()
    ensures TellsFates(LoadCounters(|a.records.value|, 0, 0, 0, 0), mapper, a, skipped, 0)
    ensures LoadedUpTo(mapper, a.selected.value, a.names.value, a.records.value, known, catalog, 0) == catalog
  {
  }

  lemma OneMoreRecord(mapper: Mapper, selected: map<string, Work>, names: map<string, string>, records: seq<Record>,
                      known: set<string>, catalog: Catalog, i: nat)
    requires i < |records|
    ensures var before, record := LoadedUpTo(mapper, selected, names, records, known, catalog, i), records[i];
      LoadedUpTo(mapper, selected, names, records, known, catalog, i + 1) ==
      if record.workId in selected && record.workId !in known && RowOf(mapper, selected, names, record).Row?
      then before[record.workId := RowOf(mapper, selected, names, record).row] else before
  {
    hide RowOf;
  }

  lemma OneMoreFate(c: LoadCounters, mapper: Mapper, a: Artifacts, skipped: Catalog, i: nat)
    requires a.Loadable() && i < |a.records.value| && TellsFates(c, mapper, a, skipped, i)
    ensures var after := match FateOf(mapper, a.selected.value, a.names.value, skipped, a.records.value[i])
        case NotSelected => c
        case AlreadyKnown => c.(alreadyKnown := c.alreadyKnown + 1)
        case WithoutTitle => c.(untitled := c.untitled + 1)
        case InError => c.(errors := c.errors + 1)
        case Synced => c.(synced := c.synced + 1);
      TellsFates(after, mapper, a, skipped, i + 1)
  {
    hide FateOf;
  }

  /** Main result on a load, over the artifacts and the catalog alone. After the first `n` records, the row of
      a work whose record was among them is the one mapped from it exactly when the work was selected, a row
      could be mapped, and, in diff mode, the catalog did not have it; every other row is as it was. */
  lemma LoadTells(mapper: Mapper, a: Artifacts, onlyNew: bool, catalog: Catalog, n: nat, id: string)
    requires a.Loadable() && OneLinePerWork(a.records.value) && n <= |a.records.value|
    ensures var after, records := Loaded(mapper, a, onlyNew, catalog, n), a.records.value;
      && (forall i | 0 <= i < n && records[i].workId == id && id in a.selected.value && !(onlyNew && id in catalog) ::
            var mapped := mapper(a.selected.value[id], records[i], a.names.value);
            mapped.Row? ==> id in after && after[id] == mapped.row)
      && ((forall i | 0 <= i < n && records[i].workId == id ::
             || id !in a.selected.value
             || (onlyNew && id in catalog)
             || !mapper(a.selected.value[id], records[i], a.names.value).Row?)
          ==> (id in after <==> id in catalog) && (id in catalog ==> after[id] == catalog[id]))
  {
    hide LoadedUpTo;
    var records, selected, names := a.records.value, a.selected.value, a.names.value;
    if i :| 0 <= i < |records| && records[i].workId == id {
      RowAfter(mapper, selected, names, records, Known(catalog, onlyNew), catalog, n, i);
    } else {
      OtherRowsStay(mapper, selected, names, records, Known(catalog, onlyNew), catalog, n, id);
    }
  }

  ghost predicate AllSelected(records: seq<Record>, selected: map<string, Work>) {
    forall i | 0 <= i < |records| :: records[i].workId in selected
  }

  lemma {:induction false} FailedPassEnds(d: Dumps, only: Only, force: bool, a: Artifacts, n: nat, m: nat)
    requires n <= m <= |PHASES| && !PassedUpTo(d, only, force, a, n).1
    ensures PassedUpTo(d, only, force, a, m) == PassedUpTo(d, only, force, a, n)
    decreases m - n
  {
    hide Built, ShouldRun;
    if n < m {
      FailedPassEnds(d, only, force, a, n + 1, m);
    }
  }

  /** A run of every phase never lacks an artifact it reads. */
  lemma {:induction false} WholeRunGoesOn(d: Dumps, force: bool, a: Artifacts, n: nat)
    requires n <= |PHASES|
    ensures var (now, going) := PassedUpTo(d, All, force, a, n); going && forall i | 0 <= i < n :: now.Has(PHASES[i])
    ensures AgreesWith(a, d) ==> AgreesWith(PassedUpTo(d, All, force, a, n).0, d)
  {
    hide AgreesWith, AuthorsOf;
    if n > 0 {
      WholeRunGoesOn(d, force, a, n - 1);
      var before := PassedUpTo(d, All, force, a, n - 1).0;
      var phase := PHASES[n - 1];
      assert n > 1 ==> before.Has(PHASES[n - 2]);
      if AgreesWith(a, d) && Built(phase, d, before).Ok? {
        PassKeepsAgreement(phase, d, before);
      }
    }
  }

  lemma WholeRunCompletes(d: Dumps, force: bool, a: Artifacts)
    ensures PassedUpTo(d, All, force, a, |PHASES|).1 && PassedUpTo(d, All, force, a, |PHASES|).0.Complete()
    ensures AgreesWith(a, d) ==> PassedUpTo(d, All, force, a, |PHASES|).0 == Reference(d)
  {
    hide PassedUpTo;
    WholeRunGoesOn(d, force, a, |PHASES|);
    var now := PassedUpTo(d, All, force, a, |PHASES|).0;
    assert now.Has(PHASES[0]) && now.Has(PHASES[1]) && now.Has(PHASES[2]) && now.Has(PHASES[3]);
  }

  /** Main result. After any history of killed runs over the same dumps, in any order of phases, one
      complete run leaves the artifacts and the catalog of a single uninterrupted one. */
  lemma BrokenRunsEqualOneRun(d: Dumps, mapper: Mapper, onlyNew: bool, st: State, steps: seq<Step>, force: bool,
                              other: bool)
    requires d.Valid() && AgreesWith(st.artifacts, d)
    ensures var now := AfterAll(d, mapper, onlyNew, st, steps);
      var broken, whole := PassedUpTo(d, All, force, now.artifacts, |PHASES|).0,
        PassedUpTo(d, All, other, st.artifacts, |PHASES|).0;
      && broken == whole == Reference(d)
      && LoadedWhole(mapper, broken, onlyNew, now.catalog) == LoadedWhole(mapper, whole, onlyNew, st.catalog)
  {
    hide PassedUpTo, AfterAll, LoadedWhole, Reference, AgreesWith;
    HistoryKeepsTheResult(d, mapper, onlyNew, st, steps);
    WholeRunCompletes(d, force, AfterAll(d, mapper, onlyNew, st, steps).artifacts);
    WholeRunCompletes(d, other, st.artifacts);
  }
}
