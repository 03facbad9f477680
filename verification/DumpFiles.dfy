/** How the artifacts of a work directory are written: a temporary file, line by line, and a rename.
    The passes and loads of `DumpPhases` are what these files show to a reader. */
module DumpFiles {
  import opened Common
  import D = DumpPhases

  /** The two files a phase may have in the directory. */
  datatype Name = Final(phase: D.Phase) | Temp(phase: D.Phase)

  type Files = map<Name, string>

  // ---- text and lines

  predicate IsBreak(c: char) { c == '\n' || c == '\r' }

  predicate OneLine(s: string) { forall i | 0 <= i < |s| :: !IsBreak(s[i]) }

  predicate OneLineEach(lines: seq<string>) { forall i | 0 <= i < |lines| :: OneLine(lines[i]) }

  function Text(lines: seq<string>): string {
    if lines == [] then "" else Text(lines[..|lines| - 1]) + lines[|lines| - 1] + "\n"
  }

  /** Where the first line ends: at a line feed, a carriage return, or the end of the text. */
  function LineEnd(text: string): (k: nat)
    ensures k <= |text| && OneLine(text[..k]) && (k < |text| ==> IsBreak(text[k]))
  {
    if text == "" || IsBreak(text[0]) then 0
    else
      var k := LineEnd(text[1..]) + 1;
      assert text[..k] == [text[0]] + text[1..][..k - 1];
      k
  }

  /** Reading a text file line by line, with universal newlines. */
  function ReadLines(text: string): seq<string>
    decreases |text|
  {
    if text == "" then []
    else
      var k := LineEnd(text);
      if k == |text| then [text]
      else if text[k] == '\r' && k + 1 < |text| && text[k + 1] == '\n' then [text[..k]] + ReadLines(text[k + 2..])
      else [text[..k]] + ReadLines(text[k + 1..])
  }

  lemma {:induction false} LinesHaveNoBreak(text: string)
    ensures OneLineEach(ReadLines(text))
    decreases |text|
  {
    if text != "" {
      var k := LineEnd(text);
      if k < |text| {
        LinesHaveNoBreak(text[k + 1..]);
        if k + 1 < |text| {
          LinesHaveNoBreak(text[k + 2..]);
        }
      }
    }
  }

  lemma {:induction false} LineEndIs(line: string, rest: string)
    requires OneLine(line)
    ensures LineEnd(line + "\n" + rest) == |line|
  {
    var text := line + "\n" + rest;
    if line != "" {
      assert text[1..] == line[1..] + "\n" + rest;
      LineEndIs(line[1..], rest);
    }
  }

  lemma {:induction false} TextOfCons(line: string, lines: seq<string>)
    ensures Text([line] + lines) == line + "\n" + Text(lines)
  {
    if lines == [] {
      assert ([line] + lines)[..0] == [];
    } else {
      var last := |lines| - 1;
      TextOfCons(line, lines[..last]);
      assert ([line] + lines)[..|lines|] == [line] + lines[..last];
    }
  }

  lemma {:induction false} LinesComeBack(lines: seq<string>)
    requires OneLineEach(lines)
    ensures ReadLines(Text(lines)) == lines
  {
    if lines != [] {
      var line, rest := lines[0], Text(lines[1..]);
      assert lines == [line] + lines[1..];
      TextOfCons(line, lines[1..]);
      LineEndIs(line, rest);
      var text := line + "\n" + rest;
      assert text[..|line|] == line && text[|line|] == '\n' && text[|line| + 1..] == rest;
      LinesComeBack(lines[1..]);
    }
  }

  // ---- the author names: one tab-separated line each

  function NameLine(id: string, name: string): string { id + "\t" + name }

  function NameLines(ids: seq<string>, names: map<string, string>): seq<string>
    requires forall i | 0 <= i < |ids| :: ids[i] in names
  {
    seq(|ids|, i requires 0 <= i < |ids| => NameLine(ids[i], names[ids[i]]))
  }

  /** The first tab of a line, or its end. */
  function TabAt(line: string): (k: nat)
    ensures k <= |line| && (k < |line| ==> line[k] == '\t') && forall i | 0 <= i < k :: line[i] != '\t'
  {
    if line == "" || line[0] == '\t' then 0 else TabAt(line[1..]) + 1
  }

  /** The names as they are loaded: a line without a tab, or with nothing after it, is passed over. */
  function NamesIn(lines: seq<string>): map<string, string> {
    if lines == [] then map[]
    else
      var before, line := NamesIn(lines[..|lines| - 1]), lines[|lines| - 1];
      var k := TabAt(line);
      if k + 1 < |line| then before[line[..k] := line[k + 1..]] else before
  }

  function LoadNames(text: string): map<string, string> { NamesIn(ReadLines(text)) }

  lemma {:induction false} LoadedNamesAreOneLine(lines: seq<string>, id: string)
    requires OneLineEach(lines) && id in NamesIn(lines)
    ensures OneLine(NamesIn(lines)[id])
  {
    var last := |lines| - 1;
    var line := lines[last];
    var k := TabAt(line);
    if !(k + 1 < |line| && line[..k] == id) {
      LoadedNamesAreOneLine(lines[..last], id);
    }
  }

  lemma TabIsAfterId(id: string, name: string)
    requires '\t' !in id
    ensures TabAt(NameLine(id, name)) == |id|
    ensures NameLine(id, name)[..|id|] == id && NameLine(id, name)[|id| + 1..] == name
  {
    var line := NameLine(id, name);
    assert line[|id|] == '\t';
    assert forall i | 0 <= i < |id| :: line[i] == id[i];
  }

  predicate Listing(ids: seq<string>, names: map<string, string>) {
    && (forall i | 0 <= i < |ids| :: ids[i] in names)
    && (forall id | id in names :: id in ids)
  }

  /** What the pass over the authors dump writes: identifiers of the catalog's form, and names that are
      not blank. */
  predicate Collected(names: map<string, string>) {
    forall id | id in names :: '\t' !in id && OneLine(id) && names[id] != ""
  }

  /** One more line gives one more name. */
  lemma NextName(ids: seq<string>, names: map<string, string>, n: nat)
    requires n < |ids| && Collected(names) && forall i | 0 <= i < |ids| :: ids[i] in names
    ensures var lines := NameLines(ids, names);
      NamesIn(lines[..n + 1]) == NamesIn(lines[..n])[ids[n] := names[ids[n]]]
  {
    hide TabAt, OneLine;
    var lines := NameLines(ids, names);
    assert lines[..n + 1][..n] == lines[..n];
    TabIsAfterId(ids[n], names[ids[n]]);
  }

  lemma {:induction false} NamesOfLines(ids: seq<string>, names: map<string, string>, n: nat, id: string)
    requires n <= |ids| && Collected(names) && forall i | 0 <= i < |ids| :: ids[i] in names
    ensures var read := NamesIn(NameLines(ids, names)[..n]);
      (id in read <==> id in ids[..n]) && (id in read ==> read[id] == names[id])
  {
    hide NamesIn, NameLines, Collected;
    if n == 0 {
      NoNames(ids, names);
    } else {
      NamesOfLines(ids, names, n - 1, id);
      NextName(ids, names, n - 1);
      assert ids[..n] == ids[..n - 1] + [ids[n - 1]];
    }
  }

  lemma NoNames(ids: seq<string>, names: map<string, string>)
    requires forall i | 0 <= i < |ids| :: ids[i] in names
    ensures NamesIn(NameLines(ids, names)[..0]) == map[]
  {
  }

  /** The names that are loaded are the names that were collected if and only if none of them contains
      a line break: one that does is cut there. */
  lemma NamesComeBackExactly(ids: seq<string>, names: map<string, string>)
    requires Listing(ids, names) && Collected(names)
    ensures LoadNames(Text(NameLines(ids, names))) == names <==> forall id | id in names :: OneLine(names[id])
  {
    hide NamesIn, ReadLines, TabAt;
    var lines := NameLines(ids, names);
    var read := LoadNames(Text(lines));
    LinesHaveNoBreak(Text(lines));
    if read == names {
      forall id | id in names
        ensures OneLine(names[id])
      {
        LoadedNamesAreOneLine(ReadLines(Text(lines)), id);
      }
    }
    if forall id | id in names :: OneLine(names[id]) {
      forall i | 0 <= i < |lines|
        ensures OneLine(lines[i])
      {
        assert ids[i] in names && OneLine(names[ids[i]]);
      }
      LinesComeBack(lines);
      assert lines[..|ids|] == lines && ids[..|ids|] == ids;
      forall id: string
        ensures (id in read <==> id in names) && (id in read ==> read[id] == names[id])
      {
        NamesOfLines(ids, names, |ids|, id);
      }
    }
  }

  // ---- the four formats and what a reader of the directory sees

  /** How each artifact is put into lines, and what its loader makes of lines. */
  datatype Formats = Formats(
    writeCounts: map<string, nat> -> seq<string>, readCounts: seq<string> -> map<string, nat>,
    writeSelected: map<string, D.Work> -> seq<string>, readSelected: seq<string> -> map<string, D.Work>,
    writeRecords: seq<D.Record> -> seq<string>, readRecords: seq<string> -> seq<D.Record>,
    writeNames: map<string, string> -> seq<string>, readNames: seq<string> -> map<string, string>) {
    /** The loader of work records gives one record per work. */
    ghost predicate Valid() {
      forall lines :: D.OneLinePerWork(readRecords(lines))
    }
  }

  /** The artifacts there are for a reader: the files under their final names, as the loaders read them. */
  function Seen(f: Formats, files: Files): D.Artifacts {
    D.Artifacts(
      if Final(D.ReadingLog) in files then Some(f.readCounts(ReadLines(files[Final(D.ReadingLog)]))) else None,
      if Final(D.Editions) in files then Some(f.readSelected(ReadLines(files[Final(D.Editions)]))) else None,
      if Final(D.Works) in files then Some(f.readRecords(ReadLines(files[Final(D.Works)]))) else None,
      if Final(D.Authors) in files then Some(f.readNames(ReadLines(files[Final(D.Authors)]))) else None)
  }

  /** The dumps as the next pass gets to see them: through a file and back. */
  function Through(f: Formats, d: D.Dumps): D.Dumps {
    D.Dumps(
      f.readCounts(ReadLines(Text(f.writeCounts(d.counts)))),
      counts => f.readSelected(ReadLines(Text(f.writeSelected(d.select(counts))))),
      ids => f.readRecords(ReadLines(Text(f.writeRecords(d.collect(ids))))),
      authors => f.readNames(ReadLines(Text(f.writeNames(d.names(authors))))))
  }

  /** The lines a pass writes, from the artifact it loads first. */
  function Output(f: Formats, d: D.Dumps, phase: D.Phase, files: Files): Result<seq<string>> {
    var a := Seen(f, files);
    match phase
    case ReadingLog => Ok(f.writeCounts(d.counts))
    case Editions =>
      if a.counts.None? then Err("no reading-log counts") else Ok(f.writeSelected(d.select(a.counts.value)))
    case Works =>
      if a.selected.None? then Err("no selected works") else Ok(f.writeRecords(d.collect(a.selected.value.Keys)))
    case Authors =>
      if a.records.None? then Err("no work records") else Ok(f.writeNames(d.names(D.AuthorsOf(a.records.value))))
  }

  predicate ShouldRun(phase: D.Phase, files: Files, only: D.Only, force: bool) {
    match only
    case OnlyLoad => false
    case OnlyPhase(p) => p == phase && (force || Final(phase) !in files)
    case All => force || Final(phase) !in files
  }

  /** The directory once a temporary file has been renamed. */
  function Renamed(files: Files, phase: D.Phase, text: string): Files {
    (files - {Temp(phase)})[Final(phase) := text]
  }

  lemma RenamedIsBuilt(f: Formats, d: D.Dumps, phase: D.Phase, files: Files)
    ensures var out, built := Output(f, d, phase, files), D.Built(phase, Through(f, d), Seen(f, files));
      out.Ok? == built.Ok? && (out.Ok? ==> Seen(f, Renamed(files, phase, Text(out.value))) == built.value)
  {
    hide ReadLines, Text, D.AuthorsOf;
  }

  lemma TempIsNotSeen(f: Formats, phase: D.Phase, files: Files, text: string)
    ensures Seen(f, files[Temp(phase) := text]) == Seen(f, files)
    ensures Seen(f, files - {Temp(phase)}) == Seen(f, files)
  {
    hide ReadLines;
  }

  // ---- one write, killed anywhere

  /** The directory after the first `ops` file operations of a write: opening the temporary file, one
      line at a time, and the rename. */
  function Written(files: Files, phase: D.Phase, lines: seq<string>, ops: nat): Files {
    if ops == 0 then files
    else if ops < |lines| + 2 then files[Temp(phase) := Text(lines[..ops - 1])]
    else Renamed(files, phase, Text(lines))
  }

  /** A kill between any two operations leaves the old artifact or the whole new one: for the loaders,
      for the question whether a pass should run, and whatever an earlier kill left behind. */
  lemma OldOrWhole(f: Formats, d: D.Dumps, phase: D.Phase, files: Files, ops: nat, other: D.Phase, only: D.Only,
                   force: bool)
    requires Output(f, d, phase, files).Ok?
    ensures var lines := Output(f, d, phase, files).value;
      var now := Written(files, phase, lines, ops);
      && Seen(f, now)
          == (if ops < |lines| + 2 then Seen(f, files) else D.Built(phase, Through(f, d), Seen(f, files)).value)
      && ShouldRun(other, now, only, force) == D.ShouldRun(other, Seen(f, now), only, force)
  {
    hide Text, ReadLines, Output, D.Built, Through;
    RenamedIsBuilt(f, d, phase, files);
    var lines := Output(f, d, phase, files).value;
    if 0 < ops < |lines| + 2 {
      TempIsNotSeen(f, phase, files, Text(lines[..ops - 1]));
    }
    SeenDecides(f, Written(files, phase, lines, ops), other, only, force);
  }

  lemma SeenDecides(f: Formats, files: Files, phase: D.Phase, only: D.Only, force: bool)
    ensures ShouldRun(phase, files, only, force) == D.ShouldRun(phase, Seen(f, files), only, force)
  {
    hide ReadLines;
  }

  class WorkDir {
    const f: Formats
    var files: Files
    /** How many more file operations the process gets to do before it is killed. */
    var left: nat

    constructor (f: Formats, files: Files, left: nat)
      ensures this.f == f && this.files == files && this.left == left
    {
      this.f, this.files, this.left := f, files, left;
    }

    method WriteAtomic(phase: D.Phase, lines: seq<string>) returns (done: bool)
      modifies this`files, this`left
      ensures files == Written(old(files), phase, lines, old(left))
      ensures done <==> old(left) >= |lines| + 2
      ensures left == if done then old(left) - |lines| - 2 else 0
    {
      if left == 0 {
        return false;
      }
      files, left := files[Temp(phase) := ""], left - 1;
      for i := 0 to |lines|
        invariant files == old(files)[Temp(phase) := Text(lines[..i])]
        invariant left + i + 1 == old(left)
      {
        if left == 0 {
          return false;
        }
        assert lines[..i + 1][..i] == lines[..i];
        files, left := files[Temp(phase) := files[Temp(phase)] + lines[i] + "\n"], left - 1;
      }
      assert lines[..|lines|] == lines;
      if left == 0 {
        return false;
      }
      files, left := (files - {Temp(phase)})[Final(phase) := files[Temp(phase)]], left - 1;
      return true;
    }

    /** The passes of one run, killed wherever `left` says: what a reader then sees is what the first
        `reached` passes leave, and all of them are reached unless the run was killed or failed. */
    method RunPasses(d: D.Dumps, only: D.Only, force: bool) returns (reached: nat, failed: bool)
      modifies this`files, this`left
      ensures reached <= |D.PHASES|
      ensures Seen(f, files) == D.PassedUpTo(Through(f, d), only, force, Seen(f, old(files)), reached).0
      ensures failed ==> reached > 0 && !D.PassedUpTo(Through(f, d), only, force, Seen(f, old(files)), reached).1
      ensures !failed ==> D.PassedUpTo(Through(f, d), only, force, Seen(f, old(files)), reached).1
      ensures !failed && reached < |D.PHASES| ==> left == 0
    {
      hide Written, Output, Seen, Through, D.Built, ShouldRun, D.ShouldRun;
      reached := 0;
      while reached < |D.PHASES|
        invariant reached <= |D.PHASES|
        invariant (Seen(f, files), true) == D.PassedUpTo(Through(f, d), only, force, Seen(f, old(files)), reached)
      {
        var phase := D.PHASES[reached];
        SeenDecides(f, files, phase, only, force);
        if ShouldRun(phase, files, only, force) {
          var out := Output(f, d, phase, files);
          RenamedIsBuilt(f, d, phase, files);
          if out.Err? {
            return reached + 1, true;
          }
          OldOrWhole(f, d, phase, files, left, phase, only, force);
          var done := WriteAtomic(phase, out.value);
          if !done {
            return reached, false;
          }
        }
        reached := reached + 1;
      }
      return reached, false;
    }
  }

  // ---- histories of file operations

  /** A write under way: what it has still to write, and whether its temporary file is open. What reaches
      a file at a time is any piece of a buffer, not a line. */
  datatype Writing = Writing(phase: D.Phase, rest: string, isOpen: bool)

  datatype Disk = Disk(files: Files, writing: Option<Writing>, catalog: D.Catalog)

  datatype Step =
    | Start(phase: D.Phase)
    | Open
    | Write(n: nat)
    | Rename
    | PartLoad(n: nat)
    | Die

  function After(f: Formats, d: D.Dumps, mapper: D.Mapper, onlyNew: bool, st: Disk, step: Step): Disk {
    match step
    case Start(phase) =>
      var out := Output(f, d, phase, st.files);
      if st.writing.None? && out.Ok? then st.(writing := Some(Writing(phase, Text(out.value), false))) else st
    case Open =>
      if st.writing.Some? && !st.writing.value.isOpen then
        st.(files := st.files[Temp(st.writing.value.phase) := ""], writing := Some(st.writing.value.(isOpen := true)))
      else st
    case Write(n) =>
      if st.writing.Some? && st.writing.value.isOpen then AfterWrite(st, n) else st
    case Rename =>
      if Renames(st) then
        var phase := st.writing.value.phase;
        Disk(Renamed(st.files, phase, TempText(st.files, phase)), None, st.catalog)
      else st
    case PartLoad(n) =>
      var a := Seen(f, st.files);
      if st.writing.None? && a.Loadable() then
        st.(catalog := D.Loaded(mapper, a, onlyNew, st.catalog, Min(n, |a.records.value|)))
      else st
    case Die => st.(writing := None)
  }

  function TempText(files: Files, phase: D.Phase): string {
    if Temp(phase) in files then files[Temp(phase)] else ""
  }

  predicate Renames(st: Disk) {
    st.writing.Some? && st.writing.value.isOpen && st.writing.value.rest == ""
  }

  /** The next `n` characters reach the temporary file, or all there are. */
  function AfterWrite(st: Disk, n: nat): Disk
    requires st.writing.Some?
  {
    var w := st.writing.value;
    var m := Min(n, |w.rest|);
    st.(files := st.files[Temp(w.phase) := TempText(st.files, w.phase) + w.rest[..m]],
        writing := Some(w.(rest := w.rest[m..])))
  }

  function AfterAll(f: Formats, d: D.Dumps, mapper: D.Mapper, onlyNew: bool, st: Disk, steps: seq<Step>): Disk {
    if steps == [] then st
    else After(f, d, mapper, onlyNew, AfterAll(f, d, mapper, onlyNew, st, steps[..|steps| - 1]), steps[|steps| - 1])
  }

  /** A write under way writes what its pass computes from the artifacts there are, and its temporary
      file holds the beginning of that and nothing of an earlier write. */
  predicate Sound(f: Formats, d: D.Dumps, st: Disk) {
    st.writing.Some? ==>
      var w := st.writing.value;
      var out := Output(f, d, w.phase, st.files);
      out.Ok? && Text(out.value) == (if w.isOpen then TempText(st.files, w.phase) + w.rest else w.rest)
  }

  /** What one file operation is to a reader of the directory: a pass for a rename, and nothing for any
      other operation on files. */
  function Visible(st: Disk, step: Step): seq<D.Step> {
    match step
    case Rename => if Renames(st) then [D.Passed(st.writing.value.phase)] else []
    case PartLoad(n) => if st.writing.None? then [D.PartLoaded(n)] else []
    case _ => []
  }

  function AllVisible(f: Formats, d: D.Dumps, mapper: D.Mapper, onlyNew: bool, st: Disk,
                      steps: seq<Step>): seq<D.Step> {
    if steps == [] then []
    else
      var last := |steps| - 1;
      AllVisible(f, d, mapper, onlyNew, st, steps[..last])
      + Visible(AfterAll(f, d, mapper, onlyNew, st, steps[..last]), steps[last])
  }

  function View(f: Formats, st: Disk): D.State { D.State(Seen(f, st.files), st.catalog) }

  lemma StepIsVisible(f: Formats, d: D.Dumps, mapper: D.Mapper, onlyNew: bool, st: Disk, step: Step)
    requires Sound(f, d, st)
    ensures var now := After(f, d, mapper, onlyNew, st, step);
      && Sound(f, d, now)
      && View(f, now) == D.AfterAll(Through(f, d), mapper, onlyNew, View(f, st), Visible(st, step))
  {
    hide Text, Seen, Through, D.Built, D.Loaded;
    match step
    case Start(phase) =>
    case Open =>
      if st.writing.Some? {
        TempIsNotSeen(f, st.writing.value.phase, st.files, "");
      }
    case Write(n) =>
      if st.writing.Some? && st.writing.value.isOpen {
        WriteIsSound(f, d, st, n);
      }
    case Rename =>
      if Renames(st) {
        var w := st.writing.value;
        RenamedIsBuilt(f, d, w.phase, st.files);
        assert TempText(st.files, w.phase) + w.rest == TempText(st.files, w.phase);
        D.AfterOne(Through(f, d), mapper, onlyNew, View(f, st), D.Passed(w.phase));
      }
    case PartLoad(n) =>
      if st.writing.None? {
        D.AfterOne(Through(f, d), mapper, onlyNew, View(f, st), D.PartLoaded(n));
      }
    case Die =>
  }

  lemma WriteIsSound(f: Formats, d: D.Dumps, st: Disk, n: nat)
    requires Sound(f, d, st) && st.writing.Some? && st.writing.value.isOpen
    ensures Sound(f, d, AfterWrite(st, n)) && View(f, AfterWrite(st, n)) == View(f, st)
  {
    hide Text, Seen;
    var w, now := st.writing.value, AfterWrite(st, n);
    var m := Min(n, |w.rest|);
    TempIsNotSeen(f, w.phase, st.files, TempText(now.files, w.phase));
    assert w.rest[..m] + w.rest[m..] == w.rest;
  }

  /** Main result about files. Over any sequence of operations on files, kills between any two of them
      included, what a reader sees is a history of whole passes and loads. */
  lemma {:induction false} FilesRefinePasses(f: Formats, d: D.Dumps, mapper: D.Mapper, onlyNew: bool, st: Disk,
                                             steps: seq<Step>)
    requires Sound(f, d, st)
    ensures var now := AfterAll(f, d, mapper, onlyNew, st, steps);
      && Sound(f, d, now)
      && View(f, now) == D.AfterAll(Through(f, d), mapper, onlyNew, View(f, st),
                                    AllVisible(f, d, mapper, onlyNew, st, steps))
  {
    hide After, Sound, View, Visible, Through;
    if steps != [] {
      var last := |steps| - 1;
      var before := AfterAll(f, d, mapper, onlyNew, st, steps[..last]);
      FilesRefinePasses(f, d, mapper, onlyNew, st, steps[..last]);
      StepIsVisible(f, d, mapper, onlyNew, before, steps[last]);
      D.AfterBoth(Through(f, d), mapper, onlyNew, View(f, st), AllVisible(f, d, mapper, onlyNew, st, steps[..last]),
                  Visible(before, steps[last]));
    }
  }

  /** Main result. From a directory that may hold leftovers of killed writes, after any sequence of file
      operations and kills, one complete run leaves the artifacts and the catalog of one uninterrupted
      run from the start. */
  lemma KilledAnywhereEqualsOneRun(f: Formats, d: D.Dumps, mapper: D.Mapper, onlyNew: bool, st: Disk, steps: seq<Step>,
                                   force: bool, other: bool)
    requires f.Valid() && st.writing.None? && D.AgreesWith(Seen(f, st.files), Through(f, d))
    ensures var now, t := AfterAll(f, d, mapper, onlyNew, st, steps), Through(f, d);
      var broken := D.PassedUpTo(t, D.All, force, Seen(f, now.files), |D.PHASES|).0;
      var whole := D.PassedUpTo(t, D.All, other, Seen(f, st.files), |D.PHASES|).0;
      && broken == whole == D.Reference(t)
      && D.LoadedWhole(mapper, broken, onlyNew, now.catalog) == D.LoadedWhole(mapper, whole, onlyNew, st.catalog)
  {
    hide AfterAll, AllVisible, Seen, D.PassedUpTo, D.AfterAll, D.LoadedWhole, D.Reference, D.AgreesWith;
    FilesRefinePasses(f, d, mapper, onlyNew, st, steps);
    D.BrokenRunsEqualOneRun(Through(f, d), mapper, onlyNew, View(f, st), AllVisible(f, d, mapper, onlyNew, st, steps),
                            force, other);
  }

  // ---- a write in pieces

  /** The operations of one write: whatever pieces of the buffer reach the file at a time. */
  function WriteIn(phase: D.Phase, pieces: seq<nat>): seq<Step> {
    [Start(phase), Open] + Pieces(pieces) + [Rename]
  }

  function Pieces(pieces: seq<nat>): seq<Step> {
    seq(|pieces|, i requires 0 <= i < |pieces| => Write(pieces[i]))
  }

  function Size(pieces: seq<nat>): nat {
    if pieces == [] then 0 else Size(pieces[..|pieces| - 1]) + pieces[|pieces| - 1]
  }

  lemma AfterAllOne(f: Formats, d: D.Dumps, mapper: D.Mapper, onlyNew: bool, st: Disk, step: Step)
    ensures AfterAll(f, d, mapper, onlyNew, st, [step]) == After(f, d, mapper, onlyNew, st, step)
  {
    hide After;
    assert [step][..0] == [];
  }

  lemma AfterAllNext(f: Formats, d: D.Dumps, mapper: D.Mapper, onlyNew: bool, st: Disk, steps: seq<Step>, step: Step)
    ensures AfterAll(f, d, mapper, onlyNew, st, steps + [step])
         == After(f, d, mapper, onlyNew, AfterAll(f, d, mapper, onlyNew, st, steps), step)
  {
    hide After;
    assert (steps + [step])[..|steps|] == steps;
  }

  /** What has been written once so many pieces have. */
  ghost predicate WrittenSoFar(st: Disk, before: Files, phase: D.Phase, text: string, n: nat) {
    var m := Min(n, |text|);
    && st.files == before[Temp(phase) := text[..m]]
    && st.writing == Some(Writing(phase, text[m..], true))
  }

  lemma PieceIsWritten(st: Disk, before: Files, phase: D.Phase, text: string, n: nat, more: nat)
    requires WrittenSoFar(st, before, phase, text, n)
    ensures WrittenSoFar(AfterWrite(st, more), before, phase, text, n + more)
  {
    var m := Min(n, |text|);
    TwoPieces(text, m, Min(more, |text[m..]|));
    assert TempText(st.files, phase) == text[..m];
    WrittenOver(before, Temp(phase), text[..m], text[..m + Min(more, |text[m..]|)]);
  }

  lemma TwoPieces(text: string, m: nat, k: nat)
    requires m + k <= |text|
    ensures text[..m] + text[m..][..k] == text[..m + k] && text[m..][k..] == text[m + k..]
  {
  }

  lemma WrittenOver(files: Files, name: Name, a: string, b: string)
    ensures files[name := a][name := b] == files[name := b]
  {
  }

  lemma Opened(f: Formats, d: D.Dumps, mapper: D.Mapper, onlyNew: bool, st: Disk, phase: D.Phase, text: string)
    requires st.writing.None? && Output(f, d, phase, st.files).Ok?
    requires text == Text(Output(f, d, phase, st.files).value)
    ensures var now := AfterAll(f, d, mapper, onlyNew, st, [Start(phase), Open]);
      WrittenSoFar(now, st.files, phase, text, 0) && now.catalog == st.catalog
  {
    hide Output, AfterAll, Text;
    AfterAllOne(f, d, mapper, onlyNew, st, Start(phase));
    AfterAllNext(f, d, mapper, onlyNew, st, [Start(phase)], Open);
    assert [Start(phase)] + [Open] == [Start(phase), Open];
    assert text[..0] == "" && text[0..] == text;
  }

  lemma {:induction false} PiecesAreWritten(f: Formats, d: D.Dumps, mapper: D.Mapper, onlyNew: bool, st: Disk,
                                            phase: D.Phase, text: string, pieces: seq<nat>)
    requires st.writing.None? && Output(f, d, phase, st.files).Ok?
    requires text == Text(Output(f, d, phase, st.files).value)
    ensures var now := AfterAll(f, d, mapper, onlyNew, st, [Start(phase), Open] + Pieces(pieces));
      WrittenSoFar(now, st.files, phase, text, Size(pieces)) && now.catalog == st.catalog
  {
    hide AfterWrite, Output, AfterAll, After, Text;
    if pieces == [] {
      Opened(f, d, mapper, onlyNew, st, phase, text);
      assert [Start(phase), Open] + Pieces(pieces) == [Start(phase), Open];
    } else {
      var last := |pieces| - 1;
      var init := [Start(phase), Open] + Pieces(pieces[..last]);
      PiecesAreWritten(f, d, mapper, onlyNew, st, phase, text, pieces[..last]);
      assert [Start(phase), Open] + Pieces(pieces) == init + [Write(pieces[last])];
      AfterAllNext(f, d, mapper, onlyNew, st, init, Write(pieces[last]));
      var before := AfterAll(f, d, mapper, onlyNew, st, init);
      PieceIsWritten(before, st.files, phase, text, Size(pieces[..last]), pieces[last]);
      WriteHappens(f, d, mapper, onlyNew, before, pieces[last]);
    }
  }

  lemma WriteHappens(f: Formats, d: D.Dumps, mapper: D.Mapper, onlyNew: bool, st: Disk, n: nat)
    requires st.writing.Some? && st.writing.value.isOpen
    ensures After(f, d, mapper, onlyNew, st, Write(n)) == AfterWrite(st, n)
    ensures AfterWrite(st, n).catalog == st.catalog
  {
  }

  /** Main result on one write: whatever pieces it is made in, once they hold the whole buffer the rename leaves
      the artifact with all of its lines, no temporary file, and every other file as it was; and if they do not,
      the artifact is untouched. */
  lemma AnyPiecesWriteTheWhole(f: Formats, d: D.Dumps, mapper: D.Mapper, onlyNew: bool, st: Disk, phase: D.Phase,
                               pieces: seq<nat>)
    requires st.writing.None? && Output(f, d, phase, st.files).Ok?
    ensures var text := Text(Output(f, d, phase, st.files).value);
      var now := AfterAll(f, d, mapper, onlyNew, st, WriteIn(phase, pieces));
      && now.catalog == st.catalog
      && (if Size(pieces) >= |text| then
            now.files == (st.files - {Temp(phase)})[Final(phase) := text] && now.writing.None?
          else now.files == st.files[Temp(phase) := text[..Size(pieces)]])
  {
    hide Output, AfterAll;
    var text := Text(Output(f, d, phase, st.files).value);
    var init := [Start(phase), Open] + Pieces(pieces);
    PiecesAreWritten(f, d, mapper, onlyNew, st, phase, text, pieces);
    AfterAllNext(f, d, mapper, onlyNew, st, init, Rename);
    if Size(pieces) >= |text| {
      assert text[..|text|] == text && text[|text|..] == "";
      RenamedFiles(st.files, phase, text);
    }
  }

  lemma RenamedFiles(files: Files, phase: D.Phase, text: string)
    ensures Renamed(files[Temp(phase) := text], phase, text) == (files - {Temp(phase)})[Final(phase) := text]
  {
  }
}
