/** From calls to text and back: what the rendered registry says after any history of calls. The calls go
    to any registered families and label sets in any order; a scraper that parses the text finds, for each
    label set of each family, exactly what was recorded for it: its total, its buckets, its count and sum. */
module MetricsHistory {
  import opened Common
  import opened Exposition
  import opened Metrics

  /** The registry before its first call: its families, all empty. */
  function Registered(counterNames: set<string>, histogramNames: set<string>): (r: Recorded)
    ensures AllWellShaped(r.histograms)
  {
    Recorded(map name | name in counterNames :: map[], map name | name in histogramNames :: map[])
  }

  function AfterAll(buckets: seq<real>, r: Recorded, events: seq<Event>): (now: Recorded)
    requires AllWellShaped(r.histograms)
    ensures AllWellShaped(now.histograms)
    ensures now.counters.Keys == r.counters.Keys && now.histograms.Keys == r.histograms.Keys
  {
    if events == [] then r
    else After(buckets, AfterAll(buckets, r, events[..|events| - 1]), events[|events| - 1])
  }

  /** The increments of one family, in order. */
  function IncrementsOf(events: seq<Event>, name: string): seq<Increment> {
    if events == [] then []
    else
      var before, last := IncrementsOf(events[..|events| - 1], name), events[|events| - 1];
      if last.Inc? && last.name == name then before + [Increment(last.key, last.amount)] else before
  }

  /** The values observed for one label set of one family, in order. */
  function ValuesOf(events: seq<Event>, name: string, key: LabelKey): seq<real> {
    if events == [] then []
    else
      var before, last := ValuesOf(events[..|events| - 1], name, key), events[|events| - 1];
      if last.Obs? && last.name == name && last.key == key then before + [last.value] else before
  }

  /** What is recorded for a label set is what was recorded under its own name and key: calls for other
      families and label sets leave it alone. */
  lemma {:induction false} CountersOfHistory(buckets: seq<real>, counterNames: set<string>, histogramNames: set<string>,
                                             events: seq<Event>, name: string)
    requires name in counterNames
    ensures AfterAll(buckets, Registered(counterNames, histogramNames), events).counters[name]
         == IncrementedAll(IncrementsOf(events, name))
  {
    hide Incremented, After;
    if events != [] {
      var last := |events| - 1;
      var e := events[last];
      CountersOfHistory(buckets, counterNames, histogramNames, events[..last], name);
      CounterAfter(buckets, AfterAll(buckets, Registered(counterNames, histogramNames), events[..last]), e, name);
      if e.Inc? && e.name == name {
        var before, one := IncrementsOf(events[..last], name), Increment(e.key, e.amount);
        assert (before + [one])[..|before|] == before;
      }
    }
  }

  lemma CounterAfter(buckets: seq<real>, r: Recorded, e: Event, name: string)
    requires AllWellShaped(r.histograms) && name in r.counters
    ensures After(buckets, r, e).counters[name]
         == if e.Inc? && e.name == name then Incremented(r.counters[name], e.key, e.amount) else r.counters[name]
  {
    hide Incremented, ObservedIn;
  }

  lemma {:induction false} HistogramsOfHistory(buckets: seq<real>, counterNames: set<string>,
                                               histogramNames: set<string>, events: seq<Event>, name: string,
                                               key: LabelKey)
    requires name in histogramNames
    ensures var family := AfterAll(buckets, Registered(counterNames, histogramNames), events).histograms[name];
      && (key in family <==> ValuesOf(events, name, key) != [])
      && (key in family ==> family[key] == ObservedAll(buckets, ValuesOf(events, name, key)))
  {
    hide Incremented, Observed, Fresh;
    if events != [] {
      var last := |events| - 1;
      HistogramsOfHistory(buckets, counterNames, histogramNames, events[..last], name, key);
      if events[last].Obs? && events[last].name == name && events[last].key == key {
        var before := ValuesOf(events[..last], name, key);
        assert (before + [events[last].value])[..|before|] == before;
      }
    }
  }

  // ---- which samples a family has

  const SUFFIXES: seq<string> := ["_bucket", "_sum", "_count"]

  /** Names that stay apart once histograms add their suffixes. */
  ghost predicate Apart(counterNames: seq<string>, histogramNames: seq<string>) {
    forall c, h, i | c in counterNames && h in histogramNames && 0 <= i < 3 :: c != h + SUFFIXES[i]
  }

  lemma SuffixesTellNames(a: string, b: string, i: nat, j: nat)
    requires i < 3 && j < 3
    ensures a + SUFFIXES[i] == b + SUFFIXES[j] <==> a == b && i == j
  {
    var left, right := a + SUFFIXES[i], b + SUFFIXES[j];
    if left == right {
      assert left[|left| - 1] == SUFFIXES[i][|SUFFIXES[i]| - 1] && right[|right| - 1] == SUFFIXES[j][|SUFFIXES[j]| - 1];
      assert left[|left| - 2] == SUFFIXES[i][|SUFFIXES[i]| - 2] && right[|right| - 2] == SUFFIXES[j][|SUFFIXES[j]| - 2];
      assert left[|left| - 3] == SUFFIXES[i][|SUFFIXES[i]| - 3] && right[|right| - 3] == SUFFIXES[j][|SUFFIXES[j]| - 3];
      assert left[..|a|] == a && right[..|b|] == b;
    }
  }

  lemma {:induction false} CounterSampleNames(p: Printer, name: string, family: Counters, keys: seq<LabelKey>,
                                              s: Sample)
    requires (forall i | 0 <= i < |keys| :: keys[i] in family) && s in CounterSamples(p, name, family, keys)
    ensures s.name == name
  {
    hide FormatInt;
    if s != CounterSamples(p, name, family, keys)[0] {
      CounterSampleNames(p, name, family, keys[1..], s);
    }
  }

  /** The bucket lines of a label set among the samples of its histogram. */
  lemma {:induction false} BucketsAre(p: Printer, name: string, key: LabelKey, h: Histogram, n: nat, s: Sample)
    requires n <= |h.bounds| == |h.counts|
    ensures s in BucketSamples(p, name, key, h, n) <==> exists j :: 0 <= j < n && s == BucketOf(p, name, key, h, j)
  {
    hide FormatInt;
    if n > 0 {
      BucketsAre(p, name, key, h, n - 1, s);
      assert s in BucketSamples(p, name, key, h, n) <==>
        s in BucketSamples(p, name, key, h, n - 1) || s == BucketOf(p, name, key, h, n - 1);
    }
  }

  function BucketOf(p: Printer, name: string, key: LabelKey, h: Histogram, j: int): Sample
    requires 0 <= j < |h.bounds| == |h.counts|
  {
    Sample(name + "_bucket", key + [Label("le", p.FormatNumber(h.bounds[j]))], FormatInt(h.counts[j]))
  }

  /** Bounds that print differently, so that no two bucket lines of a label set look alike. */
  ghost predicate PrintApart(p: Printer, bounds: seq<real>) {
    && (forall i, j | 0 <= i < j < |bounds| :: p.FormatNumber(bounds[i]) != p.FormatNumber(bounds[j]))
    && (forall i | 0 <= i < |bounds| :: p.FormatNumber(bounds[i]) != "+Inf")
  }

  lemma SameBound(key: LabelKey, other: LabelKey, a: string, b: string)
    ensures key + [Label("le", a)] == other + [Label("le", b)] <==> key == other && a == b
  {
    var left, right := key + [Label("le", a)], other + [Label("le", b)];
    if left == right {
      assert |left| == |right| && left[|left| - 1] == Label("le", a) && right[|left| - 1] == Label("le", b);
      assert left[..|key|] == key && right[..|key|] == other;
    }
  }

  /** What a histogram line says: the line of a bucket gives its count, the last line the total. */
  lemma HistogramLines(p: Printer, name: string, key: LabelKey, h: Histogram, other: LabelKey, i: nat, value: string)
    requires i < |h.bounds| == |h.counts| && PrintApart(p, h.bounds)
    ensures var labels := other + [Label("le", p.FormatNumber(h.bounds[i]))];
      Sample(name + "_bucket", labels, value) in HistogramSamples(p, name, key, h) <==>
        other == key && value == FormatInt(h.counts[i])
    ensures Sample(name + "_count", other, value) in HistogramSamples(p, name, key, h) <==>
      other == key && value == FormatInt(h.count)
    ensures Sample(name + "_sum", other, value) in HistogramSamples(p, name, key, h) <==>
      other == key && value == p.FormatNumber(h.sum)
  {
    hide FormatInt, BucketSamples, p.FormatNumber;
    var bucket := Sample(name + "_bucket", other + [Label("le", p.FormatNumber(h.bounds[i]))], value);
    var count, sum := Sample(name + "_count", other, value), Sample(name + "_sum", other, value);
    var buckets := BucketSamples(p, name, key, h, |h.bounds|);
    BucketsAre(p, name, key, h, |h.bounds|, bucket);
    BucketsAre(p, name, key, h, |h.bounds|, count);
    BucketsAre(p, name, key, h, |h.bounds|, sum);
    Endings(name);
    SameBound(other, key, p.FormatNumber(h.bounds[i]), "+Inf");
    forall j: nat | j < |h.bounds|
      ensures bucket == BucketOf(p, name, key, h, j) <==> j == i && other == key && value == FormatInt(h.counts[i])
    {
      SameBound(other, key, p.FormatNumber(h.bounds[i]), p.FormatNumber(h.bounds[j]));
    }
    if other == key && value == FormatInt(h.counts[i]) {
      assert bucket == BucketOf(p, name, key, h, i);
    }
  }

  lemma Endings(name: string)
    ensures name + "_bucket" != name + "_count" && name + "_bucket" != name + "_sum" && name + "_sum" != name + "_count"
  {
    SuffixesTellNames(name, name, 0, 2);
    SuffixesTellNames(name, name, 0, 1);
    SuffixesTellNames(name, name, 1, 2);
  }

  lemma {:induction false} HistogramFamilyLines(p: Printer, name: string, family: map<LabelKey, Histogram>,
                                                keys: seq<LabelKey>, bounds: seq<real>, key: LabelKey, i: nat,
                                                value: string)
    requires forall j | 0 <= j < |keys| :: keys[j] in family && |family[keys[j]].bounds| == |family[keys[j]].counts|
    requires forall j | 0 <= j < |keys| :: family[keys[j]].bounds == bounds
    requires i < |bounds| && PrintApart(p, bounds)
    ensures var samples := AllHistogramSamples(p, name, family, keys);
      && (Sample(name + "_bucket", key + [Label("le", p.FormatNumber(bounds[i]))], value) in samples <==>
            key in keys && value == FormatInt(family[key].counts[i]))
      && (Sample(name + "_count", key, value) in samples <==> key in keys && value == FormatInt(family[key].count))
      && (Sample(name + "_sum", key, value) in samples <==> key in keys && value == p.FormatNumber(family[key].sum))
  {
    hide FormatInt, HistogramSamples, PrintApart, p.FormatNumber;
    if keys != [] {
      HistogramFamilyLines(p, name, family, keys[1..], bounds, key, i, value);
      HistogramLines(p, name, keys[0], family[keys[0]], key, i, value);
      assert keys == [keys[0]] + keys[1..];
    }
  }

  /** Every sample of a histogram carries the name of its family and one of the three suffixes. */
  ghost predicate Suffixed(s: Sample, name: string) {
    exists i :: 0 <= i < 3 && s.name == name + SUFFIXES[i]
  }

  lemma {:induction false} BucketSampleNames(p: Printer, name: string, key: LabelKey, h: Histogram, s: Sample)
    requires |h.bounds| == |h.counts| && s in HistogramSamples(p, name, key, h)
    ensures Suffixed(s, name)
  {
    hide FormatInt, BucketSamples, p.FormatNumber;
    BucketsAre(p, name, key, h, |h.bounds|, s);
    assert SUFFIXES[0] == "_bucket" && SUFFIXES[1] == "_sum" && SUFFIXES[2] == "_count";
  }

  lemma {:induction false} HistogramSampleNames(p: Printer, name: string, family: map<LabelKey, Histogram>,
                                                keys: seq<LabelKey>, s: Sample)
    requires forall j | 0 <= j < |keys| :: keys[j] in family && |family[keys[j]].bounds| == |family[keys[j]].counts|
    requires s in AllHistogramSamples(p, name, family, keys)
    ensures Suffixed(s, name)
  {
    hide HistogramSamples, Suffixed;
    if s in HistogramSamples(p, name, keys[0], family[keys[0]]) {
      BucketSampleNames(p, name, keys[0], family[keys[0]], s);
    } else {
      HistogramSampleNames(p, name, family, keys[1..], s);
    }
  }

  // ---- which family a sample belongs to

  lemma {:induction false} CounterSampleIn(p: Printer, help: map<string, string>, counters: map<string, Counters>,
                                           names: seq<string>, s: Sample)
    requires p.Valid() && forall i | 0 <= i < |names| :: names[i] in counters
    ensures s in AllSamples(CounterFamilies(p, help, counters, names)) <==>
      s.name in names && s in CounterFamily(p, help, s.name, counters[s.name]).samples
  {
    hide CounterSamples, p.Valid;
    if names != [] {
      CounterSampleIn(p, help, counters, names[1..], s);
      var family := counters[names[0]];
      SortedAreKeys(p, family);
      if s in CounterFamily(p, help, names[0], family).samples {
        CounterSampleNames(p, names[0], family, p.sort(family.Keys), s);
      }
      assert names == [names[0]] + names[1..];
    }
  }

  lemma {:induction false} HistogramSampleIn(p: Printer, help: map<string, string>,
                                             histograms: map<string, map<LabelKey, Histogram>>, names: seq<string>,
                                             name: string, i: nat, s: Sample)
    requires p.Valid() && forall i | 0 <= i < |names| :: names[i] in histograms && WellShaped(histograms[names[i]])
    requires i < 3 && s.name == name + SUFFIXES[i]
    ensures s in AllSamples(HistogramFamilies(p, help, histograms, names)) <==>
      name in names && s in HistogramFamily(p, help, name, histograms[name]).samples
  {
    hide AllHistogramSamples, p.Valid, WellShaped;
    if names != [] {
      HistogramSampleIn(p, help, histograms, names[1..], name, i, s);
      var family := histograms[names[0]];
      if s in HistogramFamily(p, help, names[0], family).samples {
        HistogramSampleOwner(p, help, names[0], family, name, i, s);
      }
      assert names == [names[0]] + names[1..];
    }
  }

  lemma HistogramSampleOwner(p: Printer, help: map<string, string>, owner: string, family: map<LabelKey, Histogram>,
                             name: string, i: nat, s: Sample)
    requires p.Valid() && WellShaped(family) && i < 3 && s.name == name + SUFFIXES[i]
    requires s in HistogramFamily(p, help, owner, family).samples
    ensures owner == name
  {
    hide AllHistogramSamples, p.Valid;
    SortedAreKeys(p, family);
    HistogramSampleNames(p, owner, family, p.sort(family.Keys), s);
    var j :| 0 <= j < 3 && s.name == owner + SUFFIXES[j];
    SuffixesTellNames(name, owner, i, j);
  }

  // ---- the text after any history

  ghost function Names(names: seq<string>): (all: set<string>)
    ensures forall name :: name in all <==> name in names
  {
    set name | name in names
  }

  /** The registry after a history of calls on its registered families. */
  ghost function Now(buckets: seq<real>, counterNames: seq<string>, histogramNames: seq<string>,
                     events: seq<Event>): (r: Recorded)
    ensures AllWellShaped(r.histograms)
    ensures r.counters.Keys == Names(counterNames) && r.histograms.Keys == Names(histogramNames)
  {
    AfterAll(buckets, Registered(Names(counterNames), Names(histogramNames)), events)
  }

  /** Family names, help texts and label names of the form the format asks for. */
  ghost predicate Nameable(help: map<string, string>, counterNames: seq<string>, histogramNames: seq<string>,
                           events: seq<Event>) {
    && (forall i | 0 <= i < |counterNames| :: IsName(counterNames[i]) && '\n' !in HelpOf(help, counterNames[i]))
    && (forall i | 0 <= i < |histogramNames| :: IsName(histogramNames[i]) && '\n' !in HelpOf(help, histogramNames[i]))
    && (forall i | 0 <= i < |events| :: AllNamed(events[i].key))
  }

  ghost predicate AllKeysNamed(r: Recorded) {
    && (forall name | name in r.counters :: NamedKeys(r.counters[name].Keys))
    && (forall name | name in r.histograms :: NamedKeys(r.histograms[name].Keys))
  }

  lemma {:induction false} HistoryKeysAreNamed(buckets: seq<real>, r: Recorded, events: seq<Event>)
    requires AllWellShaped(r.histograms) && AllKeysNamed(r) && forall i | 0 <= i < |events| :: AllNamed(events[i].key)
    ensures AllKeysNamed(AfterAll(buckets, r, events))
  {
    hide After, AllKeysNamed, AllNamed;
    if events != [] {
      HistoryKeysAreNamed(buckets, r, events[..|events| - 1]);
      EventKeysAreNamed(buckets, AfterAll(buckets, r, events[..|events| - 1]), events[|events| - 1]);
    }
  }

  lemma EventKeysAreNamed(buckets: seq<real>, r: Recorded, e: Event)
    requires AllWellShaped(r.histograms) && AllKeysNamed(r) && AllNamed(e.key)
    ensures AllKeysNamed(After(buckets, r, e))
  {
    hide Observed, Fresh, AllNamed;
  }

  /** Every histogram has the registry's own bounds. */
  ghost predicate AllBounds(buckets: seq<real>, r: Recorded) {
    forall name, key | name in r.histograms && key in r.histograms[name] :: r.histograms[name][key].bounds == buckets
  }

  lemma {:induction false} HistoryKeepsBounds(buckets: seq<real>, r: Recorded, events: seq<Event>)
    requires AllWellShaped(r.histograms) && AllBounds(buckets, r)
    ensures AllBounds(buckets, AfterAll(buckets, r, events))
  {
    hide After, AllBounds;
    if events != [] {
      HistoryKeepsBounds(buckets, r, events[..|events| - 1]);
      EventKeepsBounds(buckets, AfterAll(buckets, r, events[..|events| - 1]), events[|events| - 1]);
    }
  }

  lemma EventKeepsBounds(buckets: seq<real>, r: Recorded, e: Event)
    requires AllWellShaped(r.histograms) && AllBounds(buckets, r)
    ensures AllBounds(buckets, After(buckets, r, e))
  {
    hide Incremented;
  }

  ghost function AllFamilies(p: Printer, help: map<string, string>, counterNames: seq<string>,
                             histogramNames: seq<string>, r: Recorded): seq<Family>
    requires p.Valid() && r.counters.Keys == Names(counterNames) && r.histograms.Keys == Names(histogramNames)
    requires AllWellShaped(r.histograms)
  {
    CounterFamilies(p, help, r.counters, counterNames) + HistogramFamilies(p, help, r.histograms, histogramNames)
  }

  /** What a scraper reads: the samples of the rendered text, or nothing if it is malformed. */
  ghost function Scraped(p: Printer, help: map<string, string>, buckets: seq<real>, counterNames: seq<string>,
                         histogramNames: seq<string>, events: seq<Event>): Option<seq<Sample>>
    requires p.Valid()
  {
    ParseExposition(Render(AllFamilies(p, help, counterNames, histogramNames,
                                       Now(buckets, counterNames, histogramNames, events))))
  }

  lemma ScrapedIs(p: Printer, help: map<string, string>, buckets: seq<real>, counterNames: seq<string>,
                  histogramNames: seq<string>, events: seq<Event>)
    requires p.Valid() && Nameable(help, counterNames, histogramNames, events)
    ensures var r := Now(buckets, counterNames, histogramNames, events);
      Scraped(p, help, buckets, counterNames, histogramNames, events)
        == Some(AllSamples(CounterFamilies(p, help, r.counters, counterNames))
                + AllSamples(HistogramFamilies(p, help, r.histograms, histogramNames)))
  {
    hide AfterAll, CounterFamilies, HistogramFamilies, Render, ParseExposition, AllSamples, IsName, HelpOf, p.Valid;
    var r := Now(buckets, counterNames, histogramNames, events);
    HistoryKeysAreNamed(buckets, Registered(Names(counterNames), Names(histogramNames)), events);
    RegistryReadsBack(p, help, r.counters, counterNames, r.histograms, histogramNames);
  }

  /** Main result about counters. Whatever calls were made, in any order and for any families and label
      sets: a scraper finds a whole number for a label set of a counter exactly when some call incremented
      it and the increments of that label set alone add up to that number. */
  lemma CountersReadBack(p: Printer, help: map<string, string>, buckets: seq<real>, counterNames: seq<string>,
                         histogramNames: seq<string>, events: seq<Event>, name: string, key: LabelKey, n: int)
    requires p.Valid() && Nameable(help, counterNames, histogramNames, events) && Apart(counterNames, histogramNames)
    requires name in counterNames
    ensures var read, own := Scraped(p, help, buckets, counterNames, histogramNames, events),
      IncrementsOf(events, name);
      read.Some? && (Sample(name, key, FormatInt(n)) in read.value <==>
                       (exists i :: 0 <= i < |own| && own[i].key == key) && TotalFor(own, key) == n as real)
  {
    hide AfterAll, CounterFamilies, HistogramFamilies, CounterFamily, AllSamples, FormatInt, IsName, HelpOf, p.Valid,
      Scraped;
    var r, s := Now(buckets, counterNames, histogramNames, events), Sample(name, key, FormatInt(n));
    ScrapedIs(p, help, buckets, counterNames, histogramNames, events);
    CounterSampleIn(p, help, r.counters, counterNames, s);
    NotAHistogram(p, help, r.histograms, counterNames, histogramNames, s);
    CountersOfHistory(buckets, Names(counterNames), Names(histogramNames), events, name);
    CountersAddUp(IncrementsOf(events, name), key);
    CountsAreRecovered(p, help, name, r.counters[name], key, n);
  }

  lemma {:induction false} NotAHistogram(p: Printer, help: map<string, string>,
                                         histograms: map<string, map<LabelKey, Histogram>>, counterNames: seq<string>,
                                         histogramNames: seq<string>, s: Sample)
    requires p.Valid() && forall i | 0 <= i < |histogramNames| ::
      histogramNames[i] in histograms && WellShaped(histograms[histogramNames[i]])
    requires Apart(counterNames, histogramNames) && s.name in counterNames
    ensures s !in AllSamples(HistogramFamilies(p, help, histograms, histogramNames))
  {
    hide AllHistogramSamples, p.Valid, WellShaped;
    if histogramNames != [] {
      var name := histogramNames[0];
      var family := histograms[name];
      assert forall h | h in histogramNames[1..] :: h in histogramNames;
      NotAHistogram(p, help, histograms, counterNames, histogramNames[1..], s);
      NotSuffixed(counterNames, histogramNames, name, s);
      if s in HistogramFamily(p, help, name, family).samples {
        SortedAreKeys(p, family);
        KeysWellShaped(p, family);
        HistogramSampleNames(p, name, family, p.sort(family.Keys), s);
      }
    }
  }

  lemma NotSuffixed(counterNames: seq<string>, histogramNames: seq<string>, name: string, s: Sample)
    requires Apart(counterNames, histogramNames) && s.name in counterNames && name in histogramNames
    ensures !Suffixed(s, name)
  {
  }

  lemma KeysWellShaped(p: Printer, family: map<LabelKey, Histogram>)
    requires p.Valid() && WellShaped(family)
    ensures var keys := p.sort(family.Keys);
      forall i | 0 <= i < |keys| :: keys[i] in family && |family[keys[i]].bounds| == |family[keys[i]].counts|
  {
    SortedAreKeys(p, family);
  }

  /** Main result about histograms. Whatever calls were made: a scraper finds a number on the line of a
      bound exactly when the label set was observed and that many of its observations do not exceed the
      bound, on its count line exactly the number of its observations, and on its sum line exactly their
      sum as it is printed, a whole number only if it is that number. */
  lemma HistogramsReadBack(p: Printer, help: map<string, string>, buckets: seq<real>, counterNames: seq<string>,
                           histogramNames: seq<string>, events: seq<Event>, name: string, key: LabelKey, i: nat, n: int)
    requires p.Valid() && Nameable(help, counterNames, histogramNames, events) && Apart(counterNames, histogramNames)
    requires name in histogramNames && i < |buckets| && PrintApart(p, buckets)
    ensures var read, values := Scraped(p, help, buckets, counterNames, histogramNames, events),
      ValuesOf(events, name, key);
      && read.Some?
      && (Sample(name + "_bucket", key + [Label("le", p.FormatNumber(buckets[i]))], FormatInt(n)) in read.value <==>
            values != [] && AtMost(values, buckets[i]) == n)
      && (Sample(name + "_count", key, FormatInt(n)) in read.value <==> values != [] && |values| == n)
      && (forall text :: Sample(name + "_sum", key, text) in read.value <==>
            values != [] && text == p.FormatNumber(Sum(values)))
      && (Sample(name + "_sum", key, FormatInt(n)) in read.value <==> values != [] && Sum(values) == n as real)
  {
    hide AfterAll, Scraped, FormatInt, p.Valid, p.FormatNumber, PrintApart, ObservedAll, HelpOf, IsName;
    var r, values := Now(buckets, counterNames, histogramNames, events), ValuesOf(events, name, key);
    var family := r.histograms[name];
    var bucket := Sample(name + "_bucket", key + [Label("le", p.FormatNumber(buckets[i]))], FormatInt(n));
    HistogramsOfHistory(buckets, Names(counterNames), Names(histogramNames), events, name, key);
    BucketsCountObservations(buckets, values);
    LineReadsBack(p, help, buckets, counterNames, histogramNames, events, name, key, i, FormatInt(n));
    forall text: string
      ensures var read := Scraped(p, help, buckets, counterNames, histogramNames, events);
        read.Some? && (Sample(name + "_sum", key, text) in read.value <==>
                         key in family && text == p.FormatNumber(family[key].sum))
    {
      LineReadsBack(p, help, buckets, counterNames, histogramNames, events, name, key, i, text);
    }
    WholeNumbersTell(p, Sum(values), n);
    if key in family {
      IntRoundTrip(n);
      IntRoundTrip(family[key].counts[i]);
      IntRoundTrip(family[key].count);
    }
  }

  /** Which lines of a histogram a scraper finds: those the registry holds. */
  lemma LineReadsBack(p: Printer, help: map<string, string>, buckets: seq<real>, counterNames: seq<string>,
                      histogramNames: seq<string>, events: seq<Event>, name: string, key: LabelKey, i: nat,
                        text: string)
    requires p.Valid() && Nameable(help, counterNames, histogramNames, events) && Apart(counterNames, histogramNames)
    requires name in histogramNames && i < |buckets| && PrintApart(p, buckets)
    ensures var read := Scraped(p, help, buckets, counterNames, histogramNames, events);
      var family := Now(buckets, counterNames, histogramNames, events).histograms[name];
      && read.Some?
      && (key in family ==> |family[key].counts| == |family[key].bounds| == |buckets|)
      && (Sample(name + "_bucket", key + [Label("le", p.FormatNumber(buckets[i]))], text) in read.value <==>
            key in family && text == FormatInt(family[key].counts[i]))
      && (Sample(name + "_count", key, text) in read.value <==> key in family && text == FormatInt(family[key].count))
      && (Sample(name + "_sum", key, text) in read.value <==> key in family && text == p.FormatNumber(family[key].sum))
  {
    hide AfterAll, CounterFamilies, HistogramFamilies, AllHistogramSamples, AllSamples, FormatInt, IsName, HelpOf,
      p.Valid, p.FormatNumber, Scraped, PrintApart;
    var r := Now(buckets, counterNames, histogramNames, events);
    var family := r.histograms[name];
    var keys := p.sort(family.Keys);
    var bucket := Sample(name + "_bucket", key + [Label("le", p.FormatNumber(buckets[i]))], text);
    ScrapedIs(p, help, buckets, counterNames, histogramNames, events);
    HistogramLineIn(p, help, r, counterNames, histogramNames, name, 0, bucket);
    HistogramLineIn(p, help, r, counterNames, histogramNames, name, 1, Sample(name + "_sum", key, text));
    HistogramLineIn(p, help, r, counterNames, histogramNames, name, 2, Sample(name + "_count", key, text));
    KeysWellShaped(p, family);
    BoundsOfKeys(p, buckets, counterNames, histogramNames, events, name);
    HistogramFamilyLines(p, name, family, keys, buckets, key, i, text);
    SortedHolds(p, family, key);
    if key in family {
      var j :| 0 <= j < |keys| && keys[j] == key;
    }
  }

  /** A sample with the name of a histogram line is in the text if and only if it is in that histogram. */
  lemma HistogramLineIn(p: Printer, help: map<string, string>, r: Recorded, counterNames: seq<string>,
                        histogramNames: seq<string>, name: string, i: nat, s: Sample)
    requires p.Valid() && AllWellShaped(r.histograms)
    requires r.counters.Keys == Names(counterNames) && r.histograms.Keys == Names(histogramNames)
    requires Apart(counterNames, histogramNames) && name in histogramNames && i < 3 && s.name == name + SUFFIXES[i]
    ensures s in AllSamples(CounterFamilies(p, help, r.counters, counterNames))
                 + AllSamples(HistogramFamilies(p, help, r.histograms, histogramNames))
      <==> s in HistogramFamily(p, help, name, r.histograms[name]).samples
  {
    hide CounterFamilies, HistogramFamilies, HistogramFamily, AllSamples, p.Valid;
    HistogramSampleIn(p, help, r.histograms, histogramNames, name, i, s);
    NotACounter(p, help, r.counters, counterNames, histogramNames, name, i, s);
  }

  lemma SortedHolds<V>(p: Printer, family: map<LabelKey, V>, key: LabelKey)
    requires p.Valid()
    ensures key in p.sort(family.Keys) <==> key in family
  {
  }

  lemma NotACounter(p: Printer, help: map<string, string>, counters: map<string, Counters>, counterNames: seq<string>,
                    histogramNames: seq<string>, name: string, i: nat, s: Sample)
    requires p.Valid() && forall j | 0 <= j < |counterNames| :: counterNames[j] in counters
    requires Apart(counterNames, histogramNames) && name in histogramNames && i < 3 && s.name == name + SUFFIXES[i]
    ensures s !in AllSamples(CounterFamilies(p, help, counters, counterNames))
  {
    hide CounterFamilies, CounterFamily, AllSamples, p.Valid;
    CounterSampleIn(p, help, counters, counterNames, s);
  }

  lemma BoundsOfKeys(p: Printer, buckets: seq<real>, counterNames: seq<string>, histogramNames: seq<string>,
                     events: seq<Event>, name: string)
    requires p.Valid() && name in histogramNames
    ensures var family := Now(buckets, counterNames, histogramNames, events).histograms[name];
      var keys := p.sort(family.Keys);
      forall i | 0 <= i < |keys| :: keys[i] in family && family[keys[i]].bounds == buckets
  {
    hide AfterAll;
    HistoryKeepsBounds(buckets, Registered(Names(counterNames), Names(histogramNames)), events);
    SortedAreKeys(p, Now(buckets, counterNames, histogramNames, events).histograms[name]);
  }

  // ---- such printers exist

  ghost function Listed(keys: set<LabelKey>): seq<LabelKey> {
    if keys == {} then []
    else
      var key :| key in keys;
      [key] + Listed(keys - {key})
  }

  lemma {:induction false} ListedOnce(keys: set<LabelKey>)
    ensures Distinct(Listed(keys)) && forall key :: key in Listed(keys) <==> key in keys
  {
    if keys != {} {
      var key := Listed(keys)[0];
      ListedOnce(keys - {key});
      DistinctCons(key, Listed(keys - {key}));
    }
  }

  lemma PrinterExists()
    ensures exists p: Printer :: p.Valid()
  {
    var p := Printer(keys => Listed(keys), _ => "nan");
    forall keys
      ensures Distinct(p.sort(keys)) && forall key :: key in p.sort(keys) <==> key in keys
    {
      ListedOnce(keys);
    }
    NanIsNoNumber();
    assert p.Valid();
  }

  lemma NanIsNoNumber()
    ensures ParseInt("nan").None?
  {
    assert DigitValue('n').None?;
  }

  // ---- how the families are introduced

  ghost predicate IntroducedIn(lines: seq<string>, name: string, help: string, kind: string) {
    exists k :: 0 < k < |lines| && lines[k - 1] == "# HELP " + name + " " + help
      && lines[k] == "# TYPE " + name + " " + kind
  }

  lemma {:induction false} CounterFamilyAt(p: Printer, help: map<string, string>, counters: map<string, Counters>,
                                           names: seq<string>, i: nat)
    requires p.Valid() && i < |names| && forall k | 0 <= k < |names| :: names[k] in counters
    ensures var families := CounterFamilies(p, help, counters, names);
      |families| == |names| && families[i] == CounterFamily(p, help, names[i], counters[names[i]])
  {
    hide CounterFamily;
    if |names| > 1 {
      CounterFamilyAt(p, help, counters, names[1..], if i == 0 then 0 else i - 1);
    }
  }

  lemma {:induction false} HistogramFamilyAt(p: Printer, help: map<string, string>,
      histograms: map<string, map<LabelKey, Histogram>>, names: seq<string>, i: nat)
    requires p.Valid() && i < |names|
    requires forall k | 0 <= k < |names| :: names[k] in histograms && WellShaped(histograms[names[k]])
    ensures var families := HistogramFamilies(p, help, histograms, names);
      |families| == |names| && families[i] == HistogramFamily(p, help, names[i], histograms[names[i]])
  {
    hide HistogramFamily, WellShaped;
    if |names| > 1 {
      HistogramFamilyAt(p, help, histograms, names[1..], if i == 0 then 0 else i - 1);
    }
  }

  /** Whatever calls were made, each family is introduced by its own help text and its type. */
  lemma FamiliesAreNamed(p: Printer, help: map<string, string>, buckets: seq<real>, counterNames: seq<string>,
                         histogramNames: seq<string>, events: seq<Event>, name: string)
    requires p.Valid() && Nameable(help, counterNames, histogramNames, events) && name in help
    ensures var now := Now(buckets, counterNames, histogramNames, events);
      var lines := Lines(Render(AllFamilies(p, help, counterNames, histogramNames, now)));
      && (name in counterNames ==> IntroducedIn(lines, name, help[name], "counter"))
      && (name in histogramNames ==> IntroducedIn(lines, name, help[name], "histogram"))
  {
    hide AfterAll, CounterFamilies, HistogramFamilies, Render, Lines, p.Valid, IsName, ValidFamily, AllHistogramSamples,
      CounterSamples, WellShaped, SampleLine;
    var r := Now(buckets, counterNames, histogramNames, events);
    var c := CounterFamilies(p, help, r.counters, counterNames);
    var h := HistogramFamilies(p, help, r.histograms, histogramNames);
    HistoryKeysAreNamed(buckets, Registered(Names(counterNames), Names(histogramNames)), events);
    CounterFamiliesAreValid(p, help, r.counters, counterNames);
    HistogramFamiliesAreValid(p, help, r.histograms, histogramNames);
    if name in counterNames {
      var i :| 0 <= i < |counterNames| && counterNames[i] == name;
      CounterFamilyAt(p, help, r.counters, counterNames, i);
      assert (c + h)[i] == c[i];
      var j := FamiliesAreIntroduced(c + h, i);
      assert j + 1 > 0;
    }
    if name in histogramNames {
      var i :| 0 <= i < |histogramNames| && histogramNames[i] == name;
      HistogramFamilyAt(p, help, r.histograms, histogramNames, i);
      assert (c + h)[|c| + i] == h[i];
      var j := FamiliesAreIntroduced(c + h, |c| + i);
      assert j + 1 > 0;
    }
  }
}
