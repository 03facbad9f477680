/** The metrics registry: counters and histograms per label set, and the text they are rendered to. The
    registry and its histograms are objects that are updated in place; what they hold after any calls, and
    what their text reads back as, is stated on values. Numbers are reals; only whole ones are printed here,
    the others by a parameter. */
module Metrics {
  import opened Common
  import opened Exposition

  /** A label set in its canonical order. */
  type LabelKey = seq<Label>

  // ---- histograms

  /** The state of one histogram: `counts[i]` belongs to `bounds[i]`. */
  datatype Histogram = Histogram(bounds: seq<real>, counts: seq<nat>, sum: real, count: nat)

  function Fresh(bounds: seq<real>): Histogram {
    Histogram(bounds, seq(|bounds|, _ => 0), 0.0, 0)
  }

  /** One more observation: it counts in every bucket whose bound it does not exceed. */
  function Observed(h: Histogram, value: real): Histogram
    requires |h.counts| == |h.bounds|
  {
    Histogram(h.bounds,
              seq(|h.bounds|, i requires 0 <= i < |h.bounds| => h.counts[i] + if value <= h.bounds[i] then 1 else 0),
              h.sum + value, h.count + 1)
  }

  class HistogramValue {
    const bounds: seq<real>
    const counts: array<nat>
    var sum: real
    var count: nat

    ghost predicate Valid()
      reads this, counts
    {
      counts.Length == |bounds|
    }

    ghost function State(): Histogram
      reads this, counts
    {
      Histogram(bounds, counts[..], sum, count)
    }

    constructor (bounds: seq<real>)
      ensures Valid() && fresh(counts) && State() == Fresh(bounds)
    {
      this.bounds := bounds;
      counts := new nat[|bounds|](_ => 0);
      sum, count := 0.0, 0;
    }

    method Observe(value: real)
      requires Valid()
      modifies this, counts
      ensures Valid() && State() == Observed(old(State()), value)
    {
      count := count + 1;
      sum := sum + value;
      for i := 0 to |bounds|
        invariant count == old(count) + 1 && sum == old(sum) + value
        invariant forall j | 0 <= j < i :: counts[j] == old(counts[j]) + if value <= bounds[j] then 1 else 0
        invariant forall j | i <= j < |bounds| :: counts[j] == old(counts[j])
      {
        if value <= bounds[i] {
          counts[i] := counts[i] + 1;
        }
      }
    }
  }

  function AtMost(values: seq<real>, bound: real): nat {
    if values == [] then 0 else AtMost(values[..|values| - 1], bound) + if values[|values| - 1] <= bound then 1 else 0
  }

  function Sum(values: seq<real>): real {
    if values == [] then 0.0 else Sum(values[..|values| - 1]) + values[|values| - 1]
  }

  /** The state after some observations. */
  function ObservedAll(bounds: seq<real>, values: seq<real>): (h: Histogram)
    ensures h.bounds == bounds && |h.counts| == |bounds|
  {
    if values == [] then Fresh(bounds)
    else Observed(ObservedAll(bounds, values[..|values| - 1]), values[|values| - 1])
  }

  /** Main result about histograms. In every reachable state each bucket equals the number of
      observations at or below its bound, so that the buckets never decrease and never exceed the
      total. */
  lemma {:induction false} BucketsCountObservations(bounds: seq<real>, values: seq<real>)
    ensures var h := ObservedAll(bounds, values);
      && h.count == |values| && h.sum == Sum(values)
      && (forall i | 0 <= i < |bounds| :: h.counts[i] == AtMost(values, bounds[i]) <= h.count)
      && (forall i, j | 0 <= i < j < |bounds| && bounds[i] <= bounds[j] :: h.counts[i] <= h.counts[j])
  {
    if values != [] {
      BucketsCountObservations(bounds, values[..|values| - 1]);
    }
  }

  // ---- the registry

  type Counters = map<LabelKey, real>

  function Incremented(family: Counters, key: LabelKey, amount: real): Counters {
    family[key := (if key in family then family[key] else 0.0) + amount]
  }

  datatype Increment = Increment(key: LabelKey, amount: real)

  function IncrementedAll(increments: seq<Increment>): Counters {
    if increments == [] then map[]
    else
      var last := increments[|increments| - 1];
      Incremented(IncrementedAll(increments[..|increments| - 1]), last.key, last.amount)
  }

  function TotalFor(increments: seq<Increment>, key: LabelKey): real {
    if increments == [] then 0.0
    else
      var last := increments[|increments| - 1];
      TotalFor(increments[..|increments| - 1], key) + if last.key == key then last.amount else 0.0
  }

  /** Each label set's counter is the total of its own increments. */
  lemma {:induction false} CountersAddUp(increments: seq<Increment>, key: LabelKey)
    ensures var family := IncrementedAll(increments);
      && (key in family <==> exists i | 0 <= i < |increments| :: increments[i].key == key)
      && (key in family ==> family[key] == TotalFor(increments, key))
      && (key !in family ==> TotalFor(increments, key) == 0.0)
  {
    if increments != [] {
      var last := |increments| - 1;
      var init := increments[..last];
      CountersAddUp(init, key);
      assert forall i | 0 <= i < last :: init[i] == increments[i];
      if i :| 0 <= i < |increments| && increments[i].key == key {
        assert i < last ==> init[i].key == key;
      }
    }
  }

  /** Everything the registry has recorded, by family. */
  datatype Recorded = Recorded(counters: map<string, Counters>, histograms: map<string, map<LabelKey, Histogram>>)

  ghost predicate WellShaped(family: map<LabelKey, Histogram>) {
    forall key | key in family :: |family[key].bounds| == |family[key].counts|
  }

  ghost predicate AllWellShaped(histograms: map<string, map<LabelKey, Histogram>>) {
    forall name | name in histograms :: WellShaped(histograms[name])
  }

  function ObservedIn(buckets: seq<real>, family: map<LabelKey, Histogram>, key: LabelKey,
                      value: real): map<LabelKey, Histogram>
    requires WellShaped(family)
  {
    family[key := Observed(if key in family then family[key] else Fresh(buckets), value)]
  }

  datatype Event = Inc(name: string, key: LabelKey, amount: real) | Obs(name: string, key: LabelKey, value: real)

  /** What one call records: nothing when its family is not registered. */
  function After(buckets: seq<real>, r: Recorded, event: Event): (now: Recorded)
    requires AllWellShaped(r.histograms)
    ensures AllWellShaped(now.histograms)
    ensures now.counters.Keys == r.counters.Keys && now.histograms.Keys == r.histograms.Keys
  {
    match event
    case Inc(name, key, amount) =>
      if name in r.counters then r.(counters := r.counters[name := Incremented(r.counters[name], key, amount)]) else r
    case Obs(name, key, value) =>
      if name in r.histograms then
        r.(histograms := r.histograms[name := ObservedIn(buckets, r.histograms[name], key, value)])
      else r
  }

  class MetricsRegistry {
    const buckets: seq<real>
    const help: map<string, string>
    var counters: map<string, Counters>
    var histograms: map<string, map<LabelKey, Histogram>>

    constructor (buckets: seq<real>, help: map<string, string>, counterNames: set<string>, histogramNames: set<string>)
      ensures this.buckets == buckets && this.help == help
      ensures counters.Keys == counterNames && histograms.Keys == histogramNames
      ensures (forall name | name in counters :: counters[name] == map[])
        && forall name | name in histograms :: histograms[name] == map[]
    {
      this.buckets, this.help := buckets, help;
      counters := map name | name in counterNames :: map[];
      histograms := map name | name in histogramNames :: map[];
    }

    ghost function State(): Recorded
      reads this
    {
      Recorded(counters, histograms)
    }

    /** Unregistered names are refused and change nothing. */
    method IncCounter(name: string, key: LabelKey, amount: real) returns (ok: bool)
      requires AllWellShaped(histograms)
      modifies this`counters
      ensures ok <==> name in old(counters)
      ensures State() == After(buckets, old(State()), Inc(name, key, amount))
    {
      if name !in counters {
        return false;
      }
      counters := counters[name := Incremented(counters[name], key, amount)];
      return true;
    }

    method ObserveIn(name: string, key: LabelKey, value: real) returns (ok: bool)
      requires AllWellShaped(histograms)
      modifies this`histograms
      ensures ok <==> name in old(histograms)
      ensures State() == After(buckets, old(State()), Obs(name, key, value))
    {
      if name !in histograms {
        return false;
      }
      histograms := histograms[name := ObservedIn(buckets, histograms[name], key, value)];
      return true;
    }
  }

  // ---- rendering

  /** How label sets are sorted, and how a number that is not whole is printed. */
  datatype Printer = Printer(sort: set<LabelKey> -> seq<LabelKey>, repr: real -> string) {
    ghost predicate Valid() {
      && (forall keys :: Distinct(sort(keys)) && forall key :: key in sort(keys) <==> key in keys)
      && (forall x :: '\n' !in repr(x))
      && (forall x: real | x != x.Floor as real :: ParseInt(repr(x)).None?)
    }

    /** Whole numbers without a decimal point. */
    function FormatNumber(x: real): string {
      if x == x.Floor as real then FormatInt(x.Floor) else repr(x)
    }
  }

  /** A number is printed as a whole one only if it is that one. */
  lemma WholeNumbersTell(p: Printer, x: real, n: int)
    requires p.Valid()
    ensures p.FormatNumber(x) == FormatInt(n) <==> x == n as real
  {
    hide FormatInt, ParseInt;
    IntRoundTrip(n);
    IntRoundTrip(x.Floor);
  }

  lemma NumberHasNoBreak(p: Printer, x: real)
    requires p.Valid()
    ensures '\n' !in p.FormatNumber(x)
  {
    hide FormatInt;
    IntRoundTrip(x.Floor);
  }

  function CounterSamples(p: Printer, name: string, family: Counters, keys: seq<LabelKey>): seq<Sample>
    requires forall i | 0 <= i < |keys| :: keys[i] in family
  {
    if keys == [] then []
    else [Sample(name, keys[0], p.FormatNumber(family[keys[0]]))] + CounterSamples(p, name, family, keys[1..])
  }

  function BucketSamples(p: Printer, name: string, key: LabelKey, h: Histogram, i: nat): seq<Sample>
    requires i <= |h.bounds| == |h.counts|
  {
    if i == 0 then []
    else
      BucketSamples(p, name, key, h, i - 1)
        + [Sample(name + "_bucket", key + [Label("le", p.FormatNumber(h.bounds[i - 1]))], FormatInt(h.counts[i - 1]))]
  }

  function HistogramSamples(p: Printer, name: string, key: LabelKey, h: Histogram): seq<Sample>
    requires |h.bounds| == |h.counts|
  {
    BucketSamples(p, name, key, h, |h.bounds|)
      + [Sample(name + "_bucket", key + [Label("le", "+Inf")], FormatInt(h.count)),
         Sample(name + "_sum", key, p.FormatNumber(h.sum)),
         Sample(name + "_count", key, FormatInt(h.count))]
  }

  function AllHistogramSamples(p: Printer, name: string, family: map<LabelKey, Histogram>,
                               keys: seq<LabelKey>): seq<Sample>
    requires forall i | 0 <= i < |keys| :: keys[i] in family && |family[keys[i]].bounds| == |family[keys[i]].counts|
  {
    if keys == [] then []
    else HistogramSamples(p, name, keys[0], family[keys[0]]) + AllHistogramSamples(p, name, family, keys[1..])
  }

  // ---- reading it back

  ghost predicate NamedKeys(keys: set<LabelKey>) {
    forall key | key in keys :: AllNamed(key)
  }

  function HelpOf(help: map<string, string>, name: string): string {
    if name in help then help[name] else ""
  }

  lemma SortedAreKeys<V>(p: Printer, family: map<LabelKey, V>)
    requires p.Valid()
    ensures forall i | 0 <= i < |p.sort(family.Keys)| :: p.sort(family.Keys)[i] in family
  {
    var keys := p.sort(family.Keys);
    forall i | 0 <= i < |keys|
      ensures keys[i] in family
    {
      assert keys[i] in keys;
    }
  }

  ghost function CounterFamily(p: Printer, help: map<string, string>, name: string, family: Counters): Family
    requires p.Valid()
  {
    SortedAreKeys(p, family);
    Family(name, "counter", HelpOf(help, name), CounterSamples(p, name, family, p.sort(family.Keys)))
  }

  ghost function HistogramFamily(p: Printer, help: map<string, string>, name: string,
                                 family: map<LabelKey, Histogram>): Family
    requires p.Valid() && WellShaped(family)
  {
    SortedAreKeys(p, family);
    Family(name, "histogram", HelpOf(help, name), AllHistogramSamples(p, name, family, p.sort(family.Keys)))
  }

  ghost function CounterFamilies(p: Printer, help: map<string, string>, counters: map<string, Counters>,
                                 names: seq<string>): seq<Family>
    requires p.Valid() && forall i | 0 <= i < |names| :: names[i] in counters
  {
    if names == [] then []
    else [CounterFamily(p, help, names[0], counters[names[0]])] + CounterFamilies(p, help, counters, names[1..])
  }

  ghost function HistogramFamilies(p: Printer, help: map<string, string>,
      histograms: map<string, map<LabelKey, Histogram>>, names: seq<string>): seq<Family>
    requires p.Valid() && forall i | 0 <= i < |names| :: names[i] in histograms && WellShaped(histograms[names[i]])
  {
    if names == [] then []
    else [HistogramFamily(p, help, names[0], histograms[names[0]])] + HistogramFamilies(p, help, histograms, names[1..])
  }

  ghost predicate AllValid(samples: seq<Sample>) {
    forall i | 0 <= i < |samples| :: ValidSample(samples[i])
  }

  ghost predicate AllValidFamilies(families: seq<Family>) {
    forall i | 0 <= i < |families| :: ValidFamily(families[i])
  }

  lemma SuffixedName(name: string, suffix: string)
    requires IsName(name) && suffix in {"_bucket", "_sum", "_count"}
    ensures IsName(name + suffix)
  {
    assert NameChar('_') && NameChar('b') && NameChar('u') && NameChar('c') && NameChar('k') && NameChar('e')
      && NameChar('t');
    assert NameChar('s') && NameChar('m') && NameChar('o') && NameChar('n');
  }

  lemma WithBound(key: LabelKey, value: string)
    requires AllNamed(key)
    ensures AllNamed(key + [Label("le", value)])
  {
    assert NameChar('l') && NameChar('e');
  }

  lemma {:induction false} CounterSamplesAreValid(p: Printer, name: string, family: Counters, keys: seq<LabelKey>)
    requires p.Valid() && IsName(name) && forall i | 0 <= i < |keys| :: keys[i] in family && AllNamed(keys[i])
    ensures AllValid(CounterSamples(p, name, family, keys))
  {
    hide IsName;
    if keys != [] {
      NumberHasNoBreak(p, family[keys[0]]);
      CounterSamplesAreValid(p, name, family, keys[1..]);
    }
  }

  lemma {:induction false} BucketSamplesAreValid(p: Printer, name: string, key: LabelKey, h: Histogram, i: nat)
    requires p.Valid() && IsName(name) && AllNamed(key) && i <= |h.bounds| == |h.counts|
    ensures AllValid(BucketSamples(p, name, key, h, i))
  {
    hide IsName, FormatInt, AllNamed;
    if i > 0 {
      BucketSamplesAreValid(p, name, key, h, i - 1);
      SuffixedName(name, "_bucket");
      WithBound(key, p.FormatNumber(h.bounds[i - 1]));
      IntRoundTrip(h.counts[i - 1]);
      ValidOne(name + "_bucket", key + [Label("le", p.FormatNumber(h.bounds[i - 1]))], FormatInt(h.counts[i - 1]));
    }
  }

  lemma ValidOne(name: string, labels: LabelKey, value: string)
    requires IsName(name) && AllNamed(labels) && '\n' !in value
    ensures ValidSample(Sample(name, labels, value))
  {
  }

  lemma HistogramSamplesAreValid(p: Printer, name: string, key: LabelKey, h: Histogram)
    requires p.Valid() && IsName(name) && AllNamed(key) && |h.bounds| == |h.counts|
    ensures AllValid(HistogramSamples(p, name, key, h))
  {
    hide IsName, FormatInt, AllNamed, ValidSample, BucketSamples;
    BucketSamplesAreValid(p, name, key, h, |h.bounds|);
    SuffixedName(name, "_bucket");
    SuffixedName(name, "_sum");
    SuffixedName(name, "_count");
    WithBound(key, "+Inf");
    IntRoundTrip(h.count);
    NumberHasNoBreak(p, h.sum);
    ValidOne(name + "_bucket", key + [Label("le", "+Inf")], FormatInt(h.count));
    ValidOne(name + "_sum", key, p.FormatNumber(h.sum));
    ValidOne(name + "_count", key, FormatInt(h.count));
  }

  lemma {:induction false} AllHistogramSamplesAreValid(p: Printer, name: string, family: map<LabelKey, Histogram>,
      keys: seq<LabelKey>)
    requires p.Valid() && IsName(name)
    requires forall i | 0 <= i < |keys| ::
      keys[i] in family && AllNamed(keys[i]) && |family[keys[i]].bounds| == |family[keys[i]].counts|
    ensures AllValid(AllHistogramSamples(p, name, family, keys))
  {
    hide IsName, AllNamed, ValidSample, HistogramSamples;
    if keys != [] {
      HistogramSamplesAreValid(p, name, keys[0], family[keys[0]]);
      AllHistogramSamplesAreValid(p, name, family, keys[1..]);
    }
  }

  lemma FamiliesAreValid(p: Printer, help: map<string, string>, name: string, counters: Counters,
                         histograms: map<LabelKey, Histogram>)
    requires p.Valid() && IsName(name) && '\n' !in HelpOf(help, name)
    ensures NamedKeys(counters.Keys) ==> ValidFamily(CounterFamily(p, help, name, counters))
    ensures NamedKeys(histograms.Keys) && WellShaped(histograms) ==>
      ValidFamily(HistogramFamily(p, help, name, histograms))
  {
    hide ValidSample, CounterSamples, AllHistogramSamples, HelpOf;
    NamesHaveNoBreaks(name);
    if NamedKeys(counters.Keys) {
      SortedAreKeys(p, counters);
      CounterSamplesAreValid(p, name, counters, p.sort(counters.Keys));
    }
    if NamedKeys(histograms.Keys) && WellShaped(histograms) {
      SortedAreKeys(p, histograms);
      AllHistogramSamplesAreValid(p, name, histograms, p.sort(histograms.Keys));
    }
  }

  /** The names and labels the format asks for. */
  ghost predicate Renderable(help: map<string, string>, counters: map<string, Counters>, counterNames: seq<string>,
                             histograms: map<string, map<LabelKey, Histogram>>, histogramNames: seq<string>) {
    && (forall i | 0 <= i < |counterNames| ::
          counterNames[i] in counters && IsName(counterNames[i]) && '\n' !in HelpOf(help, counterNames[i])
          && NamedKeys(counters[counterNames[i]].Keys))
    && (forall i | 0 <= i < |histogramNames| ::
          histogramNames[i] in histograms && IsName(histogramNames[i]) && '\n' !in HelpOf(help, histogramNames[i])
          && NamedKeys(histograms[histogramNames[i]].Keys) && WellShaped(histograms[histogramNames[i]]))
  }

  lemma {:induction false} CounterFamiliesAreValid(p: Printer, help: map<string, string>,
      counters: map<string, Counters>, names: seq<string>)
    requires p.Valid() && Renderable(help, counters, names, map[], [])
    ensures AllValidFamilies(CounterFamilies(p, help, counters, names))
  {
    hide ValidFamily, CounterFamily, IsName, HelpOf;
    if names != [] {
      FamiliesAreValid(p, help, names[0], counters[names[0]], map[]);
      CounterFamiliesAreValid(p, help, counters, names[1..]);
    }
  }

  lemma {:induction false} HistogramFamiliesAreValid(p: Printer, help: map<string, string>,
      histograms: map<string, map<LabelKey, Histogram>>, names: seq<string>)
    requires p.Valid() && Renderable(help, map[], [], histograms, names)
    ensures AllValidFamilies(HistogramFamilies(p, help, histograms, names))
  {
    hide ValidFamily, HistogramFamily, IsName, HelpOf;
    if names != [] {
      FamiliesAreValid(p, help, names[0], map[], histograms[names[0]]);
      HistogramFamiliesAreValid(p, help, histograms, names[1..]);
    }
  }

  /** Main result about rendering: the text of the whole registry, counters first, reads back as exactly
      its samples. */
  lemma RegistryReadsBack(p: Printer, help: map<string, string>, counters: map<string, Counters>,
                          counterNames: seq<string>, histograms: map<string, map<LabelKey, Histogram>>,
                          histogramNames: seq<string>)
    requires p.Valid() && Renderable(help, counters, counterNames, histograms, histogramNames)
    ensures var c, h := CounterFamilies(p, help, counters, counterNames),
      HistogramFamilies(p, help, histograms, histogramNames);
      ParseExposition(Render(c + h)) == Some(AllSamples(c) + AllSamples(h))
  {
    hide ValidFamily, CounterFamilies, HistogramFamilies, Render, ParseExposition, AllSamples;
    CounterFamiliesAreValid(p, help, counters, counterNames);
    HistogramFamiliesAreValid(p, help, histograms, histogramNames);
    var c, h := CounterFamilies(p, help, counters, counterNames),
      HistogramFamilies(p, help, histograms, histogramNames);
    ExpositionRoundTrip(c + h);
    SamplesConcat(c, h);
  }

  lemma {:induction false} SamplesConcat(a: seq<Family>, b: seq<Family>)
    ensures AllSamples(a + b) == AllSamples(a) + AllSamples(b)
  {
    if a == [] {
      assert a + b == b;
    } else {
      assert (a + b)[1..] == a[1..] + b;
      SamplesConcat(a[1..], b);
      assert a[0].samples + (AllSamples(a[1..]) + AllSamples(b)) == a[0].samples + AllSamples(a[1..]) + AllSamples(b);
    }
  }

  /** And the counters can be recovered from those samples: a label set is listed with a whole number
      exactly when that is its count. */
  lemma CountsAreRecovered(p: Printer, help: map<string, string>, name: string, family: Counters, key: LabelKey, n: int)
    requires p.Valid()
    ensures var samples := CounterFamily(p, help, name, family).samples;
      Sample(name, key, FormatInt(n)) in samples <==> key in family && family[key] == n as real
  {
    hide FormatInt, HelpOf;
    SortedAreKeys(p, family);
    var keys := p.sort(family.Keys);
    CounterSamplesHold(p, name, family, keys, key, FormatInt(n));
    if key in family {
      WholeNumbersTell(p, family[key], n);
    }
  }

  lemma {:induction false} CounterSamplesHold(p: Printer, name: string, family: Counters, keys: seq<LabelKey>,
                                              key: LabelKey, value: string)
    requires forall i | 0 <= i < |keys| :: keys[i] in family
    ensures Sample(name, key, value) in CounterSamples(p, name, family, keys) <==>
      key in keys && p.FormatNumber(family[key]) == value
  {
    hide FormatInt;
    if keys != [] {
      CounterSamplesHold(p, name, family, keys[1..], key, value);
      assert keys == [keys[0]] + keys[1..];
    }
  }

  lemma {:induction false} BucketSampleAt(p: Printer, name: string, key: LabelKey, h: Histogram, n: nat, i: nat)
    requires i < n <= |h.bounds| == |h.counts|
    ensures |BucketSamples(p, name, key, h, n)| == n
    ensures BucketSamples(p, name, key, h, n)[i]
         == Sample(name + "_bucket", key + [Label("le", p.FormatNumber(h.bounds[i]))], FormatInt(h.counts[i]))
  {
    hide FormatInt;
    if n > 1 {
      BucketSampleAt(p, name, key, h, n - 1, if i < n - 1 then i else 0);
    }
  }

  /** From observation to text and back: the bucket lines of a histogram read, bound by bound, as the
      number of observations at or below it, and the last bucket and the count as all of them. */
  lemma HistogramIsRecovered(p: Printer, name: string, key: LabelKey, bounds: seq<real>, values: seq<real>, i: nat)
    requires i < |bounds|
    ensures var n, samples := |bounds|, HistogramSamples(p, name, key, ObservedAll(bounds, values));
      && |samples| == n + 3
      && samples[i].labels == key + [Label("le", p.FormatNumber(bounds[i]))]
      && ParseInt(samples[i].value) == Some(AtMost(values, bounds[i]))
      && samples[n].labels == key + [Label("le", "+Inf")] && ParseInt(samples[n].value) == Some(|values|)
      && samples[n + 1] == Sample(name + "_sum", key, p.FormatNumber(Sum(values)))
      && samples[n + 2].name == name + "_count" && ParseInt(samples[n + 2].value) == Some(|values|)
  {
    hide FormatInt, ParseInt, BucketSamples, ObservedAll;
    var h := ObservedAll(bounds, values);
    BucketsCountObservations(bounds, values);
    BucketSampleAt(p, name, key, h, |bounds|, i);
    IntRoundTrip(h.counts[i]);
    IntRoundTrip(h.count);
  }
}
