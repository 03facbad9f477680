/** The text a metrics registry renders, in the Prometheus text-based exposition format, version 0.0.4,
    section "Text format details"; and a parser that reads it back. Escaping is modelled as the three
    chained replacements of `_escape_label_value`, numbers as decimal digits, samples as a name with labels
    and the text of a value; comment lines carry no sample. Parsing undoes rendering for every registry whose
    names are well formed. */
module Exposition {
  import opened Common

  // ---- escaping

  /** Every `from` becomes `to`. */
  function Replace(s: string, from: char, to: string): string {
    if s == "" then "" else (if s[0] == from then to else [s[0]]) + Replace(s[1..], from, to)
  }

  /** The three replacements, one after the other. */
  function EscapeLabelValue(value: string): string {
    Replace(Replace(Replace(value, '\\', "\\\\"), '"', "\\\""), '\n', "\\n")
  }

  function EscapeChar(c: char): string {
    if c == '\\' then "\\\\" else if c == '"' then "\\\"" else if c == '\n' then "\\n" else [c]
  }

  /** The same in one pass. */
  function Escape(value: string): string {
    if value == "" then "" else EscapeChar(value[0]) + Escape(value[1..])
  }

  lemma {:induction false} ReplaceConcat(a: string, b: string, from: char, to: string)
    ensures Replace(a + b, from, to) == Replace(a, from, to) + Replace(b, from, to)
  {
    if a == "" {
      assert a + b == b;
    } else {
      assert (a + b)[1..] == a[1..] + b;
      ReplaceConcat(a[1..], b, from, to);
      var head := if a[0] == from then to else [a[0]];
      assert head + (Replace(a[1..], from, to) + Replace(b, from, to))
        == head + Replace(a[1..], from, to) + Replace(b, from, to);
    }
  }

  /** One character under one replacement, and under all three. */
  lemma ReplaceOne(c: char, from: char, to: string)
    ensures Replace([c], from, to) == if c == from then to else [c]
  {
    assert [c][1..] == "";
  }

  lemma ReplaceTwo(a: char, b: char, from: char, to: string)
    requires a != from && b != from
    ensures Replace([a, b], from, to) == [a, b]
  {
    hide Replace;
    assert [a, b] == [a] + [b];
    ReplaceConcat([a], [b], from, to);
    ReplaceOne(a, from, to);
    ReplaceOne(b, from, to);
  }

  lemma EscapeOne(c: char)
    ensures EscapeLabelValue([c]) == EscapeChar(c)
  {
    hide Replace;
    ReplaceOne(c, '\\', "\\\\");
    ReplaceOne(c, '"', "\\\"");
    ReplaceOne(c, '\n', "\\n");
    ReplaceTwo('\\', '\\', '"', "\\\"");
    ReplaceTwo('\\', '\\', '\n', "\\n");
    ReplaceTwo('\\', '"', '\n', "\\n");
  }

  /** Main result about escaping: the chained replacements never escape what they themselves wrote. */
  lemma {:induction false} ChainIsOnePass(value: string)
    ensures EscapeLabelValue(value) == Escape(value)
  {
    hide Replace, EscapeChar;
    if value == "" {
      EscapeEmpty();
    } else {
      assert value == [value[0]] + value[1..];
      EscapeConcat([value[0]], value[1..]);
      EscapeOne(value[0]);
      ChainIsOnePass(value[1..]);
    }
  }

  lemma EscapeEmpty()
    ensures EscapeLabelValue("") == ""
  {
  }

  lemma EscapeConcat(a: string, b: string)
    ensures EscapeLabelValue(a + b) == EscapeLabelValue(a) + EscapeLabelValue(b)
  {
    hide Replace;
    ReplaceConcat(a, b, '\\', "\\\\");
    var a1, b1 := Replace(a, '\\', "\\\\"), Replace(b, '\\', "\\\\");
    ReplaceConcat(a1, b1, '"', "\\\"");
    ReplaceConcat(Replace(a1, '"', "\\\""), Replace(b1, '"', "\\\""), '\n', "\\n");
  }

  // ---- numbers

  function Digit(n: nat): char
    requires n < 10
  {
    ['0', '1', '2', '3', '4', '5', '6', '7', '8', '9'][n]
  }

  function DigitValue(c: char): Option<nat> {
    if '0' <= c <= '9' then Some((c as int - '0' as int) as nat) else None
  }

  lemma DigitRoundTrip(n: nat)
    requires n < 10
    ensures DigitValue(Digit(n)) == Some(n) && Digit(n) != '-' && Digit(n) != '\n' && (Digit(n) == '0' <==> n == 0)
  {
  }

  function FormatNat(n: nat): string {
    if n < 10 then [Digit(n)] else FormatNat(n / 10) + [Digit(n % 10)]
  }

  function FormatInt(n: int): string {
    if n < 0 then "-" + FormatNat(-n) else FormatNat(n)
  }

  function ParseNat(s: string): Option<nat> {
    if s == "" then None
    else
      var last := DigitValue(s[|s| - 1]);
      if last.None? then None
      else if |s| == 1 then last
      else
        var front := ParseNat(s[..|s| - 1]);
        if front.None? then None else Some(10 * front.value + last.value)
  }

  function ParseInt(s: string): Option<int> {
    if s != "" && s[0] == '-' then
      var n := ParseNat(s[1..]);
      var value: int := if n.None? then 0 else -(n.value as int);
      if n.None? then None else Some(value)
    else
      var n := ParseNat(s);
      if n.None? then None else Some(n.value)
  }

  lemma {:induction false} NatRoundTrip(n: nat)
    ensures ParseNat(FormatNat(n)) == Some(n)
    ensures FormatNat(n) != "" && FormatNat(n)[0] != '-' && '\n' !in FormatNat(n)
    ensures FormatNat(n)[0] == '0' ==> n == 0 && |FormatNat(n)| == 1
  {
    hide Digit, DigitValue;
    if n < 10 {
      DigitRoundTrip(n);
    } else {
      NatRoundTrip(n / 10);
      DigitRoundTrip(n % 10);
      var s := FormatNat(n);
      assert s[..|s| - 1] == FormatNat(n / 10);
    }
  }

  lemma IntRoundTrip(n: int)
    ensures ParseInt(FormatInt(n)) == Some(n) && '\n' !in FormatInt(n)
    ensures FormatInt(n)[0] == '-' <==> n < 0
    ensures FormatInt(n)[0] == '0' ==> n == 0 && |FormatInt(n)| == 1
  {
    hide FormatNat, ParseNat;
    if n < 0 {
      NatRoundTrip(-n);
      assert FormatInt(n)[1..] == FormatNat(-n);
    } else {
      NatRoundTrip(n);
    }
  }

  // ---- labels and samples

  datatype Label = Label(name: string, value: string)

  datatype Sample = Sample(name: string, labels: seq<Label>, value: string)

  predicate NameChar(c: char) {
    'a' <= c <= 'z' || 'A' <= c <= 'Z' || '0' <= c <= '9' || c == '_' || c == ':'
  }

  predicate IsName(s: string) {
    s != "" && forall i | 0 <= i < |s| :: NameChar(s[i])
  }

  predicate ValidSample(s: Sample) {
    IsName(s.name) && (forall i | 0 <= i < |s.labels| :: IsName(s.labels[i].name)) && '\n' !in s.value
  }

  function LabelText(l: Label): string {
    l.name + "=\"" + EscapeLabelValue(l.value) + "\""
  }

  function LabelsText(labels: seq<Label>): string
    requires labels != []
  {
    if |labels| == 1 then LabelText(labels[0]) else LabelText(labels[0]) + "," + LabelsText(labels[1..])
  }

  function FormatLabels(labels: seq<Label>): string {
    if labels == [] then "" else "{" + LabelsText(labels) + "}"
  }

  function SampleLine(s: Sample): string {
    s.name + FormatLabels(s.labels) + " " + s.value
  }

  // ---- the parser

  function TakeName(s: string): (string, string) {
    if s == "" || !NameChar(s[0]) then ("", s)
    else
      var (name, rest) := TakeName(s[1..]);
      ([s[0]] + name, rest)
  }

  /** A quoted value from just after its opening quote to just after its closing one. */
  function ParseQuoted(s: string): Option<(string, string)> {
    if s == "" || s[0] == '\n' then None
    else if s[0] == '"' then Some(("", s[1..]))
    else if s[0] == '\\' then
      if |s| < 2 || !(s[1] in "\\\"n") then None
      else
        var more := ParseQuoted(s[2..]);
        if more.None? then None
        else Some(([if s[1] == 'n' then '\n' else s[1]] + more.value.0, more.value.1))
    else
      var more := ParseQuoted(s[1..]);
      if more.None? then None else Some(([s[0]] + more.value.0, more.value.1))
  }

  function ParseLabel(s: string): Option<(Label, string)> {
    var (name, rest) := TakeName(s);
    if name == "" || |rest| < 2 || rest[0] != '=' || rest[1] != '"' then None
    else
      var quoted := ParseQuoted(rest[2..]);
      if quoted.None? then None else Some((Label(name, quoted.value.0), quoted.value.1))
  }

  /** The labels from just after the opening brace to just after the closing one. */
  function ParseLabels(s: string): Option<(seq<Label>, string)>
    decreases |s|
  {
    var first := ParseLabel(s);
    if first.None? || first.value.1 == "" then None
    else
      var (one, rest) := first.value;
      if rest[0] == '}' then Some(([one], rest[1..]))
      else if rest[0] == ',' && |rest| <= |s| then
        var more := ParseLabels(rest[1..]);
        if more.None? then None else Some(([one] + more.value.0, more.value.1))
      else None
  }

  function ParseSample(line: string): Option<Sample> {
    var (name, rest) := TakeName(line);
    if name == "" || rest == "" then None
    else if rest[0] == '{' then
      var labels := ParseLabels(rest[1..]);
      if labels.None? || labels.value.1 == "" || labels.value.1[0] != ' ' then None
      else Some(Sample(name, labels.value.0, labels.value.1[1..]))
    else if rest[0] == ' ' then Some(Sample(name, [], rest[1..]))
    else None
  }

  lemma {:induction false} TakesTheName(name: string, rest: string)
    requires forall i | 0 <= i < |name| :: NameChar(name[i])
    requires rest == "" || !NameChar(rest[0])
    ensures TakeName(name + rest) == (name, rest)
  {
    hide NameChar;
    if name == "" {
      assert name + rest == rest;
    } else {
      assert (name + rest)[1..] == name[1..] + rest;
      TakesTheName(name[1..], rest);
      assert [name[0]] + name[1..] == name;
    }
  }

  lemma {:induction false} QuotedRoundTrip(value: string, rest: string)
    ensures ParseQuoted(Escape(value) + ("\"" + rest)) == Some((value, rest))
    ensures |rest| < |Escape(value) + ("\"" + rest)| && '\n' !in Escape(value)
  {
    hide Escape;
    EscapeStep(value);
    var tail := "\"" + rest;
    if value == "" {
      assert Escape(value) + tail == tail;
      assert tail[1..] == rest;
    } else {
      QuotedRoundTrip(value[1..], rest);
      var more := Escape(value[1..]) + tail;
      assert Escape(value) + tail == EscapeChar(value[0]) + more;
      QuotedStep(value[0], more);
      assert [value[0]] + value[1..] == value;
    }
  }

  lemma EscapeStep(value: string)
    ensures value == "" ==> Escape(value) == ""
    ensures value != "" ==> Escape(value) == EscapeChar(value[0]) + Escape(value[1..]) && '\n' !in EscapeChar(value[0])
  {
  }

  lemma QuotedStep(c: char, more: string)
    requires ParseQuoted(more).Some?
    ensures ParseQuoted(EscapeChar(c) + more) == Some(([c] + ParseQuoted(more).value.0, ParseQuoted(more).value.1))
  {
    var s := EscapeChar(c) + more;
    if c == '\\' || c == '"' || c == '\n' {
      assert s[2..] == more;
    } else {
      assert s[1..] == more;
    }
  }

  lemma LabelRoundTrip(l: Label, rest: string)
    requires IsName(l.name)
    ensures ParseLabel(LabelText(l) + rest) == Some((l, rest)) && |rest| < |LabelText(l) + rest|
    ensures '\n' !in LabelText(l)
  {
    hide Escape, TakeName, ParseQuoted, EscapeLabelValue;
    ChainIsOnePass(l.value);
    var quoted := Escape(l.value) + ("\"" + rest);
    var after := "=\"" + quoted;
    assert LabelText(l) + rest == l.name + after;
    TakesTheName(l.name, after);
    assert after[2..] == quoted;
    QuotedRoundTrip(l.value, rest);
    NamesHaveNoBreaks(l.name);
  }

  lemma NamesHaveNoBreaks(name: string)
    requires IsName(name)
    ensures '\n' !in name && name[0] != '#'
  {
  }

  ghost predicate AllNamed(labels: seq<Label>) {
    forall i | 0 <= i < |labels| :: IsName(labels[i].name)
  }

  lemma {:induction false} LabelsRoundTrip(labels: seq<Label>, rest: string)
    requires labels != [] && AllNamed(labels)
    ensures ParseLabels(LabelsText(labels) + ("}" + rest)) == Some((labels, rest))
    ensures '\n' !in LabelsText(labels)
  {
    hide LabelText, ParseLabel, ParseLabels, IsName;
    var s := LabelsText(labels) + ("}" + rest);
    if |labels| == 1 {
      LabelRoundTrip(labels[0], "}" + rest);
      LastLabel(s, labels[0], rest);
      assert labels == [labels[0]];
    } else {
      var more := LabelsText(labels[1..]) + ("}" + rest);
      assert s == LabelText(labels[0]) + ("," + more);
      LabelsRoundTrip(labels[1..], rest);
      LabelRoundTrip(labels[0], "," + more);
      NextLabel(s, labels[0], more);
      assert labels == [labels[0]] + labels[1..];
    }
  }

  lemma LastLabel(s: string, l: Label, rest: string)
    requires ParseLabel(s) == Some((l, "}" + rest))
    ensures ParseLabels(s) == Some(([l], rest))
  {
    hide ParseLabel;
    assert ("}" + rest)[1..] == rest;
  }

  lemma NextLabel(s: string, l: Label, more: string)
    requires ParseLabel(s) == Some((l, "," + more)) && |"," + more| < |s| && ParseLabels(more).Some?
    ensures ParseLabels(s) == Some(([l] + ParseLabels(more).value.0, ParseLabels(more).value.1))
  {
    hide ParseLabel;
    assert ("," + more)[1..] == more;
  }

  /** One sample line reads back as the sample, whatever its label values hold. */
  lemma SampleRoundTrip(s: Sample)
    requires ValidSample(s)
    ensures ParseSample(SampleLine(s)) == Some(s)
    ensures '\n' !in SampleLine(s) && SampleLine(s) != "" && SampleLine(s)[0] != '#'
  {
    hide TakeName, ParseLabels, LabelsText;
    var tail := " " + s.value;
    NamesHaveNoBreaks(s.name);
    if s.labels == [] {
      assert SampleLine(s) == s.name + tail;
      TakesTheName(s.name, tail);
      assert tail[1..] == s.value;
    } else {
      var inner := LabelsText(s.labels) + ("}" + tail);
      var rest := "{" + inner;
      assert SampleLine(s) == s.name + rest;
      TakesTheName(s.name, rest);
      assert rest[1..] == inner;
      LabelsRoundTrip(s.labels, tail);
      assert tail[1..] == s.value;
    }
  }

  // ---- whole texts

  function Unlines(lines: seq<string>): string {
    if lines == [] then "" else lines[0] + ("\n" + Unlines(lines[1..]))
  }

  /** The lines of a text, each ended by a line feed; what follows the last one is not a line. */
  function Lines(text: string): seq<string> {
    LinesFrom("", text)
  }

  function LinesFrom(line: string, text: string): seq<string>
    decreases |text|
  {
    if text == "" then []
    else if text[0] == '\n' then [line] + LinesFrom("", text[1..])
    else LinesFrom(line + [text[0]], text[1..])
  }

  lemma {:induction false} OneLine(line: string, more: string, rest: string)
    requires '\n' !in more
    ensures LinesFrom(line, more + ("\n" + rest)) == [line + more] + Lines(rest)
    decreases |more|
  {
    var text := more + ("\n" + rest);
    if more == "" {
      assert text[1..] == rest && line + more == line;
    } else {
      assert text[1..] == more[1..] + ("\n" + rest);
      OneLine(line + [more[0]], more[1..], rest);
      assert line + [more[0]] + more[1..] == line + more;
    }
  }

  lemma {:induction false} LinesRoundTrip(lines: seq<string>)
    requires forall i | 0 <= i < |lines| :: '\n' !in lines[i]
    ensures Lines(Unlines(lines)) == lines
  {
    hide LinesFrom;
    if lines == [] {
      NoLines();
    } else {
      LinesRoundTrip(lines[1..]);
      OneLine("", lines[0], Unlines(lines[1..]));
      assert "" + lines[0] == lines[0];
      assert lines == [lines[0]] + lines[1..];
    }
  }

  lemma NoLines()
    ensures Lines("") == []
  {
  }

  /** Comment lines say nothing about the samples. */
  function ParseLines(lines: seq<string>): Option<seq<Sample>> {
    if lines == [] then Some([])
    else
      var rest := ParseLines(lines[1..]);
      if rest.None? then None
      else if lines[0] != "" && lines[0][0] == '#' then rest
      else
        var sample := ParseSample(lines[0]);
        if sample.None? then None else Some([sample.value] + rest.value)
  }

  function ParseExposition(text: string): Option<seq<Sample>> {
    ParseLines(Lines(text))
  }

  /** A family: its two comment lines and its samples. */
  datatype Family = Family(name: string, kind: string, help: string, samples: seq<Sample>)

  ghost predicate ValidFamily(f: Family) {
    && '\n' !in f.name && '\n' !in f.kind && '\n' !in f.help
    && forall i | 0 <= i < |f.samples| :: ValidSample(f.samples[i])
  }

  function SampleLines(samples: seq<Sample>): seq<string> {
    if samples == [] then [] else [SampleLine(samples[0])] + SampleLines(samples[1..])
  }

  function FamilyLines(f: Family): seq<string> {
    ["# HELP " + f.name + " " + f.help, "# TYPE " + f.name + " " + f.kind] + SampleLines(f.samples)
  }

  function AllLines(families: seq<Family>): seq<string> {
    if families == [] then [] else FamilyLines(families[0]) + AllLines(families[1..])
  }

  function AllSamples(families: seq<Family>): seq<Sample> {
    if families == [] then [] else families[0].samples + AllSamples(families[1..])
  }

  function Render(families: seq<Family>): string {
    Unlines(AllLines(families))
  }

  ghost predicate NoBreaks(lines: seq<string>) {
    forall i | 0 <= i < |lines| :: '\n' !in lines[i]
  }

  lemma {:induction false} ParseLinesConcat(a: seq<string>, b: seq<string>)
    requires ParseLines(a).Some? && ParseLines(b).Some?
    ensures ParseLines(a + b) == Some(ParseLines(a).value + ParseLines(b).value)
  {
    hide ParseSample;
    if a == [] {
      assert a + b == b && [] + ParseLines(b).value == ParseLines(b).value;
    } else {
      assert (a + b)[1..] == a[1..] + b;
      ParseLinesConcat(a[1..], b);
      var rest, more := ParseLines(a[1..]).value, ParseLines(b).value;
      if a[0] == "" || a[0][0] != '#' {
        var one := [ParseSample(a[0]).value];
        assert one + (rest + more) == one + rest + more;
      }
    }
  }

  lemma {:induction false} SampleLinesRoundTrip(samples: seq<Sample>)
    requires forall i | 0 <= i < |samples| :: ValidSample(samples[i])
    ensures ParseLines(SampleLines(samples)) == Some(samples) && NoBreaks(SampleLines(samples))
  {
    hide ParseSample, SampleLine, ValidSample;
    if samples != [] {
      SampleLinesRoundTrip(samples[1..]);
      SampleRoundTrip(samples[0]);
      var lines := SampleLines(samples);
      assert lines[1..] == SampleLines(samples[1..]);
      assert samples == [samples[0]] + samples[1..];
      assert forall i | 0 < i < |lines| :: lines[i] == SampleLines(samples[1..])[i - 1];
    }
  }

  lemma FamilyRoundTrip(f: Family)
    requires ValidFamily(f)
    ensures ParseLines(FamilyLines(f)) == Some(f.samples) && NoBreaks(FamilyLines(f))
  {
    hide ParseSample, SampleLine, SampleLines, ValidSample;
    SampleLinesRoundTrip(f.samples);
    var help, kind := "# HELP " + f.name + " " + f.help, "# TYPE " + f.name + " " + f.kind;
    CommentsSayNothing(help, kind);
    ParseLinesConcat([help, kind], SampleLines(f.samples));
    assert [] + f.samples == f.samples;
  }

  lemma CommentsSayNothing(a: string, b: string)
    requires a != "" && a[0] == '#' && b != "" && b[0] == '#'
    ensures ParseLines([a, b]) == Some([])
  {
    hide ParseSample;
    var one: seq<string> := [b];
    assert one[1..] == [] && [a, b][1..] == one;
    NoSamples();
    assert ParseLines(one) == Some([]);
  }

  lemma {:induction false} AllLinesRoundTrip(families: seq<Family>)
    requires forall i | 0 <= i < |families| :: ValidFamily(families[i])
    ensures ParseLines(AllLines(families)) == Some(AllSamples(families)) && NoBreaks(AllLines(families))
  {
    hide ParseLines, FamilyLines, ValidFamily;
    if families == [] {
      NoSamples();
    } else {
      AllLinesRoundTrip(families[1..]);
      FamilyRoundTrip(families[0]);
      ParseLinesConcat(FamilyLines(families[0]), AllLines(families[1..]));
    }
  }

  lemma NoSamples()
    ensures ParseLines([]) == Some([])
  {
  }

  /** Main result. The rendered text reads back as exactly the samples, in order, whatever quotes,
      backslashes, line feeds, commas or braces the label values hold. */
  lemma ExpositionRoundTrip(families: seq<Family>)
    requires forall i | 0 <= i < |families| :: ValidFamily(families[i])
    ensures ParseExposition(Render(families)) == Some(AllSamples(families))
  {
    hide ParseLines, ValidFamily, Lines, Unlines;
    AllLinesRoundTrip(families);
    LinesRoundTrip(AllLines(families));
  }

  /** And each family is introduced: its help and its type on two lines, before the lines of its samples. */
  lemma FamiliesAreIntroduced(families: seq<Family>, i: nat) returns (j: nat)
    requires i < |families| && forall k | 0 <= k < |families| :: ValidFamily(families[k])
    ensures var f, lines := families[i], Lines(Render(families));
      && j + 2 + |f.samples| <= |lines|
      && lines[j] == "# HELP " + f.name + " " + f.help
      && lines[j + 1] == "# TYPE " + f.name + " " + f.kind
      && forall k | 0 <= k < |f.samples| :: lines[j + 2 + k] == SampleLine(f.samples[k])
  {
    hide ValidFamily, Lines, Unlines, SampleLine, AllLines, FamilyLines;
    AllLinesRoundTrip(families);
    LinesRoundTrip(AllLines(families));
    j := LinesOfFamily(families, i);
  }

  lemma {:induction false} LinesOfFamily(families: seq<Family>, i: nat) returns (j: nat)
    requires i < |families|
    ensures var f, lines := families[i], AllLines(families);
      && j + 2 + |f.samples| <= |lines|
      && lines[j] == "# HELP " + f.name + " " + f.help
      && lines[j + 1] == "# TYPE " + f.name + " " + f.kind
      && forall k | 0 <= k < |f.samples| :: lines[j + 2 + k] == SampleLine(f.samples[k])
  {
    hide SampleLine;
    if i == 0 {
      j := 0;
      SampleLinesAre(families[0].samples);
    } else {
      j := LinesOfFamily(families[1..], i - 1);
      j := j + |FamilyLines(families[0])|;
    }
  }

  lemma {:induction false} SampleLinesAre(samples: seq<Sample>)
    ensures |SampleLines(samples)| == |samples|
    ensures forall k | 0 <= k < |samples| :: SampleLines(samples)[k] == SampleLine(samples[k])
  {
    hide SampleLine;
    if samples != [] {
      SampleLinesAre(samples[1..]);
    }
  }
}
