/** The whole export: one TYPE line and one sample line per series, and a reader for all of it. */
module MetricsDocument {
  import opened Common
  import opened MetricsKeys
  import opened MetricsText

  datatype Kind = Counter | Gauge

  /** An integer, or a float by the text it is printed as. */
  datatype Number = Whole(value: int) | Float(text: string)

  datatype Sample = Sample(name: string, labels: seq<Label>, kind: Kind, number: Number)

  // ---- Writer ----

  function Digit(d: nat): char
    requires d < 10
  {
    (48 + d) as char
  }

  function Digits(n: nat): string {
    if n < 10 then [Digit(n)] else Digits(n / 10) + [Digit(n % 10)]
  }

  /** `to_string` of an integer. */
  function Decimal(n: int): string {
    if n < 0 then "-" + Digits(-n) else Digits(n)
  }

  function NumberText(number: Number): string {
    if number.Whole? then Decimal(number.value) else number.text
  }

  function KindWord(kind: Kind): string {
    if kind.Counter? then " counter\n" else " gauge\n"
  }

  function Concat(texts: seq<string>): string {
    if texts == [] then "" else Concat(texts[..|texts| - 1]) + texts[|texts| - 1]
  }

  /** The two lines of one series, piece by piece. */
  function SeriesText(name: string, word: string, block: string, number: string): string {
    Concat(["# TYPE ", name, word, name, block, " ", number, "\n"])
  }

  function SampleText(s: Sample): string {
    SeriesText(SanitizeMetricName(s.name), KindWord(s.kind), LabelBlock(s.labels), NumberText(s.number))
  }

  function Document(samples: seq<Sample>): string {
    Concat(Texts(SampleText, samples))
  }

  /** The name a counter of a function is exported under. */
  function FunctionMetricName(functionId: string, name: string): string {
    "function_" + functionId + "_" + name
  }

  /** Building the name from sanitized parts gives the sanitized whole. */
  lemma FunctionNameSanitized(f: string, name: string)
    ensures "function_" + SanitizeMetricName(SanitizeMetricName(f)) + "_" + SanitizeMetricName(name)
            == SanitizeMetricName(FunctionMetricName(f, name))
  {
  }

  function CounterSamples(entries: seq<(MetricKey, nat)>): seq<Sample> {
    seq(|entries|, i requires 0 <= i < |entries| =>
      Sample(entries[i].0.name, entries[i].0.labels, Counter, Whole(entries[i].1)))
  }

  function FloatSamples(entries: seq<(MetricKey, string)>): seq<Sample> {
    seq(|entries|, i requires 0 <= i < |entries| =>
      Sample(entries[i].0.name, entries[i].0.labels, Counter, Float(entries[i].1)))
  }

  function GaugeSamples(entries: seq<(MetricKey, int)>): seq<Sample> {
    seq(|entries|, i requires 0 <= i < |entries| =>
      Sample(entries[i].0.name, entries[i].0.labels, Gauge, Whole(entries[i].1)))
  }

  function FunctionSamples(f: string, entries: seq<(MetricKey, nat)>): seq<Sample> {
    seq(|entries|, i requires 0 <= i < |entries| =>
      Sample(FunctionMetricName(f, entries[i].0.name), entries[i].0.labels, Counter, Whole(entries[i].1)))
  }

  function AllFunctionSamples(functions: seq<(string, seq<(MetricKey, nat)>)>): seq<Sample> {
    if functions == [] then []
    else
      var last := functions[|functions| - 1];
      AllFunctionSamples(functions[..|functions| - 1]) + FunctionSamples(last.0, last.1)
  }

  lemma {:induction false} ConcatAppend(a: seq<string>, b: seq<string>)
    ensures Concat(a + b) == Concat(a) + Concat(b)
  {
    if b == [] {
      assert a + b == a;
    } else {
      assert (a + b)[..|a + b| - 1] == a + b[..|b| - 1];
      ConcatAppend(a, b[..|b| - 1]);
    }
  }

  lemma TextsAppend<A>(text: A -> string, a: seq<A>, b: seq<A>)
    ensures Texts(text, a + b) == Texts(text, a) + Texts(text, b)
  {
  }

  lemma DocumentConcat(a: seq<Sample>, b: seq<Sample>)
    ensures Document(a + b) == Document(a) + Document(b)
  {
    TextsAppend(SampleText, a, b);
    ConcatAppend(Texts(SampleText, a), Texts(SampleText, b));
  }

  lemma ConcatLast(texts: seq<string>, last: string)
    ensures Concat(texts + [last]) == Concat(texts) + last
  {
  }

  lemma ConcatFourTexts(a: string, b: string, c: string, d: string)
    ensures Concat([a, b, c, d]) == a + b + c + d
  {
    ConcatLast([], a);
    assert [] + [a] == [a] && [a] + [b] == [a, b] && [a, b] + [c] == [a, b, c] && [a, b, c] + [d] == [a, b, c, d];
    ConcatLast([a], b);
    ConcatLast([a, b], c);
    ConcatLast([a, b, c], d);
  }

  lemma Regroup(head: string, a: string, b: string, c: string, d: string)
    ensures head + (a + b + c + d) == head + a + b + c + d
  {
  }

  lemma SeriesTextPieces(name: string, word: string, block: string, number: string)
    ensures SeriesText(name, word, block, number) == "# TYPE " + name + word + name + block + " " + number + "\n"
  {
    var first, second := ["# TYPE ", name, word, name], [block, " ", number, "\n"];
    assert first + second == ["# TYPE ", name, word, name, block, " ", number, "\n"];
    ConcatAppend(first, second);
    ConcatFourTexts("# TYPE ", name, word, name);
    ConcatFourTexts(block, " ", number, "\n");
    Regroup("# TYPE " + name + word + name, block, " ", number, "\n");
  }

  lemma AppendGrouping(text: string, name: string, word: string, block: string, number: string)
    ensures text + "# TYPE " + name + word + name + block + " " + number + "\n" ==
            text + SeriesText(name, word, block, number)
  {
    SeriesTextPieces(name, word, block, number);
  }

  /** Writes one series the way each of the export loops does. */
  method AppendSeries(
      text: string, name: string, labels: seq<Label>, kind: Kind, number: string)
    returns (output: string)
    ensures output == text + SeriesText(name, KindWord(kind), LabelBlock(labels), number)
  {
    output := text + "# TYPE ";
    output := output + name;
    output := output + KindWord(kind);
    output := output + name;
    output := AppendMetricLabels(output, labels);
    output := output + " ";
    output := output + number;
    output := output + "\n";
    AppendGrouping(text, name, KindWord(kind), LabelBlock(labels), number);
  }

  method AppendSample(text: string, s: Sample) returns (output: string)
    ensures output == text + SampleText(s)
  {
    var name := SanitizeMetricName(s.name);
    output := AppendSeries(text, name, s.labels, s.kind, NumberText(s.number));
  }

  method AppendFunctionCounter(
      text: string, functionId: string, ghost f: string, key: MetricKey, value: nat)
    returns (output: string)
    requires functionId == SanitizeMetricName(f)
    ensures output == text + SampleText(Sample(FunctionMetricName(f, key.name), key.labels, Counter, Whole(value)))
  {
    FunctionNameSanitized(f, key.name);
    var name := "function_" + SanitizeMetricName(functionId) + "_" + SanitizeMetricName(key.name);
    output := AppendSeries(text, name, key.labels, Counter, Decimal(value));
  }

  lemma AppendNext<A>(before: string, text: A -> string, xs: seq<A>, i: nat)
    requires i < |xs|
    ensures before + Concat(Texts(text, xs[..i + 1])) == before + Concat(Texts(text, xs[..i])) + text(xs[i])
  {
    assert xs[..i + 1] == xs[..i] + [xs[i]];
    TextsAppend(text, xs[..i], [xs[i]]);
    ConcatLast(Texts(text, xs[..i]), text(xs[i]));
    assert Texts(text, [xs[i]]) == [text(xs[i])];
  }

  /** One export loop over entries whose names are sanitized as they are written. */
  method AppendSamples(text: string, samples: seq<Sample>) returns (output: string)
    ensures output == text + Document(samples)
  {
    output := text;
    for i := 0 to |samples|
      invariant output == text + Concat(Texts(SampleText, samples[..i]))
    {
      AppendNext(text, SampleText, samples, i);
      output := AppendSample(output, samples[i]);
    }
    assert samples[..|samples|] == samples;
  }

  method AppendFunctionCounters(text: string, f: string, entries: seq<(MetricKey, nat)>) returns (output: string)
    ensures output == text + Document(FunctionSamples(f, entries))
  {
    output := text;
    var functionId := SanitizeMetricName(f);
    ghost var samples := FunctionSamples(f, entries);
    for i := 0 to |entries|
      invariant output == text + Concat(Texts(SampleText, samples[..i]))
    {
      AppendNext(text, SampleText, samples, i);
      output := AppendFunctionCounter(output, functionId, f, entries[i].0, entries[i].1);
    }
    assert samples[..|samples|] == samples;
  }

  lemma FunctionsNext(before: string, functions: seq<(string, seq<(MetricKey, nat)>)>, i: nat)
    requires i < |functions|
    ensures before + Document(AllFunctionSamples(functions[..i + 1])) ==
            before + Document(AllFunctionSamples(functions[..i])) +
            Document(FunctionSamples(functions[i].0, functions[i].1))
  {
    assert functions[..i + 1][..i] == functions[..i];
    DocumentConcat(AllFunctionSamples(functions[..i]), FunctionSamples(functions[i].0, functions[i].1));
  }

  method AppendAllFunctions(text: string, functions: seq<(string, seq<(MetricKey, nat)>)>) returns (output: string)
    ensures output == text + Document(AllFunctionSamples(functions))
  {
    output := text;
    for i := 0 to |functions|
      invariant output == text + Document(AllFunctionSamples(functions[..i]))
    {
      FunctionsNext(text, functions, i);
      output := AppendFunctionCounters(output, functions[i].0, functions[i].1);
    }
    assert functions[..|functions|] == functions;
  }

  lemma ConcatFour(a: seq<Sample>, b: seq<Sample>, c: seq<Sample>, d: seq<Sample>)
    ensures Document(a + b + c + d) == "" + Document(a) + Document(b) + Document(c) + Document(d)
  {
    DocumentConcat(a, b);
    DocumentConcat(a + b, c);
    DocumentConcat(a + b + c, d);
  }

  function Exported(
      counters: seq<(MetricKey, nat)>, floats: seq<(MetricKey, string)>, gauges: seq<(MetricKey, int)>,
      functions: seq<(string, seq<(MetricKey, nat)>)>): seq<Sample>
  {
    CounterSamples(counters) + FloatSamples(floats) + GaugeSamples(gauges) + AllFunctionSamples(functions)
  }

  /** The export: runtime counters, float counters, gauges, then the counters of every function. Each argument
      lists a table in the order its iterator yields it; a float comes as the text it is printed as. */
  method Encode(
      counters: seq<(MetricKey, nat)>, floats: seq<(MetricKey, string)>, gauges: seq<(MetricKey, int)>,
      functions: seq<(string, seq<(MetricKey, nat)>)>)
    returns (output: string)
    ensures output == Document(Exported(counters, floats, gauges, functions))
  {
    output := AppendSamples("", CounterSamples(counters));
    output := AppendSamples(output, FloatSamples(floats));
    output := AppendSamples(output, GaugeSamples(gauges));
    output := AppendAllFunctions(output, functions);
    ConcatFour(CounterSamples(counters), FloatSamples(floats), GaugeSamples(gauges), AllFunctionSamples(functions));
  }

  // ---- Reader ----

  function DigitsValue(s: string): int {
    if s == [] then 0 else 10 * DigitsValue(s[..|s| - 1]) + (s[|s| - 1] as int - 48)
  }

  function ReadDecimal(t: string): Option<(int, string)> {
    var negative := t != [] && t[0] == '-';
    var (digits, rest) := Span(IsDigit, if negative then t[1..] else t);
    if digits == [] then None
    else Some((if negative then -DigitsValue(digits) else DigitsValue(digits), rest))
  }

  function Strip(prefix: string, t: string): Option<string> {
    if |prefix| <= |t| && t[..|prefix|] == prefix then Some(t[|prefix|..]) else None
  }

  function ReadKind(t: string): Option<(Kind, string)> {
    match Strip(" counter\n", t)
    case Some(rest) => Some((Counter, rest))
    case None =>
      match Strip(" gauge\n", t)
      case Some(rest) => Some((Gauge, rest))
      case None => None
  }

  /** An integer if it is one. */
  function NumberOf(text: string): Number {
    match ReadDecimal(text)
    case None => Float(text)
    case Some((value, rest)) => if rest == "" then Whole(value) else Float(text)
  }

  predicate InLine(c: char) {
    c != '\n'
  }

  /** A space, a number and the end of the line. */
  function ReadNumber(t: string): Option<(Number, string)> {
    match Strip(" ", t)
    case None => None
    case Some(t1) =>
      var (text, t2) := Span(InLine, t1);
      match Strip("\n", t2)
      case None => None
      case Some(rest) => Some((NumberOf(text), rest))
  }

  /** What follows the TYPE line of `name`. */
  function ReadSampleLine(name: string, kind: Kind, t: string): Option<(Sample, string)> {
    match Strip(name, t)
    case None => None
    case Some(t1) =>
      match ReadLabels(t1)
      case None => None
      case Some((labels, t2)) =>
        match ReadNumber(t2)
        case None => None
        case Some((number, rest)) => Some((Sample(name, labels, kind, number), rest))
  }

  function ReadSeries(t: string): Option<(Sample, string)> {
    match Strip("# TYPE ", t)
    case None => None
    case Some(t1) =>
      var (name, t2) := Span(IsMetricChar, t1);
      match ReadKind(t2)
      case None => None
      case Some((kind, t3)) => ReadSampleLine(name, kind, t3)
  }

  function ReadDocument(t: string): Option<seq<Sample>>
    decreases |t|
  {
    if t == [] then Some([])
    else
      match ReadSeries(t)
      case None => None
      case Some((s, rest)) =>
        if |rest| >= |t| then None
        else
          match ReadDocument(rest)
          case None => None
          case Some(more) => Some([s] + more)
  }

  /** A sample as it can be read back: names are sanitized, and a float printed without a fraction is an
      integer. */
  function SanitizedSample(s: Sample): Sample {
    Sample(SanitizeMetricName(s.name), Sanitized(s.labels), s.kind,
           if s.number.Whole? then s.number else NumberOf(s.number.text))
  }

  ghost predicate OneLineNumbers(samples: seq<Sample>) {
    forall i :: 0 <= i < |samples| && samples[i].number.Float? ==> '\n' !in samples[i].number.text
  }

  function SanitizedSamples(samples: seq<Sample>): seq<Sample> {
    seq(|samples|, i requires 0 <= i < |samples| => SanitizedSample(samples[i]))
  }

  // ---- Round trip ----

  lemma {:induction false} DigitsReadBack(n: nat)
    ensures Digits(n) != [] && (forall c :: c in Digits(n) ==> IsDigit(c)) && DigitsValue(Digits(n)) == n
  {
    if n >= 10 {
      DigitsReadBack(n / 10);
    }
  }

  lemma NaturalReadsBack(n: nat, rest: string)
    requires rest == [] || !IsDigit(rest[0])
    ensures var t := Digits(n) + rest;
            t != [] && t[0] != '-' && Span(IsDigit, t) == (Digits(n), rest)
            && Digits(n) != [] && DigitsValue(Digits(n)) == n
  {
    DigitsReadBack(n);
    SpanTakes(IsDigit, Digits(n), rest);
    assert (Digits(n) + rest)[0] == Digits(n)[0] && Digits(n)[0] in Digits(n);
  }

  lemma DecimalReadsBack(n: int, rest: string)
    requires rest == [] || !IsDigit(rest[0])
    ensures ReadDecimal(Decimal(n) + rest) == Some((n, rest))
  {
    NaturalReadsBack(if n < 0 then -n else n, rest);
    if n < 0 {
      var digits := Digits(-n);
      assert ("-" + digits + rest)[0] == '-' && ("-" + digits + rest)[1..] == digits + rest;
    }
  }

  lemma StripWritten(prefix: string, rest: string)
    ensures Strip(prefix, prefix + rest) == Some(rest)
  {
  }

  lemma KindReadsBack(kind: Kind, rest: string)
    ensures ReadKind(KindWord(kind) + rest) == Some((kind, rest))
  {
    StripWritten(KindWord(kind), rest);
    if kind.Gauge? {
      assert (KindWord(kind) + rest)[1] == 'g';
    }
  }

  lemma {:induction false} DigitsInLine(n: nat)
    ensures '\n' !in Digits(n)
  {
    DigitsReadBack(n);
    assert !IsDigit('\n');
  }

  lemma NumberReadsBack(number: Number, rest: string)
    requires number.Float? ==> '\n' !in number.text
    ensures ReadNumber(" " + (NumberText(number) + ("\n" + rest)))
            == Some((if number.Whole? then number else NumberOf(number.text), rest))
  {
    var text := NumberText(number);
    if number.Whole? {
      DigitsInLine(if number.value < 0 then -number.value else number.value);
      DecimalReadsBack(number.value, "");
      assert text + "" == text;
    }
    StripWritten(" ", text + ("\n" + rest));
    SpanTakes(InLine, text, "\n" + rest);
    StripWritten("\n", rest);
  }

  lemma SampleLineReadsBack(s: Sample, name: string, rest: string)
    requires s.number.Float? ==> '\n' !in s.number.text
    requires name == SanitizeMetricName(s.name)
    ensures ReadSampleLine(name, s.kind, name + (LabelBlock(s.labels) + (" " + (NumberText(s.number) + ("\n" + rest)))))
            == Some((SanitizedSample(s), rest))
  {
    var number := " " + (NumberText(s.number) + ("\n" + rest));
    StripWritten(name, LabelBlock(s.labels) + number);
    assert number[0] == ' ';
    LabelBlockRoundTrip(s.labels, number);
    NumberReadsBack(s.number, rest);
  }

  lemma SeriesTextThen(name: string, word: string, block: string, number: string, rest: string)
    ensures SeriesText(name, word, block, number) + rest ==
            "# TYPE " + (name + (word + (name + (block + (" " + (number + ("\n" + rest)))))))
  {
    SeriesTextPieces(name, word, block, number);
  }

  lemma SampleReadsBack(s: Sample, rest: string)
    requires s.number.Float? ==> '\n' !in s.number.text
    ensures ReadSeries(SampleText(s) + rest) == Some((SanitizedSample(s), rest))
  {
    var name := SanitizeMetricName(s.name);
    var line := name + (LabelBlock(s.labels) + (" " + (NumberText(s.number) + ("\n" + rest))));
    SeriesTextThen(name, KindWord(s.kind), LabelBlock(s.labels), NumberText(s.number), rest);
    StripWritten("# TYPE ", name + (KindWord(s.kind) + line));
    assert (KindWord(s.kind) + line)[0] == ' ';
    SpanTakes(IsMetricChar, name, KindWord(s.kind) + line);
    KindReadsBack(s.kind, line);
    SampleLineReadsBack(s, name, rest);
  }

  lemma ConcatFront(texts: seq<string>)
    requires texts != []
    ensures Concat(texts) == texts[0] + Concat(texts[1..])
  {
    ConcatAppend([texts[0]], texts[1..]);
    assert texts == [texts[0]] + texts[1..];
    assert Concat([texts[0]]) == Concat([texts[0]][..0]) + texts[0];
  }

  lemma DocumentFront(samples: seq<Sample>)
    requires samples != []
    ensures Document(samples) == SampleText(samples[0]) + Document(samples[1..])
  {
    TextsFront(SampleText, samples);
    ConcatFront(Texts(SampleText, samples));
  }

  lemma SampleTextNotEmpty(s: Sample)
    ensures SampleText(s) != []
  {
  }

  lemma SanitizedFront(samples: seq<Sample>)
    requires samples != []
    ensures SanitizedSamples(samples) == [SanitizedSample(samples[0])] + SanitizedSamples(samples[1..])
  {
  }

  /** Main result: the export reads back as the samples that went in, sanitized, in order. */
  lemma {:induction false} DocumentRoundTrip(samples: seq<Sample>)
    requires OneLineNumbers(samples)
    ensures ReadDocument(Document(samples)) == Some(SanitizedSamples(samples))
    decreases |samples|
  {
    if samples == [] {
      assert Texts(SampleText, samples) == [] && Document(samples) == "";
      assert SanitizedSamples(samples) == [];
    } else {
      DocumentFront(samples);
      SampleReadsBack(samples[0], Document(samples[1..]));
      DocumentRoundTrip(samples[1..]);
      SanitizedFront(samples);
      SampleTextNotEmpty(samples[0]);
    }
  }

  lemma {:induction false} FunctionSamplesWhole(functions: seq<(string, seq<(MetricKey, nat)>)>)
    ensures OneLineNumbers(AllFunctionSamples(functions))
  {
    if functions != [] {
      FunctionSamplesWhole(functions[..|functions| - 1]);
    }
  }

  lemma FunctionNameLegal(f: string, name: string)
    ensures IsMetricName(SanitizeMetricName(FunctionMetricName(f, name)))
  {
    MetricNameMadeLegal(FunctionMetricName(f, name));
    assert FunctionMetricName(f, name)[0] == 'f';
  }

  /** How many series the first functions have together. */
  function SeriesBefore(functions: seq<(string, seq<(MetricKey, nat)>)>): nat {
    if functions == [] then 0
    else SeriesBefore(functions[..|functions| - 1]) + |functions[|functions| - 1].1|
  }

  lemma {:induction false} FunctionSeriesCount(functions: seq<(string, seq<(MetricKey, nat)>)>)
    ensures |AllFunctionSamples(functions)| == SeriesBefore(functions)
  {
    if functions != [] {
      FunctionSeriesCount(functions[..|functions| - 1]);
    }
  }

  lemma {:induction false} FunctionSeriesAt(functions: seq<(string, seq<(MetricKey, nat)>)>, j: nat, i: nat)
    requires j < |functions| && i < |functions[j].1|
    ensures |AllFunctionSamples(functions)| == SeriesBefore(functions)
    ensures SeriesBefore(functions[..j]) + i < SeriesBefore(functions)
    ensures var (key, value) := functions[j].1[i];
            AllFunctionSamples(functions)[SeriesBefore(functions[..j]) + i] ==
            Sample("function_" + functions[j].0 + "_" + key.name, key.labels, Counter, Whole(value))
  {
    var n := |functions| - 1;
    FunctionSeriesCount(functions[..n]);
    if j < n {
      FunctionSeriesAt(functions[..n], j, i);
      assert functions[..n][..j] == functions[..j];
    }
  }

  /** What the export holds, place by place. */
  lemma ExportedAt(
      counters: seq<(MetricKey, nat)>, floats: seq<(MetricKey, string)>, gauges: seq<(MetricKey, int)>,
      functions: seq<(string, seq<(MetricKey, nat)>)>)
    ensures var all, c, f, g := Exported(counters, floats, gauges, functions), |counters|, |floats|, |gauges|;
            && |all| == c + f + g + SeriesBefore(functions)
            && (forall i :: 0 <= i < c ==>
                  all[i] == Sample(counters[i].0.name, counters[i].0.labels, Counter, Whole(counters[i].1)))
            && (forall i :: 0 <= i < f ==>
                  all[c + i] == Sample(floats[i].0.name, floats[i].0.labels, Counter, Float(floats[i].1)))
            && (forall i :: 0 <= i < g ==>
                  all[c + f + i] == Sample(gauges[i].0.name, gauges[i].0.labels, Gauge, Whole(gauges[i].1)))
            && all[c + f + g..] == AllFunctionSamples(functions)
  {
    FunctionSeriesCount(functions);
  }

  /** Main result: the text of all four tables reads back as their series: sanitized names, exact labels,
      exact integers, and floats as they were printed. */
  lemma ExportReadsBack(
      counters: seq<(MetricKey, nat)>, floats: seq<(MetricKey, string)>, gauges: seq<(MetricKey, int)>,
      functions: seq<(string, seq<(MetricKey, nat)>)>)
    requires forall i :: 0 <= i < |floats| ==> '\n' !in floats[i].1
    ensures ReadDocument(Document(Exported(counters, floats, gauges, functions)))
            == Some(SanitizedSamples(Exported(counters, floats, gauges, functions)))
  {
    FunctionSamplesWhole(functions);
    DocumentRoundTrip(Exported(counters, floats, gauges, functions));
  }
}
