/**
 The text the registry is exported as, and a reader for it.

 The writer follows the Prometheus text exposition format 0.0.4 as far as label syntax and
 escaping go. The reader below was written from the format alone; the round trip says that
 names come back sanitized, and label values and numbers come back as they were.
 */
module MetricsText {
  import opened Common
  import opened MetricsKeys

  predicate IsLetter(c: char) {
    'a' <= c <= 'z' || 'A' <= c <= 'Z'
  }

  predicate IsDigit(c: char) {
    '0' <= c <= '9'
  }

  predicate IsMetricChar(c: char) {
    IsLetter(c) || IsDigit(c) || c == '_' || c == ':'
  }

  predicate IsLabelChar(c: char) {
    IsLetter(c) || IsDigit(c) || c == '_'
  }

  // ---- Writer ----

  function SanitizeMetricName(s: string): string {
    seq(|s|, i requires 0 <= i < |s| => if IsMetricChar(s[i]) then s[i] else '_')
  }

  function SanitizeLabelName(s: string): string {
    seq(|s|, i requires 0 <= i < |s| => if IsLetter(s[i]) || s[i] == '_' || (i > 0 && IsDigit(s[i])) then s[i] else '_')
  }

  predicate IsLabelName(s: string) {
    s != "" && !IsDigit(s[0]) && forall c :: c in s ==> IsLabelChar(c)
  }

  predicate IsMetricName(s: string) {
    s != "" && !IsDigit(s[0]) && forall c :: c in s ==> IsMetricChar(c)
  }

  predicate LegalInLabel(i: nat, c: char) {
    IsLabelChar(c) && (i == 0 ==> !IsDigit(c))
  }

  predicate LegalInMetric(i: nat, c: char) {
    IsMetricChar(c)
  }

  /** `to` is `from` with some characters, those that `legal` refuses at their place, turned into underscores. */
  predicate OnlyIllegalReplaced(from: string, to: string, legal: (nat, char) -> bool) {
    && |to| == |from|
    && forall i: nat :: i < |from| ==> to[i] == if legal(i, from[i]) then from[i] else '_'
  }

  /** A label name comes out legal unless it is empty, and a legal one comes out as it was. */
  lemma LabelNameMadeLegal(s: string)
    ensures IsLabelName(SanitizeLabelName(s)) <==> s != ""
    ensures IsLabelName(s) ==> SanitizeLabelName(s) == s
    ensures OnlyIllegalReplaced(s, SanitizeLabelName(s), LegalInLabel)
  {
    var t := SanitizeLabelName(s);
    forall c | c in t
      ensures IsLabelChar(c)
    {
      var i :| 0 <= i < |t| && t[i] == c;
    }
    if IsLabelName(s) {
      assert forall i :: 0 <= i < |s| ==> s[i] in s;
    }
  }

  /** A metric name comes out legal unless it is empty or starts with a digit, which is kept. */
  lemma MetricNameMadeLegal(s: string)
    ensures IsMetricName(SanitizeMetricName(s)) <==> s != "" && !IsDigit(s[0])
    ensures IsMetricName(s) ==> SanitizeMetricName(s) == s
    ensures OnlyIllegalReplaced(s, SanitizeMetricName(s), LegalInMetric)
  {
    var t := SanitizeMetricName(s);
    forall c | c in t
      ensures IsMetricChar(c)
    {
      var i :| 0 <= i < |t| && t[i] == c;
    }
    if IsMetricName(s) {
      assert forall i :: 0 <= i < |s| ==> s[i] in s;
    }
  }

  /** `str::replace` for a one-character pattern. */
  function Replace(s: string, c: char, with: string): string {
    if s == [] then [] else (if s[0] == c then with else [s[0]]) + Replace(s[1..], c, with)
  }

  function EscapeLabelValue(s: string): string {
    Replace(Replace(Replace(s, '\\', "\\\\"), '"', "\\\""), '\n', "\\n")
  }

  function LabelPair(l: Label): string {
    SanitizeLabelName(l.0) + "=\"" + EscapeLabelValue(l.1) + "\""
  }

  /** Pairs with a comma before every one but the first. */
  function LabelPairs(labels: seq<Label>): string {
    if labels == [] then ""
    else
      var n := |labels| - 1;
      LabelPairs(labels[..n]) + (if n > 0 then "," else "") + LabelPair(labels[n])
  }

  function LabelBlock(labels: seq<Label>): string {
    if labels == [] then "" else "{" + LabelPairs(labels) + "}"
  }

  lemma LabelPairsStep(labels: seq<Label>, i: nat, before: string)
    requires i < |labels|
    ensures before + LabelPairs(labels[..i + 1]) ==
            before + LabelPairs(labels[..i]) + (if i > 0 then "," else "") + SanitizeLabelName(labels[i].0) + "=\"" +
            EscapeLabelValue(labels[i].1) + "\""
  {
    assert labels[..i + 1][..i] == labels[..i];
  }

  method AppendLabelPairs(text: string, labels: seq<Label>) returns (output: string)
    ensures output == text + LabelPairs(labels)
  {
    output := text;
    for i := 0 to |labels|
      invariant output == text + LabelPairs(labels[..i])
    {
      LabelPairsStep(labels, i, text);
      if i > 0 {
        output := output + ",";
      }
      output := output + SanitizeLabelName(labels[i].0);
      output := output + "=\"";
      output := output + EscapeLabelValue(labels[i].1);
      output := output + "\"";
    }
    assert labels[..|labels|] == labels;
  }

  method AppendMetricLabels(text: string, labels: seq<Label>) returns (output: string)
    ensures output == text + LabelBlock(labels)
  {
    output := text;
    if |labels| == 0 {
      return;
    }
    output := output + "{";
    output := AppendLabelPairs(output, labels);
    output := output + "}";
  }

  // ---- Escaping ----

  function EscapeChar(c: char): string {
    if c == '\\' then "\\\\" else if c == '"' then "\\\"" else if c == '\n' then "\\n" else [c]
  }

  function EscapeOnePass(s: string): string {
    if s == [] then [] else EscapeChar(s[0]) + EscapeOnePass(s[1..])
  }

  lemma {:induction false} ReplaceConcat(a: string, b: string, c: char, with: string)
    ensures Replace(a + b, c, with) == Replace(a, c, with) + Replace(b, c, with)
  {
    if a == [] {
      assert a + b == b;
    } else {
      assert (a + b)[1..] == a[1..] + b;
      ReplaceConcat(a[1..], b, c, with);
    }
  }

  lemma {:induction false} ReplaceAbsent(s: string, c: char, with: string)
    requires c !in s
    ensures Replace(s, c, with) == s
  {
    if s != [] {
      ReplaceAbsent(s[1..], c, with);
    }
  }

  lemma ReplaceSingle(c: char, with: string)
    ensures Replace([c], c, with) == with
  {
  }

  lemma EscapeOneChar(c: char)
    ensures EscapeLabelValue([c]) == EscapeChar(c)
  {
    if c == '\\' {
      ReplaceSingle(c, "\\\\");
      ReplaceAbsent("\\\\", '"', "\\\"");
      ReplaceAbsent("\\\\", '\n', "\\n");
    } else {
      ReplaceAbsent([c], '\\', "\\\\");
      if c == '"' {
        ReplaceSingle(c, "\\\"");
        ReplaceAbsent("\\\"", '\n', "\\n");
      } else {
        ReplaceAbsent([c], '"', "\\\"");
        if c == '\n' {
          ReplaceSingle(c, "\\n");
        } else {
          ReplaceAbsent([c], '\n', "\\n");
        }
      }
    }
  }

  /** The three replacements in a row do what a single pass would. */
  lemma {:induction false} EscapeIsOnePass(s: string)
    ensures EscapeLabelValue(s) == EscapeOnePass(s)
  {
    if s != [] {
      assert s == [s[0]] + s[1..];
      var a, b := Replace([s[0]], '\\', "\\\\"), Replace(s[1..], '\\', "\\\\");
      ReplaceConcat([s[0]], s[1..], '\\', "\\\\");
      ReplaceConcat(a, b, '"', "\\\"");
      ReplaceConcat(Replace(a, '"', "\\\""), Replace(b, '"', "\\\""), '\n', "\\n");
      EscapeOneChar(s[0]);
      EscapeIsOnePass(s[1..]);
    }
  }

  lemma {:induction false} EscapedHasNoNewline(s: string)
    ensures '\n' !in EscapeLabelValue(s)
  {
    EscapeIsOnePass(s);
    if s != [] {
      EscapeIsOnePass(s[1..]);
      EscapedHasNoNewline(s[1..]);
    }
  }

  // ---- Reader ----

  /** Longest prefix of characters in a class, and what follows. */
  function Span(p: char -> bool, t: string): (string, string) {
    if t == [] || !p(t[0]) then ("", t)
    else
      var (taken, rest) := Span(p, t[1..]);
      ([t[0]] + taken, rest)
  }

  function Prefixed(c: char, r: Option<(string, string)>): Option<(string, string)> {
    if r.None? then None else Some(([c] + r.value.0, r.value.1))
  }

  /** A label value up to its closing quote. */
  function ReadValue(t: string): Option<(string, string)> {
    if t == [] || t[0] == '\n' then None
    else if t[0] == '"' then Some(("", t[1..]))
    else if t[0] == '\\' then
      if |t| < 2 then None
      else if t[1] == '\\' then Prefixed('\\', ReadValue(t[2..]))
      else if t[1] == '"' then Prefixed('"', ReadValue(t[2..]))
      else if t[1] == 'n' then Prefixed('\n', ReadValue(t[2..]))
      else None
    else Prefixed(t[0], ReadValue(t[1..]))
  }

  function ReadPair(t: string): Option<(Label, string)> {
    var (name, rest) := Span(IsLabelChar, t);
    if |rest| < 2 || rest[0] != '=' || rest[1] != '"' then None
    else
      match ReadValue(rest[2..])
      case None => None
      case Some((value, after)) => Some(((name, value), after))
  }

  /** Pairs up to the closing brace. */
  function ReadPairs(t: string): Option<(seq<Label>, string)>
    decreases |t|
  {
    match ReadPair(t)
    case None => None
    case Some((l, rest)) =>
      if rest == [] || |rest| >= |t| then None
      else if rest[0] == '}' then Some(([l], rest[1..]))
      else if rest[0] == ',' then
        match ReadPairs(rest[1..])
        case None => None
        case Some((more, after)) => Some(([l] + more, after))
      else None
  }

  function ReadLabels(t: string): Option<(seq<Label>, string)> {
    if t == [] || t[0] != '{' then Some(([], t)) else ReadPairs(t[1..])
  }

  function Sanitized(labels: seq<Label>): seq<Label> {
    seq(|labels|, i requires 0 <= i < |labels| => (SanitizeLabelName(labels[i].0), labels[i].1))
  }

  // ---- Round trip of a label block ----

  lemma {:induction false} SpanTakes(p: char -> bool, s: string, rest: string)
    requires forall c :: c in s ==> p(c)
    requires rest == [] || !p(rest[0])
    ensures Span(p, s + rest) == (s, rest)
  {
    if s == [] {
      assert s + rest == rest;
    } else {
      assert (s + rest)[0] == s[0] && p(s[0]);
      assert (s + rest)[1..] == s[1..] + rest;
      SpanTakes(p, s[1..], rest);
      assert s == [s[0]] + s[1..];
    }
  }

  lemma ReadEscapedChar(c: char, tail: string)
    ensures ReadValue(EscapeChar(c) + tail) == Prefixed(c, ReadValue(tail))
  {
    var t := EscapeChar(c) + tail;
    assert t[|EscapeChar(c)|..] == tail;
  }

  lemma {:induction false} ReadEscapedValue(s: string, rest: string)
    ensures ReadValue(EscapeOnePass(s) + "\"" + rest) == Some((s, rest))
  {
    if s == [] {
      assert EscapeOnePass(s) + "\"" + rest == "\"" + rest;
    } else {
      var tail := EscapeOnePass(s[1..]) + "\"" + rest;
      assert EscapeOnePass(s) + "\"" + rest == EscapeChar(s[0]) + tail;
      ReadEscapedChar(s[0], tail);
      ReadEscapedValue(s[1..], rest);
      assert s == [s[0]] + s[1..];
    }
  }

  lemma ReadWrittenPair(l: Label, rest: string)
    ensures ReadPair(LabelPair(l) + rest) == Some(((SanitizeLabelName(l.0), l.1), rest))
  {
    var value := EscapeLabelValue(l.1) + "\"" + rest;
    var t := LabelPair(l) + rest;
    assert t == SanitizeLabelName(l.0) + ("=\"" + value);
    SpanTakes(IsLabelChar, SanitizeLabelName(l.0), "=\"" + value);
    assert ("=\"" + value)[2..] == value;
    EscapeIsOnePass(l.1);
    ReadEscapedValue(l.1, rest);
  }

  /** Texts with commas between them. */
  function Joined(texts: seq<string>): string {
    if texts == [] then ""
    else
      var n := |texts| - 1;
      Joined(texts[..n]) + (if n > 0 then "," else "") + texts[n]
  }

  lemma OneText(a: string)
    ensures Joined([a]) == a
  {
    assert [a][..0] == [];
  }

  lemma JoinedAppend(texts: seq<string>, last: string)
    requires texts != []
    ensures Joined(texts + [last]) == Joined(texts) + "," + last
  {
    assert (texts + [last])[..|texts|] == texts;
  }

  lemma {:induction false} JoinedFront(first: string, more: seq<string>)
    requires more != []
    ensures Joined([first] + more) == first + ("," + Joined(more))
  {
    var n := |more| - 1;
    var before := more[..n];
    assert [first] + more == [first] + before + [more[n]] && more == before + [more[n]];
    JoinedAppend([first] + before, more[n]);
    if n == 0 {
      assert [first] + before == [first] && more == [more[0]];
      OneText(first);
      OneText(more[0]);
    } else {
      JoinedFront(first, before);
      JoinedAppend(before, more[n]);
      assert (first + ("," + Joined(before))) + "," + more[n] == first + ("," + (Joined(before) + "," + more[n]));
    }
  }

  function Texts<A>(text: A -> string, xs: seq<A>): seq<string> {
    seq(|xs|, i requires 0 <= i < |xs| => text(xs[i]))
  }

  lemma TextsFront<A>(text: A -> string, xs: seq<A>)
    requires xs != []
    ensures Texts(text, xs) == [text(xs[0])] + Texts(text, xs[1..])
  {
  }

  lemma TextsLast<A>(text: A -> string, xs: seq<A>)
    requires xs != []
    ensures Texts(text, xs)[..|xs| - 1] == Texts(text, xs[..|xs| - 1])
  {
  }

  lemma {:induction false} LabelPairsJoined(labels: seq<Label>)
    ensures LabelPairs(labels) == Joined(Texts(LabelPair, labels))
  {
    if labels != [] {
      LabelPairsJoined(labels[..|labels| - 1]);
      TextsLast(LabelPair, labels);
    }
  }

  lemma OnePair(l: Label)
    ensures LabelPairs([l]) == LabelPair(l)
  {
    assert [l][..0] == [];
  }

  /** `LabelPairs` from the front. */
  lemma LabelPairsFront(labels: seq<Label>)
    requires |labels| > 1
    ensures LabelPairs(labels) == LabelPair(labels[0]) + ("," + LabelPairs(labels[1..]))
  {
    LabelPairsJoined(labels);
    LabelPairsJoined(labels[1..]);
    TextsFront(LabelPair, labels);
    JoinedFront(LabelPair(labels[0]), Texts(LabelPair, labels[1..]));
  }

  lemma SanitizedFront(labels: seq<Label>)
    requires labels != []
    ensures Sanitized(labels) == [(SanitizeLabelName(labels[0].0), labels[0].1)] + Sanitized(labels[1..])
  {
  }

  lemma ReadLastPair(l: Label, rest: string)
    ensures ReadPairs(LabelPair(l) + "}" + rest) == Some(([(SanitizeLabelName(l.0), l.1)], rest))
  {
    assert LabelPair(l) + "}" + rest == LabelPair(l) + ("}" + rest);
    ReadWrittenPair(l, "}" + rest);
    assert ("}" + rest)[1..] == rest;
  }

  lemma ReadFirstPair(l: Label, pairs: string, rest: string)
    requires ReadPairs(pairs + "}" + rest).Some?
    ensures var (more, after) := ReadPairs(pairs + "}" + rest).value;
            ReadPairs(LabelPair(l) + ("," + pairs) + "}" + rest) ==
            Some(([(SanitizeLabelName(l.0), l.1)] + more, after))
  {
    var tail := pairs + "}" + rest;
    assert LabelPair(l) + ("," + pairs) + "}" + rest == LabelPair(l) + ("," + tail);
    ReadWrittenPair(l, "," + tail);
    assert ("," + tail)[1..] == tail;
  }

  lemma {:induction false} ReadWrittenPairs(labels: seq<Label>, rest: string)
    requires labels != []
    ensures ReadPairs(LabelPairs(labels) + "}" + rest) == Some((Sanitized(labels), rest))
    decreases |labels|
  {
    SanitizedFront(labels);
    if |labels| == 1 {
      OnePair(labels[0]);
      assert labels == [labels[0]];
      ReadLastPair(labels[0], rest);
      assert Sanitized(labels) == [(SanitizeLabelName(labels[0].0), labels[0].1)];
    } else {
      LabelPairsFront(labels);
      ReadWrittenPairs(labels[1..], rest);
      ReadFirstPair(labels[0], LabelPairs(labels[1..]), rest);
    }
  }

  lemma Unwrap(pairs: string, rest: string)
    ensures var t := "{" + pairs + "}" + rest;
            t != [] && t[0] == '{' && t[1..] == pairs + "}" + rest
  {
  }

  /** Main result: reading a label block back gives the sanitized names and the exact values, in order,
      and stops right after the block. */
  lemma LabelBlockRoundTrip(labels: seq<Label>, rest: string)
    requires rest == [] || rest[0] != '{'
    ensures ReadLabels(LabelBlock(labels) + rest) == Some((Sanitized(labels), rest))
  {
    if labels == [] {
      assert LabelBlock(labels) + rest == rest;
      assert Sanitized(labels) == [];
    } else {
      ReadWrittenPairs(labels, rest);
      Unwrap(LabelPairs(labels), rest);
    }
  }
}
