/**
 Metric keys and the canonical order of their labels.

 The host sorts the labels of a registration request before it looks the key up, so two
 requests name the same series exactly when one label list is a permutation of the other.
 */
module MetricsKeys {

  type Label = (string, string)

  datatype MetricKey = MetricKey(name: string, labels: seq<Label>)

  predicate StringLe(a: string, b: string) {
    a == [] || (b != [] && (a[0] < b[0] || (a[0] == b[0] && StringLe(a[1..], b[1..]))))
  }

  /** Pairs are ordered by name, then by value. */
  predicate LabelLe(a: Label, b: Label) {
    if a.0 == b.0 then StringLe(a.1, b.1) else StringLe(a.0, b.0)
  }

  lemma {:induction false} StringLeOrder(a: string, b: string, c: string)
    ensures StringLe(a, b) || StringLe(b, a)
    ensures StringLe(a, b) && StringLe(b, a) ==> a == b
    ensures StringLe(a, b) && StringLe(b, c) ==> StringLe(a, c)
  {
    if a != [] && b != [] {
      StringLeOrder(a[1..], b[1..], if c == [] then c else c[1..]);
    }
  }

  /** The texts agree up to place `i`, and there `a` ends or has the smaller character. */
  predicate SmallerAt(a: string, b: string, i: nat) {
    && i <= |a| && i <= |b| && a[..i] == b[..i]
    && (i == |a| || (i < |b| && a[i] < b[i]))
  }

  /** The order is that of a dictionary. */
  lemma {:induction false} StringLeExactly(a: string, b: string)
    ensures StringLe(a, b) <==> exists i: nat :: SmallerAt(a, b, i)
  {
    if a == [] {
      assert SmallerAt(a, b, 0);
    } else if b != [] {
      if a[0] < b[0] {
        assert SmallerAt(a, b, 0);
      }
      StringLeExactly(a[1..], b[1..]);
      if i: nat :| SmallerAt(a[1..], b[1..], i) && a[0] == b[0] {
        assert a[..i + 1] == [a[0]] + a[1..][..i] && b[..i + 1] == [b[0]] + b[1..][..i];
        assert SmallerAt(a, b, i + 1);
      }
      if i: nat :| SmallerAt(a, b, i) {
        if i > 0 {
          assert a[1..][..i - 1] == a[..i][1..] && b[1..][..i - 1] == b[..i][1..];
          assert a[..i][0] == a[0] && b[..i][0] == b[0];
          assert SmallerAt(a[1..], b[1..], i - 1);
        }
      }
    } else {
      assert forall i: nat :: !SmallerAt(a, b, i);
    }
  }

  lemma LabelLeExactly(a: Label, b: Label)
    ensures LabelLe(a, b) <==>
            (a.0 != b.0 && exists i: nat :: SmallerAt(a.0, b.0, i)) ||
            (a.0 == b.0 && exists i: nat :: SmallerAt(a.1, b.1, i))
  {
    StringLeExactly(a.0, b.0);
    StringLeExactly(a.1, b.1);
  }

  lemma LabelLeOrder(a: Label, b: Label, c: Label)
    ensures LabelLe(a, b) || LabelLe(b, a)
    ensures LabelLe(a, b) && LabelLe(b, a) ==> a == b
    ensures LabelLe(a, b) && LabelLe(b, c) ==> LabelLe(a, c)
  {
    StringLeOrder(a.0, b.0, c.0);
    StringLeOrder(b.0, c.0, a.0);
    StringLeOrder(a.1, b.1, c.1);
  }

  ghost predicate IsSorted(labels: seq<Label>) {
    forall i, j :: 0 <= i < j < |labels| ==> LabelLe(labels[i], labels[j])
  }

  function InsertLabel(labels: seq<Label>, x: Label): seq<Label> {
    if labels == [] || LabelLe(x, labels[0]) then [x] + labels
    else [labels[0]] + InsertLabel(labels[1..], x)
  }

  /** `Vec::sort`; by `SortedIsUnique` any correct sort gives this sequence. */
  function SortLabels(labels: seq<Label>): seq<Label> {
    if labels == [] then [] else InsertLabel(SortLabels(labels[1..]), labels[0])
  }

  lemma LeadsRest(first: Label, rest: seq<Label>)
    requires IsSorted(rest) && forall y :: y in rest ==> LabelLe(first, y)
    ensures IsSorted([first] + rest)
  {
  }

  lemma InsertedBelong(labels: seq<Label>, x: Label, rest: seq<Label>)
    requires labels != [] && IsSorted(labels) && LabelLe(labels[0], x)
    requires multiset(rest) == multiset(labels[1..]) + multiset{x}
    ensures forall y :: y in rest ==> LabelLe(labels[0], y)
  {
    forall y | y in rest
      ensures LabelLe(labels[0], y)
    {
      assert y in multiset(rest);
      assert y == x || y in multiset(labels[1..]);
    }
  }

  lemma {:induction false} InsertLabelCorrect(labels: seq<Label>, x: Label)
    requires IsSorted(labels)
    ensures IsSorted(InsertLabel(labels, x))
    ensures multiset(InsertLabel(labels, x)) == multiset(labels) + multiset{x}
  {
    if labels == [] {
    } else if LabelLe(x, labels[0]) {
      forall y | y in labels
        ensures LabelLe(x, y)
      {
        LabelLeOrder(x, labels[0], y);
      }
      LeadsRest(x, labels);
    } else {
      LabelLeOrder(x, labels[0], x);
      var rest := InsertLabel(labels[1..], x);
      InsertLabelCorrect(labels[1..], x);
      assert labels == [labels[0]] + labels[1..];
      InsertedBelong(labels, x, rest);
      LeadsRest(labels[0], rest);
    }
  }

  lemma {:induction false} SortLabelsCorrect(labels: seq<Label>)
    ensures IsSorted(SortLabels(labels))
    ensures multiset(SortLabels(labels)) == multiset(labels)
  {
    if labels != [] {
      SortLabelsCorrect(labels[1..]);
      InsertLabelCorrect(SortLabels(labels[1..]), labels[0]);
      assert labels == [labels[0]] + labels[1..];
    }
  }

  lemma RestOf(a: seq<Label>)
    requires a != []
    ensures multiset(a[1..]) == multiset(a) - multiset{a[0]}
  {
    assert a == [a[0]] + a[1..];
  }

  lemma LeastFirst(a: seq<Label>, b: seq<Label>)
    requires IsSorted(a) && IsSorted(b) && multiset(a) == multiset(b) && a != []
    ensures b != [] && a[0] == b[0]
  {
    assert a[0] in multiset(b);
    assert b[0] in multiset(a);
    LabelLeOrder(a[0], b[0], a[0]);
    LabelLeOrder(a[0], a[0], a[0]);
  }

  /** A multiset of labels has one sorted listing. */
  lemma {:induction false} SortedIsUnique(a: seq<Label>, b: seq<Label>)
    requires IsSorted(a) && IsSorted(b) && multiset(a) == multiset(b)
    ensures a == b
  {
    if a == [] {
      assert |multiset(b)| == |b|;
    } else {
      LeastFirst(a, b);
      RestOf(a);
      RestOf(b);
      SortedIsUnique(a[1..], b[1..]);
    }
  }

  /** The key the host builds from a registration request. */
  function CanonicalKey(name: string, labels: seq<Label>): MetricKey {
    MetricKey(name, SortLabels(labels))
  }

  lemma CanonicalKeyIdentity(name1: string, labels1: seq<Label>, name2: string, labels2: seq<Label>)
    ensures CanonicalKey(name1, labels1) == CanonicalKey(name2, labels2)
            <==> name1 == name2 && multiset(labels1) == multiset(labels2)
  {
    SortLabelsCorrect(labels1);
    SortLabelsCorrect(labels2);
    if multiset(labels1) == multiset(labels2) {
      SortedIsUnique(SortLabels(labels1), SortLabels(labels2));
    }
  }
}
