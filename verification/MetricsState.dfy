/**
 The metrics of one function instance: keys interned to ids, pending increments per id,
 and the flush that turns ids back into keys.
 */
module MetricsState {
  import opened Common
  import opened MetricsKeys

  datatype Delta = Delta(counters: map<MetricKey, nat>, gauges: map<MetricKey, int>)

  datatype Metrics = Metrics(series: seq<MetricKey>, ids: map<MetricKey, nat>,
                             counters: map<nat, nat>, gauges: map<nat, int>)

  const NO_METRICS: Metrics := Metrics([], map[], map[], map[])

  /** `series` and `ids` are inverse to each other; in particular no key is interned twice. */
  ghost predicate Interned(m: Metrics) {
    && (forall i :: 0 <= i < |m.series| ==> m.series[i] in m.ids && m.ids[m.series[i]] == i)
    && (forall k :: k in m.ids ==> m.ids[k] < |m.series| && m.series[m.ids[k]] == k)
  }

  function Register(m: Metrics, key: MetricKey): Metrics {
    if key in m.ids then m else m.(series := m.series + [key], ids := m.ids[key := |m.series|])
  }

  function IdOf(m: Metrics, key: MetricKey): nat {
    if key in m.ids then m.ids[key] else |m.series|
  }

  function Count<K>(counters: map<K, nat>, k: K): nat {
    if k in counters then counters[k] else 0
  }

  /** The id comes from the guest and is not checked here. */
  function Increment(m: Metrics, id: nat, delta: nat): Metrics {
    m.(counters := m.counters[id := Count(m.counters, id) + delta])
  }

  function UpdateGauge(m: Metrics, id: nat, value: int): Metrics {
    m.(gauges := m.gauges[id := value])
  }

  function Flushed(m: Metrics): Metrics {
    m.(counters := map[], gauges := map[])
  }

  predicate AllRegistered(m: Metrics) {
    && (forall id :: id in m.counters ==> id < |m.series|)
    && (forall id :: id in m.gauges ==> id < |m.series|)
  }

  /** Pending values under their keys. */
  function ByKey<V>(ids: map<MetricKey, nat>, values: map<nat, V>): map<MetricKey, V> {
    map k | k in ids && ids[k] in values :: values[ids[k]]
  }

  /** What a flush sends; None where looking an id up in `series` panics. */
  function DeltaOf(m: Metrics): Option<Delta> {
    if AllRegistered(m) then Some(Delta(ByKey(m.ids, m.counters), ByKey(m.ids, m.gauges))) else None
  }

  /** No two pending counters meet under one key, so nothing is overwritten: this is where the
      interning table has to be injective. */
  lemma FlushMergesNothing(m: Metrics, id: nat)
    requires Interned(m) && DeltaOf(m).Some? && id in m.counters
    ensures m.series[id] in DeltaOf(m).value.counters
    ensures DeltaOf(m).value.counters[m.series[id]] == m.counters[id]
    ensures forall other :: other in m.counters && m.series[other] == m.series[id] ==> other == id
  {
  }

  lemma RegisterKeepsInterned(m: Metrics, key: MetricKey)
    requires Interned(m)
    ensures Interned(Register(m, key))
    ensures IdOf(m, key) < |Register(m, key).series| && Register(m, key).series[IdOf(m, key)] == key
    ensures m.series <= Register(m, key).series
  {
  }

  datatype Call =
    | RegisterCall(name: string, labels: seq<Label>)
    | IncrementCall(id: nat, delta: nat)
    | GaugeCall(id: nat, value: int)
    | FlushCall

  function Apply(m: Metrics, c: Call): Metrics {
    match c
    case RegisterCall(name, labels) => Register(m, CanonicalKey(name, labels))
    case IncrementCall(id, delta) => Increment(m, id, delta)
    case GaugeCall(id, value) => UpdateGauge(m, id, value)
    case FlushCall => Flushed(m)
  }

  function ApplyAll(calls: seq<Call>): Metrics {
    if calls == [] then NO_METRICS else Apply(ApplyAll(calls[..|calls| - 1]), calls[|calls| - 1])
  }

  /** The id answered to the registration at position `i`. */
  function AnsweredId(calls: seq<Call>, i: nat): nat
    requires i < |calls| && calls[i].RegisterCall?
  {
    IdOf(ApplyAll(calls[..i]), CanonicalKey(calls[i].name, calls[i].labels))
  }

  lemma {:induction false} AlwaysInterned(calls: seq<Call>)
    ensures Interned(ApplyAll(calls))
  {
    if calls != [] {
      AlwaysInterned(calls[..|calls| - 1]);
    }
  }

  lemma CallGrowsSeries(m: Metrics, c: Call)
    ensures m.series <= Apply(m, c).series
  {
  }

  lemma {:induction false} SeriesOnlyGrows(calls: seq<Call>, i: nat, n: nat)
    requires i <= n <= |calls|
    ensures ApplyAll(calls[..i]).series <= ApplyAll(calls[..n]).series
    decreases n
  {
    if i < n {
      SeriesOnlyGrows(calls, i, n - 1);
      assert calls[..n][..n - 1] == calls[..n - 1];
      CallGrowsSeries(ApplyAll(calls[..n - 1]), calls[n - 1]);
    }
  }

  /** An id, once answered, indexes its own key for ever. */
  lemma IdIndexesItsKey(calls: seq<Call>, i: nat, n: nat)
    requires i < n <= |calls| && calls[i].RegisterCall?
    ensures AnsweredId(calls, i) < |ApplyAll(calls[..n]).series|
    ensures ApplyAll(calls[..n]).series[AnsweredId(calls, i)] == CanonicalKey(calls[i].name, calls[i].labels)
  {
    AlwaysInterned(calls[..i]);
    RegisterKeepsInterned(ApplyAll(calls[..i]), CanonicalKey(calls[i].name, calls[i].labels));
    assert calls[..i + 1][..i] == calls[..i];
    SeriesOnlyGrows(calls, i + 1, n);
  }

  ghost predicate HandedOut(calls: seq<Call>, id: nat) {
    exists j: nat :: j < |calls| && calls[j].RegisterCall? && AnsweredId(calls, j) == id
  }

  lemma HandedOutStep(calls: seq<Call>, id: nat)
    requires calls != []
    ensures var n := |calls| - 1;
            HandedOut(calls, id) <==>
            HandedOut(calls[..n], id) || (calls[n].RegisterCall? && AnsweredId(calls, n) == id)
  {
    var n := |calls| - 1;
    var before := calls[..n];
    forall j: nat | j < n
      ensures before[..j] == calls[..j] && before[j] == calls[j]
    {
    }
    if j: nat :| j < |before| && before[j].RegisterCall? && AnsweredId(before, j) == id {
      assert AnsweredId(calls, j) == id;
    }
    if j: nat :| j < n && calls[j].RegisterCall? && AnsweredId(calls, j) == id {
      assert AnsweredId(before, j) == id;
    }
  }

  lemma RegisterHandsOut(m: Metrics, c: Call, id: nat)
    requires Interned(m)
    ensures id < |Apply(m, c).series|
            <==> id < |m.series| || (c.RegisterCall? && IdOf(m, CanonicalKey(c.name, c.labels)) == id)
  {
  }

  /** The ids below the number of series are those that some registration was answered with. */
  lemma {:induction false} HandedOutExactly(calls: seq<Call>, id: nat)
    ensures id < |ApplyAll(calls).series| <==> HandedOut(calls, id)
  {
    if calls != [] {
      var n := |calls| - 1;
      HandedOutExactly(calls[..n], id);
      HandedOutStep(calls, id);
      AlwaysInterned(calls[..n]);
      RegisterHandsOut(ApplyAll(calls[..n]), calls[n], id);
    }
  }

  predicate Touches(c: Call, id: nat) {
    (c.IncrementCall? && c.id == id) || (c.GaugeCall? && c.id == id)
  }

  /** A value was put under the id and has not been flushed since. */
  ghost predicate Unflushed(calls: seq<Call>, id: nat) {
    exists i: nat :: i < |calls| && Touches(calls[i], id) && forall r :: i < r < |calls| ==> !calls[r].FlushCall?
  }

  lemma {:induction false} PendingExactly(calls: seq<Call>, id: nat)
    ensures id in ApplyAll(calls).counters || id in ApplyAll(calls).gauges <==> Unflushed(calls, id)
  {
    if calls != [] {
      var n := |calls| - 1;
      PendingExactly(calls[..n], id);
      if Touches(calls[n], id) {
        assert Unflushed(calls, id);
      } else {
        assert Unflushed(calls, id) <==> !calls[n].FlushCall? && Unflushed(calls[..n], id) by {
          if !calls[n].FlushCall? && Unflushed(calls[..n], id) {
            var i: nat :|
              i < n && Touches(calls[..n][i], id) && forall r :: i < r < n ==> !calls[..n][r].FlushCall?;
            assert forall r :: i < r < n ==> calls[..n][r] == calls[r];
            assert Touches(calls[i], id);
          }
          if Unflushed(calls, id) {
            var i: nat :| i < |calls| && Touches(calls[i], id) && forall r :: i < r < |calls| ==> !calls[r].FlushCall?;
            assert Touches(calls[..n][i], id);
          }
        }
      }
    }
  }

  /** The gauge is flushed or set again. */
  predicate Supersedes(c: Call, id: nat) {
    c.FlushCall? || (c.GaugeCall? && c.id == id)
  }

  /** The gauge was last set to `v`, and neither set again nor flushed since. */
  ghost predicate LastSetTo(calls: seq<Call>, id: nat, v: int) {
    exists i: nat :: i < |calls| && calls[i] == GaugeCall(id, v)
                     && forall r :: i < r < |calls| ==> !Supersedes(calls[r], id)
  }

  lemma LastSetStep(calls: seq<Call>, id: nat, v: int)
    requires calls != []
    ensures var n := |calls| - 1;
            LastSetTo(calls, id, v) <==>
            calls[n] == GaugeCall(id, v) ||
            (!Supersedes(calls[n], id) && LastSetTo(calls[..n], id, v))
  {
    var n := |calls| - 1;
    var before := calls[..n];
    if i: nat :| i < |before| && before[i] == GaugeCall(id, v)
                 && forall r :: i < r < |before| ==> !Supersedes(before[r], id) {
      assert calls[i] == before[i];
      assert forall r :: i < r < n ==> calls[r] == before[r];
    }
    if i: nat :| i < |calls| && calls[i] == GaugeCall(id, v)
                 && forall r :: i < r < |calls| ==> !Supersedes(calls[r], id) {
      assert i < n ==> before[i] == calls[i];
      assert forall r :: i < r < n ==> calls[r] == before[r];
    }
  }

  /** Main result: after any calls a gauge is pending with a value exactly when it was last set to it and not
      flushed since: of two updates the later one counts. */
  lemma {:induction false} PendingGaugeExactly(calls: seq<Call>, id: nat, v: int)
    ensures id in ApplyAll(calls).gauges && ApplyAll(calls).gauges[id] == v <==> LastSetTo(calls, id, v)
  {
    if calls != [] {
      PendingGaugeExactly(calls[..|calls| - 1], id, v);
      LastSetStep(calls, id, v);
    }
  }

  /** Main result: after any calls a flush fails exactly when a value not flushed yet was put under an id
      that no registration so far was answered with. */
  lemma FlushFailsExactlyOnUnknownIds(calls: seq<Call>)
    ensures DeltaOf(ApplyAll(calls)).None? <==> exists id: nat :: Unflushed(calls, id) && !HandedOut(calls, id)
  {
    forall id: nat
      ensures id in ApplyAll(calls).counters || id in ApplyAll(calls).gauges <==> Unflushed(calls, id)
      ensures id < |ApplyAll(calls).series| <==> HandedOut(calls, id)
    {
      PendingExactly(calls, id);
      HandedOutExactly(calls, id);
    }
  }

  /** Main result: two registrations, however far apart and whatever happens in between, are answered
      with one id exactly when the names match and the labels are permutations of each other. */
  lemma SameIdExactlyForSameMetric(calls: seq<Call>, i: nat, j: nat)
    requires i < j < |calls| && calls[i].RegisterCall? && calls[j].RegisterCall?
    ensures AnsweredId(calls, i) == AnsweredId(calls, j)
            <==> calls[i].name == calls[j].name && multiset(calls[i].labels) == multiset(calls[j].labels)
  {
    var m := ApplyAll(calls[..j]);
    AlwaysInterned(calls[..j]);
    IdIndexesItsKey(calls, i, j);
    CanonicalKeyIdentity(calls[i].name, calls[i].labels, calls[j].name, calls[j].labels);
  }

  class FunctionMetricsState {
    var metricsSeries: seq<MetricKey>
    var metricKeyToIds: map<MetricKey, nat>
    var metricsCounterDelta: map<nat, nat>
    var gaugesUpdates: map<nat, int>

    ghost function Contents(): Metrics
      reads this
    {
      Metrics(metricsSeries, metricKeyToIds, metricsCounterDelta, gaugesUpdates)
    }

    ghost predicate Valid()
      reads this
    {
      Interned(Contents())
    }

    constructor ()
      ensures Valid() && Contents() == NO_METRICS
    {
      metricsSeries, metricKeyToIds, metricsCounterDelta, gaugesUpdates := [], map[], map[], map[];
    }

    method CounterRegister(key: MetricKey) returns (id: nat)
      requires Valid()
      modifies this`metricsSeries, this`metricKeyToIds
      ensures Valid()
      ensures Contents() == Register(old(Contents()), key)
      ensures id == IdOf(old(Contents()), key) && id < |metricsSeries| && metricsSeries[id] == key
    {
      if key !in metricKeyToIds {
        metricKeyToIds := metricKeyToIds[key := |metricsSeries|];
        metricsSeries := metricsSeries + [key];
      }
      id := metricKeyToIds[key];
    }

    method CounterIncrement(id: nat, delta: nat)
      modifies this`metricsCounterDelta
      ensures Contents() == Increment(old(Contents()), id, delta)
    {
      if id !in metricsCounterDelta {
        metricsCounterDelta := metricsCounterDelta[id := 0];
      }
      metricsCounterDelta := metricsCounterDelta[id := metricsCounterDelta[id] + delta];
    }

    method GaugeUpdate(id: nat, value: int)
      modifies this`gaugesUpdates
      ensures Contents() == UpdateGauge(old(Contents()), id, value)
    {
      gaugesUpdates := gaugesUpdates[id := value];
    }

    /** Re-keys pending values one by one, in no particular order. A later value for the same key would
        overwrite an earlier one; None is the panic on an id with no series. */
    method Rekey<V>(values: map<nat, V>) returns (result: Option<map<MetricKey, V>>)
      requires Valid()
      ensures result.Some? <==> forall id :: id in values ==> id < |metricsSeries|
      ensures result.Some? ==> result.value == ByKey(metricKeyToIds, values)
    {
      var keyed: map<MetricKey, V> := map[];
      var todo := values.Keys;
      while todo != {}
        invariant todo <= values.Keys
        invariant forall id :: id in values && id !in todo ==> id < |metricsSeries|
        invariant forall k :: k in keyed <==> k in metricKeyToIds && metricKeyToIds[k] in values.Keys - todo
        invariant forall k :: k in keyed ==> keyed[k] == values[metricKeyToIds[k]]
      {
        var id :| id in todo;
        if id >= |metricsSeries| {
          return None;
        }
        keyed := keyed[metricsSeries[id] := values[id]];
        todo := todo - {id};
      }
      assert keyed == ByKey(metricKeyToIds, values);
      return Some(keyed);
    }

    method FlushDelta() returns (delta: Option<Delta>)
      requires Valid()
      modifies this`metricsCounterDelta, this`gaugesUpdates
      ensures Valid()
      ensures delta == DeltaOf(old(Contents()))
      ensures delta.Some? ==> Contents() == Flushed(old(Contents()))
    {
      var pendingCounters := metricsCounterDelta;
      metricsCounterDelta := map[];
      var counters := Rekey(pendingCounters);
      if counters.None? {
        return None;
      }
      var pendingGauges := gaugesUpdates;
      gaugesUpdates := map[];
      var gauges := Rekey(pendingGauges);
      if gauges.None? {
        return None;
      }
      return Some(Delta(counters.value, gauges.value));
    }
  }
}
